/** Sync mode: the durability tiers of core.go over a three-layer store of
    process buffer, page cache and fsynced file. */
module Durability {
  import opened Basics

  datatype Tier = OSBuffered | Direct | FsyncEveryN | FsyncEveryWrite

  /** Size of the shared bufio.Writer. */
  const BUFFER_SIZE: nat := 65536

  /** The log file as the kernel has it, how much of it an fsync covered, the
      bufio.Writer's content, and the tier's counters. */
  datatype Store = Store(file: bytes, synced: nat, buffered: bytes, count: nat, lastFlushMs: int)

  /** `stderr`: the sync file is os.Stderr, which Flush does not fsync; `startMs`:
      the clock when the logger was created. */
  datatype Setup = Setup(tier: Tier, n: nat, stderr: bool, startMs: int) {
    ghost predicate Valid() {
      n >= 1
    }
    predicate HasBuffer() {
      tier.OSBuffered? || tier.FsyncEveryN?
    }
  }

  // -- The specification ------------------------------------------------------------------

  /** bufio.Writer.Write: fill and flush while p does not fit; a large p that
      meets an empty buffer goes straight to the file. */
  function BufWrite(s: Store, p: bytes): Store
    requires |s.buffered| <= BUFFER_SIZE
    decreases |s.buffered|
  {
    var available := BUFFER_SIZE - |s.buffered|;
    if |p| <= available then s.(buffered := s.buffered + p)
    else if s.buffered == [] then s.(file := s.file + p)
    else BufWrite(s.(file := s.file + (s.buffered + p[..available]), buffered := []), p[available..])
  }

  function BufFlush(s: Store): Store {
    s.(file := s.file + s.buffered, buffered := [])
  }

  function Sync(s: Store): Store {
    s.(synced := |s.file|)
  }

  /** One log call with the formatted line; nowMs and laterMs are its two clock
      readings. */
  function LogLine(c: Setup, s: Store, line: bytes, nowMs: int, laterMs: int): Store
    requires |s.buffered| <= BUFFER_SIZE
  {
    match c.tier
    case OSBuffered =>
      BufWriteBound(s, line);
      var t := BufWrite(s, line);
      if BUFFER_SIZE - |t.buffered| < |line| || nowMs - t.lastFlushMs >= 10
      then BufFlush(t).(lastFlushMs := laterMs) else t
    case Direct => s.(file := s.file + line)
    case FsyncEveryN =>
      var t := BufWrite(s, line).(count := s.count + 1);
      if t.count >= c.n then Sync(BufFlush(t)).(count := 0) else t
    case FsyncEveryWrite => Sync(s.(file := s.file + line))
  }

  /** syncFlush; Close calls it too. */
  function Flush(c: Setup, s: Store): Store {
    if !c.HasBuffer() then s
    else if c.tier.FsyncEveryN? && !c.stderr then Sync(BufFlush(s)).(count := 0)
    else BufFlush(s)
  }

  lemma BufWriteBound(s: Store, p: bytes)
    requires |s.buffered| <= BUFFER_SIZE
    ensures |BufWrite(s, p).buffered| <= BUFFER_SIZE
    decreases |s.buffered|
  {
  }

  lemma {:induction false} BufWriteKeeps(s: Store, p: bytes)
    requires |s.buffered| <= BUFFER_SIZE
    ensures var t := BufWrite(s, p);
            && t.file + t.buffered == s.file + s.buffered + p
            && |s.file| <= |t.file| && t.file[..|s.file|] == s.file
            && t.synced == s.synced && t.count == s.count && t.lastFlushMs == s.lastFlushMs
            && |t.buffered| <= BUFFER_SIZE
            && (|s.buffered| + |p| <= BUFFER_SIZE ==> t.file == s.file)
    decreases |s.buffered|
  {
    var available := BUFFER_SIZE - |s.buffered|;
    if |p| > available && s.buffered != [] {
      var u := s.(file := s.file + (s.buffered + p[..available]), buffered := []);
      BufWriteKeeps(u, p[available..]);
      assert p == p[..available] + p[available..];
      assert BufWrite(s, p).file[..|u.file|][..|s.file|] == s.file;
    }
  }

  // -- The writer as it is programmed -------------------------------------------------------

  class SyncLog {
    const setup: Setup
    var file: bytes
    var synced: nat
    var buffered: bytes
    var syncWriteCount: nat
    var syncLastFlushMs: int

    function State(): Store
      reads this
    {
      Store(file, synced, buffered, syncWriteCount, syncLastFlushMs)
    }

    constructor (setup: Setup, existing: bytes)
      ensures this.setup == setup && State() == Run(setup, existing, []).store
    {
      this.setup := setup;
      file, synced, buffered, syncWriteCount, syncLastFlushMs := existing, |existing|, [], 0, setup.startMs;
    }

    /** syncBw.Write */
    method BufioWrite(p: bytes)
      requires |buffered| <= BUFFER_SIZE
      modifies this`file, this`buffered
      ensures State() == BufWrite(old(State()), p) && |buffered| <= BUFFER_SIZE
    {
      var rest := p;
      while |rest| > BUFFER_SIZE - |buffered|
        invariant |buffered| <= BUFFER_SIZE
        invariant BufWrite(State(), rest) == BufWrite(old(State()), p)
        decreases |buffered|, |rest|
      {
        if buffered == [] {
          file := file + rest;
          rest := [];
        } else {
          var n := BUFFER_SIZE - |buffered|;
          buffered := buffered + rest[..n];
          file, buffered := file + buffered, [];
          rest := rest[n..];
        }
      }
      buffered := buffered + rest;
    }

    method BufioFlush()
      modifies this`file, this`buffered
      ensures State() == BufFlush(old(State()))
    {
      file, buffered := file + buffered, [];
    }

    /** syncWrite */
    method SyncWrite(line: bytes, nowMs: int, laterMs: int)
      requires |buffered| <= BUFFER_SIZE
      modifies this
      ensures State() == LogLine(setup, old(State()), line, nowMs, laterMs)
    {
      match setup.tier {
        case OSBuffered =>
          BufioWrite(line);
          var shouldFlush := BUFFER_SIZE - |buffered| < |line|;
          if !shouldFlush {
            shouldFlush := nowMs - syncLastFlushMs >= 10;
          }
          if shouldFlush {
            BufioFlush();
            syncLastFlushMs := laterMs;
          }
        case Direct =>
          file := file + line;
        case FsyncEveryN =>
          BufioWrite(line);
          syncWriteCount := syncWriteCount + 1;
          if syncWriteCount >= setup.n {
            BufioFlush();
            synced := |file|;
            syncWriteCount := 0;
          }
        case FsyncEveryWrite =>
          file := file + line;
          synced := |file|;
      }
    }

    /** syncFlush */
    method SyncFlush()
      modifies this
      ensures State() == Flush(setup, old(State()))
    {
      if !setup.HasBuffer() {
        return;
      }
      BufioFlush();
      if setup.tier == FsyncEveryN && !setup.stderr {
        synced := |file|;
        syncWriteCount := 0;
      }
    }
  }

  // -- Runs --------------------------------------------------------------------------------

  datatype Op = Log(line: bytes, nowMs: int, laterMs: int) | FlushCall

  datatype World = World(store: Store, lines: seq<bytes>)

  /** The state after a list of calls, and the lines logged so far. */
  function Run(c: Setup, existing: bytes, ops: seq<Op>): (w: World)
    ensures |w.store.buffered| <= BUFFER_SIZE
  {
    if ops == [] then World(Store(existing, |existing|, [], 0, c.startMs), [])
    else
      var w := Run(c, existing, ops[..|ops| - 1]);
      match ops[|ops| - 1]
      case Log(line, nowMs, laterMs) =>
        BufWriteBound(w.store, line);
        World(LogLine(c, w.store, line, nowMs, laterMs), w.lines + [line])
      case FlushCall => World(Flush(c, w.store), w.lines)
  }

  /** The lines logged, after what the file held before. */
  function Stream(existing: bytes, lines: seq<bytes>): bytes {
    existing + Concat(lines)
  }

  lemma StreamAppend(existing: bytes, lines: seq<bytes>, line: bytes)
    ensures Stream(existing, lines + [line]) == Stream(existing, lines) + line
  {
    ConcatAppend(lines, line);
    Assoc(existing, Concat(lines), line);
  }

  lemma LogKeeps(c: Setup, s: Store, line: bytes, nowMs: int, laterMs: int)
    requires |s.buffered| <= BUFFER_SIZE && s.synced <= |s.file|
    ensures var t := LogLine(c, s, line, nowMs, laterMs);
            && (c.HasBuffer() || s.buffered == [] ==> t.file + t.buffered == s.file + s.buffered + line)
            && |s.file| <= |t.file| && t.file[..|s.file|] == s.file && t.synced <= |t.file|
            && (!c.HasBuffer() ==> t.buffered == s.buffered && t.count == s.count)
  {
    hide BufWrite;
    BufWriteKeeps(s, line);
    var t := BufWrite(s, line);
    assert t.file + t.buffered + [] == t.file + t.buffered;
    assert (t.file + t.buffered)[..|s.file|] == s.file;
  }

  /** What every call keeps: page cache followed by process buffer is the whole
      formatted stream, so the file is always a byte prefix of it; the unbuffered
      tiers leave nothing in process memory. */
  ghost predicate StreamInv(c: Setup, existing: bytes, w: World) {
    && w.store.synced <= |w.store.file|
    && w.store.file + w.store.buffered == Stream(existing, w.lines)
    && (!c.HasBuffer() ==> w.store.buffered == [])
    && (c.tier.FsyncEveryWrite? ==> w.store.synced == |w.store.file|)
  }

  lemma {:induction false} StreamRun(c: Setup, existing: bytes, ops: seq<Op>)
    ensures StreamInv(c, existing, Run(c, existing, ops))
  {
    hide BufWrite, Concat;
    if ops == [] {
      assert Concat<byte>([]) == [] by { ConcatNothing<byte>(); }
    } else {
      StreamRun(c, existing, ops[..|ops| - 1]);
      var w := Run(c, existing, ops[..|ops| - 1]);
      match ops[|ops| - 1] {
        case Log(line, nowMs, laterMs) =>
          LogKeeps(c, w.store, line, nowMs, laterMs);
          StreamAppend(existing, w.lines, line);
        case FlushCall =>
          assert (w.store.file + w.store.buffered) + [] == w.store.file + w.store.buffered;
      }
    }
  }

  /** A process crash keeps the file; an OS crash keeps at least its synced part. */
  function AfterProcessCrash(s: Store): bytes {
    s.file
  }

  function AfterPowerLoss(s: Store): bytes
    requires s.synced <= |s.file|
  {
    s.file[..s.synced]
  }

  /** After any calls: what survives a process crash is a prefix of the stream,
      all of it for Direct and FsyncEveryWrite; what survives power loss is a
      prefix of that, all of it for FsyncEveryWrite. */
  lemma CrashSurvivors(c: Setup, existing: bytes, ops: seq<Op>)
    ensures var w := Run(c, existing, ops);
            && w.store.synced <= |w.store.file|
            && AfterPowerLoss(w.store) <= AfterProcessCrash(w.store) <= Stream(existing, w.lines)
            && AfterProcessCrash(w.store) + w.store.buffered == Stream(existing, w.lines)
            && (!c.HasBuffer() ==> AfterProcessCrash(w.store) == Stream(existing, w.lines))
            && (c.tier.FsyncEveryWrite? ==> AfterPowerLoss(w.store) == Stream(existing, w.lines))
  {
    StreamRun(c, existing, ops);
    var w := Run(c, existing, ops);
    hide Run;
    assert w.store.file + [] == w.store.file;
  }

  /** Flush (and Close) leave nothing in process memory. They fsync in the
      FsyncEveryN tier, unless the sync file is os.Stderr, and in no other. */
  lemma FlushEmpties(c: Setup, existing: bytes, ops: seq<Op>)
    requires ops != [] && ops[|ops| - 1].FlushCall?
    ensures var w, before := Run(c, existing, ops), Run(c, existing, ops[..|ops| - 1]);
            && w.store.buffered == [] && AfterProcessCrash(w.store) == Stream(existing, w.lines)
            && w.lines == before.lines
            && w.store.synced == if c.tier.FsyncEveryN? && !c.stderr then |w.store.file| else before.store.synced
  {
    StreamRun(c, existing, ops[..|ops| - 1]);
    StreamRun(c, existing, ops);
    var w := Run(c, existing, ops);
    assert w.store.buffered == [];
    assert w.store.file + [] == w.store.file;
  }

  /** FsyncEveryN: exactly the last `count` lines are not fsynced. */
  ghost predicate EveryNInv(c: Setup, existing: bytes, w: World) {
    && w.store.count < c.n && w.store.count <= |w.lines|
    && w.store.synced <= |w.store.file|
    && AfterPowerLoss(w.store) == Stream(existing, w.lines[..|w.lines| - w.store.count])
  }

  lemma PrefixStays(s: Store, t: Store)
    requires s.synced <= |s.file| <= |t.file| && t.file[..|s.file|] == s.file && t.synced == s.synced
    ensures t.file[..t.synced] == s.file[..s.synced]
  {
    assert t.file[..|s.file|][..s.synced] == t.file[..s.synced];
  }

  lemma EveryNLog(c: Setup, existing: bytes, w: World, line: bytes, nowMs: int, laterMs: int)
    requires c.Valid() && c.tier.FsyncEveryN? && |w.store.buffered| <= BUFFER_SIZE
    requires StreamInv(c, existing, w) && EveryNInv(c, existing, w)
    ensures EveryNInv(c, existing, World(LogLine(c, w.store, line, nowMs, laterMs), w.lines + [line]))
    ensures LogLine(c, w.store, line, nowMs, laterMs).count ==
            if w.store.count + 1 >= c.n then 0 else w.store.count + 1
  {
    hide BufWrite, Stream;
    BufWriteKeeps(w.store, line);
    StreamAppend(existing, w.lines, line);
    var t := BufWrite(w.store, line);
    var lines := w.lines + [line];
    if w.store.count + 1 >= c.n {
      assert lines[..|lines|] == lines;
      assert (t.file + t.buffered)[..|t.file + t.buffered|] == t.file + t.buffered;
    } else {
      PrefixStays(w.store, t);
      assert lines[..|lines| - (w.store.count + 1)] == w.lines[..|w.lines| - w.store.count];
    }
  }

  lemma {:induction false} EveryNRun(c: Setup, existing: bytes, ops: seq<Op>)
    requires c.Valid() && c.tier.FsyncEveryN?
    ensures EveryNInv(c, existing, Run(c, existing, ops))
  {
    if ops == [] {
      assert Stream(existing, []) == existing;
    } else {
      var before := ops[..|ops| - 1];
      EveryNRun(c, existing, before);
      StreamRun(c, existing, before);
      var w := Run(c, existing, before);
      match ops[|ops| - 1] {
        case Log(line, nowMs, laterMs) => EveryNLog(c, existing, w, line, nowMs, laterMs);
        case FlushCall =>
          assert w.lines[..|w.lines|] == w.lines;
          var t := Flush(c, w.store);
          assert t.file[..|t.file|] == t.file;
      }
    }
  }

  /** FsyncEveryN never has more than N-1 unsynced entries between calls: power
      loss leaves at least the first k lines, all but at most N-1. */
  lemma EveryNBound(c: Setup, existing: bytes, ops: seq<Op>) returns (k: nat)
    requires c.Valid() && c.tier.FsyncEveryN?
    ensures var w := Run(c, existing, ops);
            && k <= |w.lines| && |w.lines| - k <= c.n - 1 && w.store.synced <= |w.store.file|
            && AfterPowerLoss(w.store) == Stream(existing, w.lines[..k])
  {
    EveryNRun(c, existing, ops);
    k := |Run(c, existing, ops).lines| - Run(c, existing, ops).store.count;
  }

  predicate OnlyLogs(ops: seq<Op>) {
    forall k :: 0 <= k < |ops| ==> ops[k].Log?
  }

  lemma {:induction false} EveryNCount(c: Setup, existing: bytes, ops: seq<Op>)
    requires c.Valid() && c.tier.FsyncEveryN? && OnlyLogs(ops)
    ensures var w := Run(c, existing, ops);
            |w.lines| == |ops| && w.store.count == |ops| % c.n
  {
    if ops != [] {
      var before := ops[..|ops| - 1];
      EveryNCount(c, existing, before);
      EveryNRun(c, existing, before);
      StreamRun(c, existing, before);
      var w := Run(c, existing, before);
      assert ops[|ops| - 1].Log?;
      var op := ops[|ops| - 1];
      EveryNLog(c, existing, w, op.line, op.nowMs, op.laterMs);
      NextRemainder(|before|, c.n);
    }
  }

  lemma NextRemainder(k: nat, n: nat)
    requires n >= 1
    ensures (k + 1) % n == if k % n + 1 >= n then 0 else k % n + 1
  {
    var q, r := k / n, k % n;
    assert k == q * n + r;
    if r + 1 >= n {
      assert k + 1 == (q + 1) * n + 0;
      QuotientRemainder(k + 1, n, q + 1, 0);
    } else {
      QuotientRemainder(k + 1, n, q, r + 1);
    }
  }

  /** After n calls without Flush exactly the first N*floor(n/N) are fsynced. */
  lemma EveryNExact(c: Setup, existing: bytes, ops: seq<Op>)
    requires c.Valid() && c.tier.FsyncEveryN? && OnlyLogs(ops)
    ensures var w := Run(c, existing, ops);
            && 0 <= c.n * (|ops| / c.n) <= |w.lines| == |ops|
            && w.store.synced <= |w.store.file|
            && AfterPowerLoss(w.store) == Stream(existing, w.lines[..c.n * (|ops| / c.n)])
  {
    EveryNCount(c, existing, ops);
    EveryNRun(c, existing, ops);
    WholeRounds(|ops|, c.n);
    hide Run;
  }

  lemma WholeRounds(k: nat, n: nat)
    requires n >= 1
    ensures k - k % n == n * (k / n) && 0 <= n * (k / n) <= k
  {
    assert k == n * (k / n) + k % n;
  }

  /** The lines logged after the last fsync. */
  function Unsynced(w: World): bytes
    requires w.store.count <= |w.lines|
  {
    Concat(w.lines[|w.lines| - w.store.count..])
  }

  lemma {:induction false} BufWriteSpills(s: Store, p: bytes)
    requires |s.buffered| <= BUFFER_SIZE
    ensures |s.buffered| + |p| <= BUFFER_SIZE <==> BufWrite(s, p).file == s.file
  {
    if |s.buffered| + |p| > BUFFER_SIZE && s.buffered != [] {
      var available := BUFFER_SIZE - |s.buffered|;
      var u := s.(file := s.file + (s.buffered + p[..available]), buffered := []);
      BufWriteKeeps(u, p[available..]);
      assert |BufWrite(s, p).file| > |s.file|;
    }
  }

  /** As long as the unsynced lines fit the buffer nothing of them has left it. */
  ghost predicate MemoryInv(w: World) {
    w.store.count <= |w.lines| && (|Unsynced(w)| <= BUFFER_SIZE ==> w.store.synced == |w.store.file|)
  }

  lemma UnsyncedSplit(c: Setup, existing: bytes, w: World)
    requires StreamInv(c, existing, w) && EveryNInv(c, existing, w)
    ensures w.store.file + w.store.buffered == w.store.file[..w.store.synced] + Unsynced(w)
  {
    hide Concat;
    var k := |w.lines| - w.store.count;
    ConcatSplit(w.lines, k);
    Assoc(existing, Concat(w.lines[..k]), Concat(w.lines[k..]));
  }

  lemma MemoryLog(c: Setup, existing: bytes, w: World, line: bytes, nowMs: int, laterMs: int)
    requires c.Valid() && c.tier.FsyncEveryN? && |w.store.buffered| <= BUFFER_SIZE
    requires StreamInv(c, existing, w) && EveryNInv(c, existing, w) && MemoryInv(w)
    ensures MemoryInv(World(LogLine(c, w.store, line, nowMs, laterMs), w.lines + [line]))
  {
    hide BufWrite, Concat, EveryNInv, StreamInv;
    var next := World(LogLine(c, w.store, line, nowMs, laterMs), w.lines + [line]);
    EveryNLog(c, existing, w, line, nowMs, laterMs);
    if next.store.count != 0 {
      UnsyncedSplit(c, existing, w);
      assert w.store.synced <= |w.store.file| by { SyncedInFile(c, existing, w); }
      assert next.lines[|next.lines| - next.store.count..] == w.lines[|w.lines| - w.store.count..] + [line];
      ConcatAppend(w.lines[|w.lines| - w.store.count..], line);
      BufWriteSpills(w.store, line);
      BufWriteKeeps(w.store, line);
    }
  }

  lemma SyncedInFile(c: Setup, existing: bytes, w: World)
    requires StreamInv(c, existing, w)
    ensures w.store.synced <= |w.store.file|
  {
  }

  lemma {:induction false} MemoryRun(c: Setup, existing: bytes, ops: seq<Op>)
    requires c.Valid() && c.tier.FsyncEveryN? && !c.stderr
    ensures MemoryInv(Run(c, existing, ops))
  {
    if ops != [] {
      hide EveryNInv, StreamInv, Concat;
      var before := ops[..|ops| - 1];
      MemoryRun(c, existing, before);
      EveryNRun(c, existing, before);
      StreamRun(c, existing, before);
      match ops[|ops| - 1] {
        case Log(line, nowMs, laterMs) => MemoryLog(c, existing, Run(c, existing, before), line, nowMs, laterMs);
        case FlushCall =>
      }
    }
  }

  /** FsyncEveryN, after any calls: the entries written after the last fsync are
      in process memory, all of them and nothing else, if and only if together
      they fit the buffer. Otherwise some of their bytes are in the page cache
      and survive a process crash. */
  lemma UnsyncedExact(c: Setup, existing: bytes, ops: seq<Op>)
    requires c.Valid() && c.tier.FsyncEveryN? && !c.stderr
    ensures var w := Run(c, existing, ops);
            && w.store.count <= |w.lines| && w.store.synced <= |w.store.file|
            && (w.store.buffered == Unsynced(w) <==> |Unsynced(w)| <= BUFFER_SIZE)
            && (w.store.synced == |w.store.file| <==> |Unsynced(w)| <= BUFFER_SIZE)
  {
    var w := Run(c, existing, ops);
    StreamRun(c, existing, ops);
    EveryNRun(c, existing, ops);
    MemoryRun(c, existing, ops);
    hide Run, Concat;
    UnsyncedSplit(c, existing, w);
    var file, buffered := w.store.file, w.store.buffered;
    assert |file + buffered| == w.store.synced + |Unsynced(w)|;
    if w.store.synced == |file| {
      assert file[..w.store.synced] == file;
      assert (file + buffered)[|file|..] == buffered && (file + Unsynced(w))[|file|..] == Unsynced(w);
    }
  }

  /** Two lines are enough, each of which fits the buffer: the first 65536 of
      their bytes are then in the page cache before any fsync. */
  lemma UnsyncedInPageCache(a: bytes, b: bytes)
    requires |a| <= BUFFER_SIZE < |a| + |b| && |b| <= BUFFER_SIZE && a != []
    ensures var s := Run(Setup(FsyncEveryN, 3, false, 0), [], [Log(a, 0, 0), Log(b, 0, 0)]).store;
            AfterProcessCrash(s) == (a + b)[..BUFFER_SIZE] && s.synced == 0 && s.buffered == (a + b)[BUFFER_SIZE..]
  {
    var c := Setup(FsyncEveryN, 3, false, 0);
    var ops := [Log(a, 0, 0), Log(b, 0, 0)];
    var one := Store([], 0, a, 1, 0);
    assert ops[..1] == [Log(a, 0, 0)] && ops[..1][..0] == [];
    assert Run(c, [], ops[..1]).store == one by {
      assert [] + a == a;
      assert Run(c, [], []).store == Store([], 0, [], 0, 0);
    }
    assert Run(c, [], ops).store == BufWrite(one, b).(count := 2);
    var available := BUFFER_SIZE - |a|;
    var spilled := one.(file := [] + (a + b[..available]), buffered := []);
    assert BufWrite(one, b) == BufWrite(spilled, b[available..]);
    assert BufWrite(spilled, b[available..]) == spilled.(buffered := [] + b[available..]);
    assert [] + (a + b[..available]) == (a + b)[..BUFFER_SIZE];
    assert [] + b[available..] == (a + b)[BUFFER_SIZE..];
  }

  /** OSBuffered: a call that sees 10ms since the last flush, or a nearly full
      buffer, leaves the buffer empty; otherwise the line waits in the buffer
      with at least as much room left as it took. */
  lemma OSBufferedFlushes(c: Setup, s: Store, line: bytes, nowMs: int, laterMs: int)
    requires c.tier.OSBuffered? && |s.buffered| <= BUFFER_SIZE
    ensures var t := LogLine(c, s, line, nowMs, laterMs);
            && (nowMs - s.lastFlushMs >= 10 ==> t.buffered == [])
            && (t.buffered == [] || |t.buffered| + |line| <= BUFFER_SIZE)
  {
    hide BufWrite;
    BufWriteKeeps(s, line);
  }

  // -- When OSBuffered writes out -----------------------------------------------------------

  /** How many bytes a 65536-byte buffer holds after taking n more: what is
      over starts a new buffer, unless it is too much for one and goes straight
      to the file. */
  function Held(held: nat, n: nat): nat {
    if held + n <= 65536 then held + n
    else if held == 0 || held + n > 131072 then 0
    else held + n - 65536
  }

  lemma {:induction false} BufWriteHeld(s: Store, p: bytes)
    requires |s.buffered| <= BUFFER_SIZE
    ensures |BufWrite(s, p).buffered| == Held(|s.buffered|, |p|)
    ensures |s.buffered| + |p| <= 65536 ==> BufWrite(s, p) == s.(buffered := s.buffered + p)
    decreases |s.buffered|
  {
    var available := BUFFER_SIZE - |s.buffered|;
    if |p| > available && s.buffered != [] {
      BufWriteHeld(s.(file := s.file + (s.buffered + p[..available]), buffered := []), p[available..]);
    }
  }

  /** After these calls the log call op must write the buffer out: it leaves
      less room than its line takes, or it comes 10 ms after the last such call
      returned (or the logger was created). */
  ghost predicate Due(c: Setup, existing: bytes, before: seq<Op>, op: Op)
    decreases |before|, 1
  {
    && op.Log?
    && (|| 65536 - Held(|Run(c, existing, before).store.buffered|, |op.line|) < |op.line|
        || op.nowMs - LastDue(c, existing, before) >= 10)
  }

  /** The second clock reading of the last call that had to write out. */
  ghost function LastDue(c: Setup, existing: bytes, ops: seq<Op>): int
    decreases |ops|, 0
  {
    if ops == [] then c.startMs
    else
      var before, op := ops[..|ops| - 1], ops[|ops| - 1];
      if Due(c, existing, before, op) then op.laterMs else LastDue(c, existing, before)
  }

  lemma {:induction false} LastDueIs(c: Setup, existing: bytes, ops: seq<Op>)
    requires c.tier.OSBuffered?
    ensures Run(c, existing, ops).store.lastFlushMs == LastDue(c, existing, ops)
  {
    if ops != [] {
      hide BufWrite, Held;
      var before, op := ops[..|ops| - 1], ops[|ops| - 1];
      LastDueIs(c, existing, before);
      if op.Log? {
        BufWriteHeld(Run(c, existing, before).store, op.line);
        BufWriteKeeps(Run(c, existing, before).store, op.line);
      }
    }
  }

  lemma FileGrows(c: Setup, s: Store, op: Op)
    requires |s.buffered| <= BUFFER_SIZE
    ensures var t := if op.Log? then LogLine(c, s, op.line, op.nowMs, op.laterMs) else Flush(c, s);
            s.file <= t.file
  {
    hide BufWrite;
    if op.Log? {
      BufWriteKeeps(s, op.line);
    }
  }

  lemma {:induction false} FileStays(c: Setup, existing: bytes, ops: seq<Op>, j: nat)
    requires j <= |ops|
    ensures Run(c, existing, ops[..j]).store.file <= Run(c, existing, ops).store.file
  {
    if j == |ops| {
      assert ops[..j] == ops;
    } else {
      hide LogLine, Flush;
      var before := ops[..|ops| - 1];
      FileStays(c, existing, before, j);
      assert before[..j] == ops[..j];
      FileGrows(c, Run(c, existing, before).store, ops[|ops| - 1]);
    }
  }

  /** OSBuffered, for every log call of every run: if the buffer gets too full
      for another such line, or 10 ms have passed since the last call that wrote
      out, everything logged so far is in the file, now and later. Otherwise the
      call does not write out, and a line that fits waits in the buffer behind
      what was there. */
  lemma OSBufferedExact(c: Setup, existing: bytes, ops: seq<Op>, j: nat)
    requires c.tier.OSBuffered? && j < |ops| && ops[j].Log?
    ensures var s, t, line := Run(c, existing, ops[..j]).store, Run(c, existing, ops[..j + 1]), ops[j].line;
            if Due(c, existing, ops[..j], ops[j])
            then t.store.buffered == [] && Stream(existing, t.lines) <= Run(c, existing, ops).store.file
            else |t.store.buffered| == Held(|s.buffered|, |line|)
                 && (|s.buffered| + |line| <= 65536 ==> t.store.file == s.file && t.store.buffered == s.buffered + line)
  {
    hide BufWrite, Held, Stream;
    var before, op, upto := ops[..j], ops[j], ops[..j + 1];
    assert upto[..j] == before && upto[j] == op;
    var s := Run(c, existing, before).store;
    LastDueIs(c, existing, before);
    BufWriteHeld(s, op.line);
    BufWriteKeeps(s, op.line);
    StreamRun(c, existing, upto);
    FileStays(c, existing, ops, j + 1);
    assert Run(c, existing, upto).store == LogLine(c, s, op.line, op.nowMs, op.laterMs);
    hide Run, Due, LastDue;
    var t := Run(c, existing, upto).store;
    assert t.file + [] == t.file;
  }

  /** The tiers that do not promise to survive power loss never fsync. */
  lemma {:induction false} NeverSynced(c: Setup, existing: bytes, ops: seq<Op>)
    requires c.tier.OSBuffered? || c.tier.Direct?
    ensures Run(c, existing, ops).store.synced == |existing|
  {
    if ops != [] {
      hide BufWrite;
      var before, op := ops[..|ops| - 1], ops[|ops| - 1];
      NeverSynced(c, existing, before);
      if op.Log? {
        BufWriteKeeps(Run(c, existing, before).store, op.line);
      }
    }
  }

  // -- Concurrent FsyncEveryWrite ---------------------------------------------------------------

  /** Without a mutex, the write and the fsync of different calls interleave. */
  datatype Event = WriteEvent(line: bytes) | SyncEvent

  function Interleave(existing: bytes, events: seq<Event>): (bytes, nat) {
    if events == [] then (existing, |existing|)
    else
      var (file, synced) := Interleave(existing, events[..|events| - 1]);
      match events[|events| - 1]
      case WriteEvent(line) => (file + line, synced)
      case SyncEvent => (file, |file|)
  }

  lemma {:induction false} InterleaveGrows(existing: bytes, events: seq<Event>, k: nat)
    requires k <= |events|
    ensures var (file, synced) := Interleave(existing, events);
            var (file', synced') := Interleave(existing, events[..k]);
            file' <= file && synced' <= synced <= |file| && synced' <= |file'|
  {
    if k == |events| {
      assert events[..k] == events;
      if k > 0 {
        InterleaveGrows(existing, events[..k - 1], k - 1);
      }
    } else {
      InterleaveGrows(existing, events[..|events| - 1], k);
      assert events[..|events| - 1][..k] == events[..k];
    }
  }

  /** In every interleaving, once a call has written its line (event i) and then
      fsynced (event j), its line is in the synced part of the file. */
  lemma SyncedOnReturn(existing: bytes, events: seq<Event>, i: nat, j: nat)
    requires i < j < |events| && events[i].WriteEvent? && events[j].SyncEvent?
    ensures var (file, synced) := Interleave(existing, events);
            var (before, _) := Interleave(existing, events[..i]);
            && |before| + |events[i].line| <= synced <= |file|
            && file[|before|..|before| + |events[i].line|] == events[i].line
  {
    InterleaveGrows(existing, events, j + 1);
    InterleaveGrows(existing, events, i + 1);
    InterleaveGrows(existing, events[..j], i + 1);
    assert events[..j][..i + 1] == events[..i + 1];
    assert events[..j + 1][..j] == events[..j] && events[..i + 1][..i] == events[..i];
  }
}
