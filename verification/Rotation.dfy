/** Size-based rotation of rotate.go: the rename chain on a file system where
    any rename may fail. */
module Rotation {
  import opened Basics

  /** The log file, OutputFile.rotating, and OutputFile.1, .2, ... */
  datatype Name = Live | Rotating | Backup(i: nat)

  /** One generation of the log: numbered in order of creation. */
  datatype Gen = Gen(id: nat, text: bytes)

  type FileSystem = map<Name, Gen>

  /** The name a generation moves to next. */
  function Next(name: Name): Name {
    match name
    case Live => Rotating
    case Rotating => Backup(1)
    case Backup(i) => Backup(i + 1)
  }

  /** Newest first: live, .rotating, .1, .2, ... */
  function Place(name: Name): nat {
    match name
    case Live => 0
    case Rotating => 1
    case Backup(i) => i + 1
  }

  /** MaxBackupFiles = N keeps .1 ... .N; 0 (or less) keeps .1. */
  function Keep(maxBackups: int): nat {
    if maxBackups < 1 then 1 else maxBackups
  }

  /** os.Rename: replaces the destination; a missing source or a failing rename
      changes nothing. */
  function Rename(fs: FileSystem, src: Name, failing: set<Name>): FileSystem {
    if src in failing || src !in fs then fs else fs[Next(src) := fs[src]] - {src}
  }

  /** Backups i, i-1, ..., 1 move up by one, in that order. */
  function Shift(fs: FileSystem, i: int, failing: set<Name>): FileSystem
    decreases i
  {
    if i <= 0 then fs else Shift(Rename(fs, Backup(i), failing), i - 1, failing)
  }

  /** Every rename of one rotation, before the new log file is created. */
  function MoveAll(fs: FileSystem, maxBackups: int, failing: set<Name>): FileSystem {
    Rename(Shift(Rename(fs, Live, failing), maxBackups - 1, failing), Rotating, failing)
  }

  /** One rotation. If the live log cannot be moved nothing is touched. */
  function RotateFs(fs: FileSystem, maxBackups: int, failing: set<Name>, id: nat): FileSystem {
    if Live in failing then fs else MoveAll(fs, maxBackups, failing)[Live := Gen(id, [])]
  }

  // -- The invariant ------------------------------------------------------------------

  /** Generations are ordered newest first and only known names are used. */
  ghost predicate Ordered(fs: FileSystem, maxBackups: int, nextId: nat) {
    && (forall a, b :: a in fs && b in fs && Place(a) < Place(b) ==> fs[a].id > fs[b].id)
    && (forall a :: a in fs ==> fs[a].id < nextId)
    && (forall i: nat :: Backup(i) in fs ==> 1 <= i <= Keep(maxBackups))
  }

  lemma RenameKeepsOrder(fs: FileSystem, maxBackups: int, nextId: nat, src: Name, failing: set<Name>)
    requires Ordered(fs, maxBackups, nextId)
    requires src.Backup? ==> 1 <= src.i < Keep(maxBackups)
    ensures Ordered(Rename(fs, src, failing), maxBackups, nextId)
  {
    hide Place, Origin, Rename;
    var t := Rename(fs, src, failing);
    if t != fs {
      RenameBounds(fs, maxBackups, nextId, src, failing);
      forall a, b | a in t && b in t && Place(a) < Place(b)
        ensures t[a].id > t[b].id
      {
        RenameOrigin(fs, src, failing, a);
        RenameOrigin(fs, src, failing, b);
        OriginOrder(src, a, b);
      }
    }
  }

  lemma RenameBounds(fs: FileSystem, maxBackups: int, nextId: nat, src: Name, failing: set<Name>)
    requires Ordered(fs, maxBackups, nextId)
    requires src.Backup? ==> 1 <= src.i < Keep(maxBackups)
    ensures var t := Rename(fs, src, failing);
            && (forall a :: a in t ==> t[a].id < nextId)
            && (forall i: nat :: Backup(i) in t ==> 1 <= i <= Keep(maxBackups))
  {
  }

  lemma RenameOrigin(fs: FileSystem, src: Name, failing: set<Name>, a: Name)
    requires a in Rename(fs, src, failing) && Rename(fs, src, failing) != fs
    ensures a != src && Origin(src, a) in fs && Rename(fs, src, failing)[a] == fs[Origin(src, a)]
  {
  }

  /** Where a name's generation was before src was renamed. */
  function Origin(src: Name, a: Name): Name {
    if a == Next(src) then src else a
  }

  lemma OriginOrder(src: Name, a: Name, b: Name)
    requires forall x :: x in {src, a, b} && x.Backup? ==> x.i >= 1
    requires a != src && b != src && Place(a) < Place(b)
    ensures Place(Origin(src, a)) < Place(Origin(src, b))
  {
  }

  lemma {:induction false} ShiftKeepsOrder(fs: FileSystem, maxBackups: int, nextId: nat, i: int, failing: set<Name>)
    requires Ordered(fs, maxBackups, nextId) && i < Keep(maxBackups)
    ensures Ordered(Shift(fs, i, failing), maxBackups, nextId)
    ensures Live !in fs ==> Live !in Shift(fs, i, failing)
    decreases i
  {
    if i > 0 {
      RenameKeepsOrder(fs, maxBackups, nextId, Backup(i), failing);
      ShiftKeepsOrder(Rename(fs, Backup(i), failing), maxBackups, nextId, i - 1, failing);
    }
  }

  lemma NewLiveKeepsOrder(fs: FileSystem, maxBackups: int, nextId: nat)
    requires Ordered(fs, maxBackups, nextId) && Live !in fs
    ensures Ordered(fs[Live := Gen(nextId, [])], maxBackups, nextId + 1)
  {
  }

  lemma OrderedLater(fs: FileSystem, maxBackups: int, nextId: nat)
    requires Ordered(fs, maxBackups, nextId)
    ensures Ordered(fs, maxBackups, nextId + 1)
  {
  }

  lemma LiveGone(fs: FileSystem, src: Name, failing: set<Name>)
    requires if src == Live then Live !in failing else src == Rotating && Live !in fs
    ensures Live !in Rename(fs, src, failing)
  {
  }

  /** Whatever renames fail, surviving generations stay newest-first, and the
      truncating open never meets an existing file. */
  lemma RotationKeepsOrder(fs: FileSystem, maxBackups: int, nextId: nat, failing: set<Name>)
    requires Ordered(fs, maxBackups, nextId)
    ensures Ordered(RotateFs(fs, maxBackups, failing, nextId), maxBackups, nextId + 1)
    ensures Live !in failing ==> Live !in MoveAll(fs, maxBackups, failing)
  {
    hide Ordered, Shift, Rename;
    if Live in failing {
      OrderedLater(fs, maxBackups, nextId);
    } else {
      var moved := Rename(fs, Live, failing);
      var shifted := Shift(moved, maxBackups - 1, failing);
      RenameKeepsOrder(fs, maxBackups, nextId, Live, failing);
      LiveGone(fs, Live, failing);
      ShiftKeepsOrder(moved, maxBackups, nextId, maxBackups - 1, failing);
      RenameKeepsOrder(shifted, maxBackups, nextId, Rotating, failing);
      LiveGone(shifted, Rotating, failing);
      NewLiveKeepsOrder(MoveAll(fs, maxBackups, failing), maxBackups, nextId);
    }
  }

  // -- What survives --------------------------------------------------------------------

  /** Every generation of t is a generation of fs, unchanged. */
  ghost predicate OnlyOld(fs: FileSystem, t: FileSystem) {
    forall a :: a in t ==> exists b :: b in fs && t[a] == fs[b]
  }

  lemma RenameOnlyOld(fs: FileSystem, src: Name, failing: set<Name>)
    ensures OnlyOld(fs, Rename(fs, src, failing))
  {
    var t := Rename(fs, src, failing);
    forall a | a in t
      ensures exists b :: b in fs && t[a] == fs[b]
    {
      var b := if t != fs && a == Next(src) then src else a;
      assert b in fs && t[a] == fs[b];
    }
  }

  lemma OnlyOldTransitive(a: FileSystem, b: FileSystem, c: FileSystem)
    requires OnlyOld(a, b) && OnlyOld(b, c)
    ensures OnlyOld(a, c)
  {
  }

  lemma {:induction false} ShiftOnlyOld(fs: FileSystem, i: int, failing: set<Name>)
    ensures OnlyOld(fs, Shift(fs, i, failing))
    decreases i
  {
    if i > 0 {
      RenameOnlyOld(fs, Backup(i), failing);
      ShiftOnlyOld(Rename(fs, Backup(i), failing), i - 1, failing);
      OnlyOldTransitive(fs, Rename(fs, Backup(i), failing), Shift(fs, i, failing));
    }
  }

  /** Renames never alter the bytes of a generation. */
  lemma RotationOnlyOld(fs: FileSystem, maxBackups: int, failing: set<Name>)
    ensures OnlyOld(fs, MoveAll(fs, maxBackups, failing))
  {
    var one := Rename(fs, Live, failing);
    var two := Shift(one, maxBackups - 1, failing);
    RenameOnlyOld(fs, Live, failing);
    ShiftOnlyOld(one, maxBackups - 1, failing);
    RenameOnlyOld(two, Rotating, failing);
    OnlyOldTransitive(fs, one, two);
    OnlyOldTransitive(fs, two, MoveAll(fs, maxBackups, failing));
  }

  // -- How many generations are lost -------------------------------------------------------

  function Fails(fs: FileSystem, src: Name, failing: set<Name>): nat {
    if src in fs && src in failing then 1 else 0
  }

  function ShiftFails(fs: FileSystem, i: int, failing: set<Name>): nat
    decreases i
  {
    if i <= 0 then 0
    else Fails(fs, Backup(i), failing) + ShiftFails(Rename(fs, Backup(i), failing), i - 1, failing)
  }

  /** The renames of a rotation that fail (a missing source is not a failure). */
  function RotationFails(fs: FileSystem, maxBackups: int, failing: set<Name>): nat {
    if Live in failing then 1
    else
      var one := Rename(fs, Live, failing);
      ShiftFails(one, maxBackups - 1, failing)
      + Fails(Shift(one, maxBackups - 1, failing), Rotating, failing)
  }

  function Has(fs: FileSystem, name: Name): nat {
    if name in fs then 1 else 0
  }

  lemma RenameCount(fs: FileSystem, src: Name, failing: set<Name>)
    ensures |Rename(fs, src, failing)| == |fs| || |Rename(fs, src, failing)| == |fs| - 1
    ensures |Rename(fs, src, failing)| == |fs| - 1 ==> src in fs && src !in failing && Next(src) in fs
  {
    if src in fs && src !in failing {
      var t := fs[Next(src) := fs[src]];
      assert t.Keys == fs.Keys + {Next(src)};
      assert |t| == |t.Keys| && |fs| == |fs.Keys|;
      assert (t - {src}).Keys == t.Keys - {src};
      assert |t - {src}| == |(t - {src}).Keys|;
    }
  }

  /** Moving one backup up costs a generation only if the slot above is taken,
      and frees its own slot unless the rename fails. */
  lemma ShiftOne(fs: FileSystem, i: int, failing: set<Name>)
    requires i > 0
    ensures var t := Rename(fs, Backup(i), failing);
            && |fs| - |t| + Has(t, Backup(i)) <= Fails(fs, Backup(i), failing) + Has(fs, Backup(i + 1))
            && Has(t, Rotating) == Has(fs, Rotating)
  {
    RenameCount(fs, Backup(i), failing);
  }

  /** Shifting i, ..., 1 loses at most one generation if the slot above the chain
      is taken, plus one for each rename that fails. */
  lemma {:induction false} ShiftCount(fs: FileSystem, i: int, failing: set<Name>)
    requires i >= 0
    ensures var t := Shift(fs, i, failing);
            |fs| - |t| + Has(t, Backup(1)) <= ShiftFails(fs, i, failing) + Has(fs, Backup(i + 1))
    ensures Has(Shift(fs, i, failing), Rotating) == Has(fs, Rotating)
    decreases i
  {
    if i > 0 {
      hide Rename, Fails;
      ShiftOne(fs, i, failing);
      ShiftCount(Rename(fs, Backup(i), failing), i - 1, failing);
    }
  }

  /** One rotation loses at most one generation, plus one for each failed
      rename, plus one if an earlier rotation left OutputFile.rotating behind. */
  lemma RotationCount(fs: FileSystem, maxBackups: int, failing: set<Name>, id: nat)
    requires Live in fs
    ensures var t := RotateFs(fs, maxBackups, failing, id);
            var created := if Live in failing then 0 else 1;
            |fs| + created - |t| + Has(t, Rotating)
            <= Has(fs, Rotating) + created + RotationFails(fs, maxBackups, failing)
  {
    if Live !in failing {
      var one := Rename(fs, Live, failing);
      var i := if maxBackups - 1 < 0 then 0 else maxBackups - 1;
      var two := Shift(one, i, failing);
      assert two == Shift(one, maxBackups - 1, failing);
      assert ShiftFails(one, i, failing) == ShiftFails(one, maxBackups - 1, failing);
      var three := Rename(two, Rotating, failing);
      LiveMoves(fs, failing);
      ShiftCount(one, i, failing);
      RenameCount(two, Rotating, failing);
      ShiftNoLive(one, i, failing);
      assert three[Live := Gen(id, [])].Keys == three.Keys + {Live};
      assert |three[Live := Gen(id, [])]| == |three| + 1;
    }
  }

  lemma LiveMoves(fs: FileSystem, failing: set<Name>)
    requires Live in fs && Live !in failing
    ensures var one := Rename(fs, Live, failing);
            && |one| == |fs| - Has(fs, Rotating) && Rotating in one && Live !in one
            && (forall i :: Backup(i) in one <==> Backup(i) in fs)
  {
    RenameCount(fs, Live, failing);
    var t := fs[Rotating := fs[Live]];
    assert t.Keys == fs.Keys + {Rotating};
    assert |t| == |t.Keys| && |fs| == |fs.Keys|;
    assert (t - {Live}).Keys == t.Keys - {Live};
    assert |t - {Live}| == |(t - {Live}).Keys|;
  }

  lemma {:induction false} ShiftNoLive(fs: FileSystem, i: int, failing: set<Name>)
    ensures Live in Shift(fs, i, failing) <==> Live in fs
    decreases i
  {
    if i > 0 {
      ShiftNoLive(Rename(fs, Backup(i), failing), i - 1, failing);
    }
  }

  // -- Runs with failures -----------------------------------------------------------------

  datatype Event =
    | Append(text: bytes)
    | Rotate(failing: set<Name>)

  datatype Disk = Disk(fs: FileSystem, nextId: nat, rotations: nat, failed: nat)

  function AppendLive(fs: FileSystem, text: bytes): FileSystem
    requires Live in fs
  {
    fs[Live := Gen(fs[Live].id, fs[Live].text + text)]
  }

  function Apply(d: Disk, maxBackups: int, e: Event): Disk
    requires Live in d.fs
    ensures Live in Apply(d, maxBackups, e).fs
  {
    match e
    case Append(text) => d.(fs := AppendLive(d.fs, text))
    case Rotate(failing) =>
      Disk(RotateFs(d.fs, maxBackups, failing, d.nextId), d.nextId + 1,
           d.rotations + (if Live in failing then 0 else 1), d.failed + RotationFails(d.fs, maxBackups, failing))
  }

  function Run(d: Disk, maxBackups: int, events: seq<Event>): (t: Disk)
    requires Live in d.fs
    ensures Live in t.fs
  {
    if events == [] then d else Apply(Run(d, maxBackups, events[..|events| - 1]), maxBackups, events[|events| - 1])
  }

  /** Over any run with any failing renames: generations stay newest-first, and
      those lost (present or created, and no longer there) are at most the
      completed rotations plus the failed renames, plus one if a stale
      OutputFile.rotating was there to begin with. */
  lemma {:induction false} RunKeeps(d: Disk, maxBackups: int, events: seq<Event>)
    requires Live in d.fs && Ordered(d.fs, maxBackups, d.nextId)
    ensures var t := Run(d, maxBackups, events);
            && Ordered(t.fs, maxBackups, t.nextId)
            && t.rotations >= d.rotations && t.failed >= d.failed
            && (|d.fs| + (t.rotations - d.rotations)) - |t.fs| + Has(t.fs, Rotating)
               <= Has(d.fs, Rotating) + (t.rotations - d.rotations) + (t.failed - d.failed)
  {
    if events != [] {
      var before := events[..|events| - 1];
      RunKeeps(d, maxBackups, before);
      var s := Run(d, maxBackups, before);
      match events[|events| - 1] {
        case Append(text) =>
          assert AppendLive(s.fs, text).Keys == s.fs.Keys;
          assert |AppendLive(s.fs, text)| == |s.fs|;
        case Rotate(failing) =>
          RotationKeepsOrder(s.fs, maxBackups, s.nextId, failing);
          RotationCount(s.fs, maxBackups, failing, s.nextId);
      }
    }
  }

  // -- Failure-free rotation -----------------------------------------------------------------

  /** The files hold exactly the last generations of `gens` (oldest first): the
      last one is live, and .j holds the j-th before it. */
  ghost predicate Holds(fs: FileSystem, maxBackups: int, gens: seq<bytes>) {
    && gens != []
    && Live in fs && fs[Live].text == gens[|gens| - 1]
    && Rotating !in fs
    && (forall j: nat :: Backup(j) in fs <==> 1 <= j <= Keep(maxBackups) && j < |gens|)
    && (forall j: nat :: Backup(j) in fs ==> fs[Backup(j)].text == gens[|gens| - 1 - j])
  }

  function At(fs: FileSystem, name: Name): Option<Gen> {
    if name in fs then Some(fs[name]) else None
  }

  /** What is at a name after i backups have moved up. */
  function ShiftedAt(fs: FileSystem, i: int, failing: set<Name>, name: Name): Option<Gen> {
    match name
    case Backup(j) =>
      if i <= 0 || j == 0 || j > i + 1 then At(fs, name)
      else if j >= 2 && Backup(j - 1) in fs && Backup(j - 1) !in failing then At(fs, Backup(j - 1))
      else if j <= i && Backup(j) !in failing then None
      else At(fs, name)
    case _ => At(fs, name)
  }

  lemma {:induction false} ShiftExact(fs: FileSystem, i: int, failing: set<Name>, name: Name)
    ensures At(Shift(fs, i, failing), name) == ShiftedAt(fs, i, failing, name)
    decreases i
  {
    if i > 0 {
      ShiftExact(Rename(fs, Backup(i), failing), i - 1, failing, name);
    }
  }

  /** Every file after a rotation, whatever renames fail: a generation moves to
      the next name, or stays where it is if its rename fails and nothing
      replaces it. */
  lemma RotationAt(fs: FileSystem, maxBackups: int, failing: set<Name>, id: nat, j: nat)
    requires Live in fs && j >= 1
    ensures var t := RotateFs(fs, maxBackups, failing, id);
            var keep := if maxBackups < 1 then 1 else maxBackups;
            if Live in failing then t == fs
            else
              && t[Live] == Gen(id, [])
              && At(t, Rotating) == (if Rotating in failing then Some(fs[Live]) else None)
              && At(t, Backup(j)) ==
                 (if j == 1 && Rotating !in failing then Some(fs[Live])
                  else if 2 <= j <= keep && Backup(j - 1) in fs && Backup(j - 1) !in failing
                  then Some(fs[Backup(j - 1)])
                  else if j < keep && Backup(j) !in failing then None
                  else if Backup(j) in fs then Some(fs[Backup(j)])
                  else None)
  {
    if Live !in failing {
      hide Shift;
      var one := Rename(fs, Live, failing);
      ShiftExact(one, maxBackups - 1, failing, Live);
      ShiftExact(one, maxBackups - 1, failing, Rotating);
      ShiftExact(one, maxBackups - 1, failing, Backup(j));
      assert Backup(j) in one <==> Backup(j) in fs;
    }
  }

  /** How many of the backups 1 .. n are there and cannot be renamed. */
  function StuckBackups(fs: FileSystem, failing: set<Name>, n: int): nat
    decreases n
  {
    if n <= 0 then 0
    else (if Backup(n) in fs && Backup(n) in failing then 1 else 0) + StuckBackups(fs, failing, n - 1)
  }

  lemma {:induction false} StuckBelow(fs: FileSystem, t: FileSystem, failing: set<Name>, n: int)
    requires forall j: nat :: j <= n ==> (Backup(j) in t <==> Backup(j) in fs)
    ensures StuckBackups(t, failing, n) == StuckBackups(fs, failing, n)
    decreases n
  {
    if n > 0 {
      StuckBelow(fs, t, failing, n - 1);
    }
  }

  lemma {:induction false} ShiftFailsExact(fs: FileSystem, i: int, failing: set<Name>)
    ensures ShiftFails(fs, i, failing) == StuckBackups(fs, failing, i)
    decreases i
  {
    if i > 0 {
      ShiftFailsExact(Rename(fs, Backup(i), failing), i - 1, failing);
      StuckBelow(fs, Rename(fs, Backup(i), failing), failing, i - 1);
    }
  }

  /** Each file whose rename fails is counted once; the rotation ends with the
      first failure if that is the live log's. */
  lemma RotationFailsExact(fs: FileSystem, maxBackups: int, failing: set<Name>)
    requires Live in fs
    ensures RotationFails(fs, maxBackups, failing) ==
            if Live in failing then 1
            else StuckBackups(fs, failing, maxBackups - 1) + (if Rotating in failing then 1 else 0)
  {
    if Live !in failing {
      var one := Rename(fs, Live, failing);
      ShiftFailsExact(one, maxBackups - 1, failing);
      StuckBelow(fs, one, failing, maxBackups - 1);
      ShiftExact(one, maxBackups - 1, failing, Rotating);
    }
  }

  /** Without failures, rotating pushes the live generation onto the backups and
      drops the oldest one beyond MaxBackupFiles. */
  lemma RotationExact(fs: FileSystem, maxBackups: int, gens: seq<bytes>, id: nat)
    requires Holds(fs, maxBackups, gens)
    ensures Holds(RotateFs(fs, maxBackups, {}, id), maxBackups, gens + [[]])
  {
    hide Shift;
    var one := Rename(fs, Live, {});
    var shifted := Shift(one, maxBackups - 1, {});
    ShiftExact(one, maxBackups - 1, {}, Live);
    ShiftExact(one, maxBackups - 1, {}, Rotating);
    var more := gens + [[]];
    var t := RotateFs(fs, maxBackups, {}, id);
    forall j: nat
      ensures Backup(j) in t <==> 1 <= j <= Keep(maxBackups) && j < |more|
      ensures Backup(j) in t ==> t[Backup(j)].text == more[|more| - 1 - j]
    {
      ShiftExact(one, maxBackups - 1, {}, Backup(j));
      assert At(t, Backup(j)) == if j == 1 then At(one, Rotating) else At(shifted, Backup(j));
      if j >= 2 {
        assert Backup(j - 1) in one <==> Backup(j - 1) in fs;
        assert Backup(j) in one <==> Backup(j) in fs;
      }
    }
  }

  // -- The stream across generations -----------------------------------------------------------

  /** One writeOut: whole lines. `checked`: rotateIfNeeded follows (threshold
      and ticker writes), or not (Flush and the final drain). */
  datatype Output = Output(checked: bool, text: bytes)

  function Texts(outputs: seq<Output>): bytes {
    if outputs == [] then [] else Texts(outputs[..|outputs| - 1]) + outputs[|outputs| - 1].text
  }

  /** The newest generation gets one more output. */
  function Grown(groups: seq<seq<Output>>, o: Output): (grown: seq<seq<Output>>)
    requires groups != []
    ensures |grown| == |groups| && grown[|groups| - 1] == groups[|groups| - 1] + [o]
    ensures forall k :: 0 <= k < |groups| - 1 ==> grown[k] == groups[k]
  {
    groups[|groups| - 1 := groups[|groups| - 1] + [o]]
  }

  /** The generations as groups of whole outputs, oldest first: a new one starts
      after a checked output that brings the size to maxFileSize. */
  function Split(initial: bytes, outputs: seq<Output>, maxFileSize: int): (groups: seq<seq<Output>>)
    ensures groups != []
  {
    if outputs == [] then [[Output(false, initial)]]
    else
      var groups := Split(initial, outputs[..|outputs| - 1], maxFileSize);
      var o := outputs[|outputs| - 1];
      var grown := Grown(groups, o);
      if o.checked && maxFileSize > 0 && |Texts(grown[|groups| - 1])| >= maxFileSize then grown + [[]] else grown
  }

  function Contents(groups: seq<seq<Output>>): (gens: seq<bytes>)
    ensures |gens| == |groups|
    ensures forall k :: 0 <= k < |groups| ==> gens[k] == Texts(groups[k])
  {
    seq(|groups|, k requires 0 <= k < |groups| => Texts(groups[k]))
  }

  /** Splitting into generations keeps every output, in order, in one piece. */
  lemma {:induction false} SplitConserves(initial: bytes, outputs: seq<Output>, maxFileSize: int)
    ensures Concat(Split(initial, outputs, maxFileSize)) == [Output(false, initial)] + outputs
  {
    if outputs == [] {
      assert [[Output(false, initial)]][..0] == [];
    } else {
      var before := outputs[..|outputs| - 1];
      var o := outputs[|outputs| - 1];
      SplitConserves(initial, before, maxFileSize);
      var groups := Split(initial, before, maxFileSize);
      var grown := Grown(groups, o);
      GrownConcat(groups, o);
      assert (grown + [[]])[..|grown|] == grown;
      assert outputs == before + [o];
      Assoc([Output(false, initial)], before, [o]);
    }
  }

  lemma GrownConcat(groups: seq<seq<Output>>, o: Output)
    requires groups != []
    ensures Concat(Grown(groups, o)) == Concat(groups) + [o]
  {
    var last := |groups| - 1;
    assert Grown(groups, o)[..last] == groups[..last];
    Assoc(Concat(groups[..last]), groups[last], [o]);
  }

  /** What the failure-free worker leaves on disk. */
  datatype Store = Store(fs: FileSystem, size: nat, nextId: nat)

  function Emit(d: Store, maxFileSize: int, maxBackups: int, o: Output): (t: Store)
    requires Live in d.fs
    ensures Live in t.fs
  {
    var fs := AppendLive(d.fs, o.text);
    var size := d.size + |o.text|;
    if o.checked && maxFileSize > 0 && size >= maxFileSize
    then Store(RotateFs(fs, maxBackups, {}, d.nextId), 0, d.nextId + 1)
    else Store(fs, size, d.nextId)
  }

  function EmitAll(start: Store, outputs: seq<Output>, maxFileSize: int, maxBackups: int): (t: Store)
    requires Live in start.fs
    ensures Live in t.fs
  {
    if outputs == [] then start
    else Emit(EmitAll(start, outputs[..|outputs| - 1], maxFileSize, maxBackups), maxFileSize, maxBackups,
              outputs[|outputs| - 1])
  }

  /** All generations after the outputs, oldest first: the live file that was
      found goes on growing, those before it stay. */
  function Generations(found: seq<bytes>, outputs: seq<Output>, maxFileSize: int): (gens: seq<bytes>)
    requires found != []
  {
    found[..|found| - 1] + Contents(Split(found[|found| - 1], outputs, maxFileSize))
  }

  lemma HoldsAppend(fs: FileSystem, maxBackups: int, gens: seq<bytes>, text: bytes)
    requires Holds(fs, maxBackups, gens)
    ensures Holds(AppendLive(fs, text), maxBackups, gens[|gens| - 1 := gens[|gens| - 1] + text])
  {
    var more := gens[|gens| - 1 := gens[|gens| - 1] + text];
    forall j: nat | Backup(j) in AppendLive(fs, text)
      ensures AppendLive(fs, text)[Backup(j)].text == more[|more| - 1 - j]
    {
      assert Backup(j) in fs;
    }
  }

  /** Started on a log with its backups and after any writes, without rename
      failures: the live file and the backups hold exactly the last
      1 + min(g - 1, max(1,N)) of all g generations, each new one being a run of
      whole outputs. */
  lemma {:induction false} StreamConserved(start: Store, found: seq<bytes>, outputs: seq<Output>,
                                           maxFileSize: int, maxBackups: int)
    requires Holds(start.fs, maxBackups, found) && start.size == |start.fs[Live].text|
    ensures var d := EmitAll(start, outputs, maxFileSize, maxBackups);
            && Holds(d.fs, maxBackups, Generations(found, outputs, maxFileSize))
            && d.size == |d.fs[Live].text|
  {
    var initial := found[|found| - 1];
    if outputs == [] {
      assert Texts([Output(false, initial)]) == initial by { TextsOfOne(Output(false, initial)); }
      assert Generations(found, outputs, maxFileSize) == found;
    } else {
      var before := outputs[..|outputs| - 1];
      StreamConserved(start, found, before, maxFileSize, maxBackups);
      var d := EmitAll(start, before, maxFileSize, maxBackups);
      EmitConserved(d, found[..|found| - 1], Split(initial, before, maxFileSize), outputs[|outputs| - 1],
                    maxFileSize, maxBackups);
    }
  }

  /** One more output, with and without a rotation. */
  lemma EmitConserved(d: Store, older: seq<bytes>, groups: seq<seq<Output>>, o: Output,
                      maxFileSize: int, maxBackups: int)
    requires groups != [] && Holds(d.fs, maxBackups, older + Contents(groups)) && d.size == |d.fs[Live].text|
    ensures var grown := Grown(groups, o);
            var more := if o.checked && maxFileSize > 0 && |Texts(grown[|groups| - 1])| >= maxFileSize
                        then grown + [[]] else grown;
            var t := Emit(d, maxFileSize, maxBackups, o);
            Holds(t.fs, maxBackups, older + Contents(more)) && t.size == |t.fs[Live].text|
  {
    hide RotateFs, Holds, Texts;
    var last := |groups| - 1;
    var grown := Grown(groups, o);
    var gens := older + Contents(groups);
    assert d.fs[Live].text == gens[|gens| - 1] by { HoldsLive(d.fs, maxBackups, gens); }
    TextsAppend(groups[last], o);
    HoldsAppend(d.fs, maxBackups, gens, o.text);
    assert gens[|gens| - 1 := gens[|gens| - 1] + o.text] == older + Contents(grown);
    if o.checked && maxFileSize > 0 && d.size + |o.text| >= maxFileSize {
      RotationExact(AppendLive(d.fs, o.text), maxBackups, older + Contents(grown), d.nextId);
      assert Texts([]) == [] by { TextsNothing(); }
      assert older + Contents(grown + [[]]) == older + Contents(grown) + [[]];
      HoldsLive(RotateFs(AppendLive(d.fs, o.text), maxBackups, {}, d.nextId), maxBackups,
                older + Contents(grown + [[]]));
    }
  }

  lemma HoldsLive(fs: FileSystem, maxBackups: int, gens: seq<bytes>)
    requires Holds(fs, maxBackups, gens)
    ensures gens != [] && Live in fs && fs[Live].text == gens[|gens| - 1]
  {
  }

  lemma TextsNothing()
    ensures Texts([]) == []
  {
  }

  /** What is on disk, oldest first: .n, ..., .1, live. */
  function OnDisk(fs: FileSystem, n: nat): bytes
    requires Live in fs
  {
    if n == 0 then fs[Live].text
    else (if Backup(n) in fs then fs[Backup(n)].text else []) + OnDisk(fs, n - 1)
  }

  lemma {:induction false} OnDiskIs(fs: FileSystem, maxBackups: int, gens: seq<bytes>, n: nat)
    requires Holds(fs, maxBackups, gens) && n <= Keep(maxBackups)
    ensures OnDisk(fs, n) == Concat(gens[if n < |gens| then |gens| - 1 - n else 0..])
  {
    hide Concat;
    if n == 0 {
      assert gens[|gens|..] == [];
      ConcatFirst(gens, |gens| - 1);
      assert Concat<byte>([]) == [] by { ConcatNothing<byte>(); }
    } else {
      OnDiskIs(fs, maxBackups, gens, n - 1);
      if n < |gens| {
        ConcatFirst(gens, |gens| - 1 - n);
      }
    }
  }

  lemma {:induction false} TextsOfConcat(groups: seq<seq<Output>>)
    ensures Texts(Concat(groups)) == Concat(Contents(groups))
  {
    if groups != [] {
      var before := groups[..|groups| - 1];
      TextsOfConcat(before);
      TextsConcat(Concat(before), groups[|groups| - 1]);
      assert Contents(groups)[..|groups| - 1] == Contents(before);
    }
  }

  lemma {:induction false} TextsConcat(a: seq<Output>, b: seq<Output>)
    ensures Texts(a + b) == Texts(a) + Texts(b)
  {
    if b == [] {
      assert a + b == a;
    } else {
      var n := |b| - 1;
      TextsConcat(a, b[..n]);
      assert (a + b)[..|a + b| - 1] == a + b[..n];
      Assoc(Texts(a), Texts(b[..n]), b[n].text);
    }
  }

  lemma TextsOfOne(o: Output)
    ensures Texts([o]) == o.text
  {
    assert [o][..0] == [];
  }

  lemma GenerationsAre(found: seq<bytes>, outputs: seq<Output>, maxFileSize: int)
    requires found != []
    ensures Concat(Generations(found, outputs, maxFileSize)) == Concat(found) + Texts(outputs)
  {
    hide Split, Concat, Texts;
    var older, initial := found[..|found| - 1], found[|found| - 1];
    var groups := Split(initial, outputs, maxFileSize);
    SplitConserves(initial, outputs, maxFileSize);
    TextsOfConcat(groups);
    TextsConcat([Output(false, initial)], outputs);
    TextsOfOne(Output(false, initial));
    ConcatConcat(older, Contents(groups));
    assert found == older + [initial];
    ConcatAppend(older, initial);
    Assoc(Concat(older), initial, Texts(outputs));
  }

  /** Read oldest to newest, the files are a suffix of everything ever written,
      with what an earlier process left; what is missing is exactly the
      generations beyond MaxBackupFiles. */
  lemma DiskIsSuffix(start: Store, found: seq<bytes>, outputs: seq<Output>, maxFileSize: int, maxBackups: int)
    requires Holds(start.fs, maxBackups, found) && start.size == |start.fs[Live].text|
    ensures var d := EmitAll(start, outputs, maxFileSize, maxBackups);
            var gens := Generations(found, outputs, maxFileSize);
            var first := if Keep(maxBackups) < |gens| then |gens| - 1 - Keep(maxBackups) else 0;
            Concat(found) + Texts(outputs) == Concat(gens[..first]) + OnDisk(d.fs, Keep(maxBackups))
  {
    StreamConserved(start, found, outputs, maxFileSize, maxBackups);
    GenerationsAre(found, outputs, maxFileSize);
    hide Split, EmitAll, Concat, Texts, Generations, Contents;
    var gens := Generations(found, outputs, maxFileSize);
    OnDiskIs(EmitAll(start, outputs, maxFileSize, maxBackups).fs, maxBackups, gens, Keep(maxBackups));
    ConcatSplit(gens, if Keep(maxBackups) < |gens| then |gens| - 1 - Keep(maxBackups) else 0);
  }

  lemma TextsAppend(outputs: seq<Output>, o: Output)
    ensures Texts(outputs + [o]) == Texts(outputs) + o.text
  {
    assert (outputs + [o])[..|outputs|] == outputs;
  }

  /** The bytes of a generation whose write no rotation check followed: those of
      Flush and of the final drain of a worker run, and what the file held
      before. */
  function Unchecked(group: seq<Output>): nat {
    if group == [] then 0
    else Unchecked(group[..|group| - 1]) + (if group[|group| - 1].checked then 0 else |group[|group| - 1].text|)
  }

  lemma UncheckedAppend(group: seq<Output>, o: Output)
    ensures Unchecked(group + [o]) == Unchecked(group) + (if o.checked then 0 else |o.text|)
  {
    assert (group + [o])[..|group|] == group;
  }

  /** The unchecked bytes of generation k that count against its size. The
      content that the first file was found with opens group 0; below MaxFileSize
      it is as good as checked. */
  function Slack(initial: bytes, groups: seq<seq<Output>>, k: nat, maxFileSize: int): nat
    requires k < |groups|
  {
    Unchecked(if k == 0 && |initial| < maxFileSize && groups[0] != [] then groups[0][1..] else groups[k])
  }

  /** A generation that was rotated had reached MaxFileSize, and exceeds it by
      less than its unchecked bytes plus the largest checked write; the live one
      is below MaxFileSize plus its unchecked bytes. */
  ghost predicate Bounded(initial: bytes, groups: seq<seq<Output>>, maxFileSize: int, largest: nat)
    requires groups != []
  {
    && (forall k :: 0 <= k < |groups| - 1 ==>
          maxFileSize <= |Texts(groups[k])| < maxFileSize + largest + Slack(initial, groups, k, maxFileSize))
    && |Texts(groups[|groups| - 1])| < maxFileSize + Slack(initial, groups, |groups| - 1, maxFileSize)
  }

  lemma SlackGrows(initial: bytes, groups: seq<seq<Output>>, o: Output, k: nat, maxFileSize: int)
    requires groups != [] && groups[0] != [] && k < |groups|
    ensures Slack(initial, Grown(groups, o), k, maxFileSize) ==
            Slack(initial, groups, k, maxFileSize) + (if k == |groups| - 1 && !o.checked then |o.text| else 0)
    ensures Slack(initial, Grown(groups, o) + [[]], k, maxFileSize) == Slack(initial, Grown(groups, o), k, maxFileSize)
    ensures Slack(initial, Grown(groups, o) + [[]], |groups|, maxFileSize) == 0
  {
    hide Unchecked;
    assert Unchecked([]) == 0 by { UncheckedNothing(); }
    var last := groups[|groups| - 1];
    if k == |groups| - 1 {
      UncheckedAppend(last, o);
      if k == 0 {
        assert (last + [o])[1..] == last[1..] + [o];
        UncheckedAppend(last[1..], o);
      }
    }
  }

  lemma UncheckedNothing()
    ensures Unchecked([]) == 0
  {
  }

  lemma GenerationGrows(initial: bytes, groups: seq<seq<Output>>, o: Output, maxFileSize: int, largest: nat)
    requires groups != [] && groups[0] != [] && maxFileSize > 0 && Bounded(initial, groups, maxFileSize, largest)
    requires o.checked ==> |o.text| <= largest
    ensures var grown := Grown(groups, o);
            Bounded(initial, if o.checked && |Texts(grown[|groups| - 1])| >= maxFileSize then grown + [[]] else grown,
                    maxFileSize, largest)
  {
    hide Texts, Slack;
    var last := |groups| - 1;
    var grown := Grown(groups, o);
    TextsAppend(groups[last], o);
    SlackGrows(initial, groups, o, last, maxFileSize);
    var more := if o.checked && |Texts(grown[last])| >= maxFileSize then grown + [[]] else grown;
    assert Texts([]) == [] by { TextsNothing(); }
    forall k | 0 <= k < |more| - 1
      ensures maxFileSize <= |Texts(more[k])| < maxFileSize + largest + Slack(initial, more, k, maxFileSize)
    {
      SlackGrows(initial, groups, o, k, maxFileSize);
    }
  }

  lemma {:induction false} FirstGroup(initial: bytes, outputs: seq<Output>, maxFileSize: int)
    ensures Split(initial, outputs, maxFileSize)[0] != []
  {
    if outputs != [] {
      FirstGroup(initial, outputs[..|outputs| - 1], maxFileSize);
    }
  }

  /** For any writes, checked or not, in any order, the generations are bounded
      in this way. */
  lemma {:induction false} GenerationSize(initial: bytes, outputs: seq<Output>, maxFileSize: int, largest: nat)
    requires maxFileSize > 0
    requires forall k :: 0 <= k < |outputs| && outputs[k].checked ==> |outputs[k].text| <= largest
    ensures Bounded(initial, Split(initial, outputs, maxFileSize), maxFileSize, largest)
  {
    if outputs == [] {
      var o := Output(false, initial);
      TextsOfOne(o);
      UncheckedAppend([], o);
      assert [] + [o] == [o] && [o][1..] == [];
    } else {
      var before := outputs[..|outputs| - 1];
      var o := outputs[|outputs| - 1];
      GenerationSize(initial, before, maxFileSize, largest);
      FirstGroup(initial, before, maxFileSize);
      GenerationGrows(initial, Split(initial, before, maxFileSize), o, maxFileSize, largest);
    }
  }

  /** No checked write after an unchecked one. */
  predicate ChecksFirst(outputs: seq<Output>) {
    forall j, k :: 0 <= j < k < |outputs| && outputs[k].checked ==> outputs[j].checked
  }

  /** Nothing unchecked counts in the first n generations. */
  ghost predicate NoSlack(initial: bytes, groups: seq<seq<Output>>, n: nat, maxFileSize: int) {
    forall k :: 0 <= k < n && k < |groups| ==> Slack(initial, groups, k, maxFileSize) == 0
  }

  /** If unchecked writes come last and the file is found below MaxFileSize, none
      counts in a rotated generation. */
  lemma {:induction false} RotatedChecked(initial: bytes, outputs: seq<Output>, maxFileSize: int)
    requires ChecksFirst(outputs) && |initial| < maxFileSize
    ensures var groups := Split(initial, outputs, maxFileSize);
            var allChecked := forall k :: 0 <= k < |outputs| ==> outputs[k].checked;
            NoSlack(initial, groups, if allChecked then |groups| else |groups| - 1, maxFileSize)
  {
    if outputs == [] {
      var o := Output(false, initial);
      assert [o][1..] == [];
    } else {
      var before := outputs[..|outputs| - 1];
      var o := outputs[|outputs| - 1];
      RotatedChecked(initial, before, maxFileSize);
      FirstGroup(initial, before, maxFileSize);
      CheckedGrows(initial, Split(initial, before, maxFileSize), o, maxFileSize);
      if o.checked {
        assert forall k :: 0 <= k < |before| ==> outputs[k].checked;
      }
    }
  }

  lemma CheckedGrows(initial: bytes, groups: seq<seq<Output>>, o: Output, maxFileSize: int)
    requires groups != [] && groups[0] != []
    requires NoSlack(initial, groups, if o.checked then |groups| else |groups| - 1, maxFileSize)
    ensures NoSlack(initial, Grown(groups, o), if o.checked then |groups| else |groups| - 1, maxFileSize)
    ensures o.checked ==> NoSlack(initial, Grown(groups, o) + [[]], |groups| + 1, maxFileSize)
  {
    hide Slack;
    var n := if o.checked then |groups| else |groups| - 1;
    forall k | 0 <= k < n
      ensures Slack(initial, Grown(groups, o), k, maxFileSize) == 0
    {
      SlackGrows(initial, groups, o, k, maxFileSize);
    }
    if o.checked {
      forall k | 0 <= k <= |groups|
        ensures Slack(initial, Grown(groups, o) + [[]], k, maxFileSize) == 0
      {
        SlackGrows(initial, groups, o, if k < |groups| then k else 0, maxFileSize);
      }
    }
  }

  /** Unchecked writes never start a new generation. */
  lemma {:induction false} UncheckedStays(initial: bytes, outputs: seq<Output>, maxFileSize: int)
    requires forall k :: 0 <= k < |outputs| ==> !outputs[k].checked
    ensures Split(initial, outputs, maxFileSize) == [[Output(false, initial)] + outputs]
  {
    if outputs == [] {
      assert [Output(false, initial)] + outputs == [Output(false, initial)];
    } else {
      var before := outputs[..|outputs| - 1];
      var first := [Output(false, initial)] + before;
      var o := outputs[|outputs| - 1];
      hide Texts;
      UncheckedStays(initial, before, maxFileSize);
      assert first + [o] == [Output(false, initial)] + outputs;
      assert Grown([first], o) == [first + [o]];
    }
  }

  /** A checked write that ends unchecked ones rotates all of them together. */
  lemma UncheckedRotate(initial: bytes, before: seq<Output>, o: Output, maxFileSize: int)
    requires forall k :: 0 <= k < |before| ==> !before[k].checked
    requires o.checked && 0 < maxFileSize <= |Texts(before)| + |o.text|
    ensures var groups := Split(initial, before + [o], maxFileSize);
            |groups| == 2 && |Texts(groups[0])| == |initial| + |Texts(before)| + |o.text|
  {
    hide Texts;
    var first := Output(false, initial);
    UncheckedStays(initial, before, maxFileSize);
    assert (before + [o])[..|before|] == before;
    TextsAppend([first] + before, o);
    TextsConcat([first], before);
    TextsOfOne(first);
  }

  // -- The worker's log file ----------------------------------------------------------------------

  /** The rotation state of the Logger: the files, and the size and error
      counters. The live file is always open for appending. */
  class LogFile {
    const maxFileSize: int
    const maxBackups: int
    var fs: FileSystem
    var currentSize: int
    var rotationErrors: nat
    var nextId: nat

    ghost predicate Valid()
      reads this
    {
      && Live in fs
      && Ordered(fs, maxBackups, nextId)
      && currentSize == |fs[Live].text|
    }

    constructor (maxFileSize: int, maxBackups: int, existing: bytes)
      ensures Valid() && this.maxFileSize == maxFileSize && this.maxBackups == maxBackups
      ensures fs == map[Live := Gen(0, existing)] && rotationErrors == 0 && nextId == 1
    {
      this.maxFileSize, this.maxBackups := maxFileSize, maxBackups;
      fs, currentSize, rotationErrors, nextId := map[Live := Gen(0, existing)], |existing|, 0, 1;
    }

    /** writeOut on the log file. */
    method WriteOut(buf: bytes)
      requires Valid()
      modifies this`fs, this`currentSize
      ensures Valid() && fs == AppendLive(old(fs), buf)
    {
      if |buf| > 0 {
        fs := AppendLive(fs, buf);
        currentSize := currentSize + |buf|;
      } else {
        assert fs[Live].text + buf == fs[Live].text;
      }
    }

    method TryRename(src: Name, failing: set<Name>) returns (failed: bool)
      modifies this`fs
      ensures fs == Rename(old(fs), src, failing)
      ensures failed <==> src in old(fs) && src in failing
    {
      failed := src in fs && src in failing;
      if src in fs && src !in failing {
        fs := fs[Next(src) := fs[src]] - {src};
      }
    }

    /** Step 2 of rotateLogFile: .N-1 -> .N, ..., .1 -> .2. */
    method ShiftBackups(failing: set<Name>)
      modifies this`fs, this`rotationErrors
      ensures fs == Shift(old(fs), maxBackups - 1, failing)
      ensures rotationErrors == old(rotationErrors) + ShiftFails(old(fs), maxBackups - 1, failing)
    {
      var i := maxBackups - 1;
      while i > 0
        invariant Shift(fs, i, failing) == Shift(old(fs), maxBackups - 1, failing)
        invariant rotationErrors + ShiftFails(fs, i, failing)
                  == old(rotationErrors) + ShiftFails(old(fs), maxBackups - 1, failing)
        decreases i
      {
        var bad := TryRename(Backup(i), failing);
        if bad {
          rotationErrors := rotationErrors + 1;
        }
        i := i - 1;
      }
    }

    /** rotateLogFile. `failing` are the sources whose rename fails. `rotated`
        says that the caller must take the new writer; `failed` that the live
        log could not be moved and is still being appended to. */
    method RotateLogFile(failing: set<Name>) returns (rotated: bool, failed: bool)
      requires Valid()
      modifies this`fs, this`currentSize, this`rotationErrors, this`nextId
      ensures Valid()
      ensures rotated <==> maxFileSize > 0 && old(currentSize) >= maxFileSize
      ensures !rotated ==> fs == old(fs) && rotationErrors == old(rotationErrors) && !failed
      ensures rotated ==> fs == RotateFs(old(fs), maxBackups, failing, old(nextId))
      ensures rotated ==> rotationErrors == old(rotationErrors) + RotationFails(old(fs), maxBackups, failing)
      ensures failed <==> rotated && Live in failing
    {
      if maxFileSize <= 0 || currentSize < maxFileSize {
        return false, false;
      }
      RotationKeepsOrder(fs, maxBackups, nextId, failing);
      hide Ordered, Shift, ShiftFails;
      var bad := TryRename(Live, failing);
      if bad {
        rotationErrors := rotationErrors + 1;
        currentSize := |fs[Live].text|;
        return true, true;
      }
      ShiftBackups(failing);
      bad := TryRename(Rotating, failing);
      if bad {
        rotationErrors := rotationErrors + 1;
      }
      assert Live !in fs;
      fs := fs[Live := Gen(nextId, [])];
      nextId := nextId + 1;
      currentSize := 0;
      return true, false;
    }

    /** rotateIfNeeded, after a threshold or ticker write; with failing renames
        it behaves as one step of `Run`. */
    method WriteChecked(buf: bytes, failing: set<Name>)
      requires Valid()
      modifies this
      ensures Valid()
      ensures var grown := AppendLive(old(fs), buf);
              if maxFileSize > 0 && |grown[Live].text| >= maxFileSize
              then fs == RotateFs(grown, maxBackups, failing, old(nextId))
              else fs == grown
    {
      WriteOut(buf);
      var rotated, failed := RotateLogFile(failing);
    }
  }
}
