/** What the worker hands to the writer: whole lines, in bounded chunks; and
    what that makes of the rotated files. */
module PipelineWrites {
  import opened Basics
  import opened Pipeline
  import opened PipelineSafety
  import opened PipelineFlush
  import Rotation

  /** The chunk is not empty, and was below the threshold before its last line. */
  ghost predicate ChunkOk(c: Setup, s: State, w: Write) {
    && w.first < w.last <= |s.lines|
    && |Concat(s.lines[w.first..w.last - 1])| < c.threshold
  }

  ghost predicate WritesOk(c: Setup, s: State) {
    && s.flushed <= |s.lines|
    && (s.writes == [] ==> s.flushed == 0)
    && (s.writes != [] ==> s.writes[0].first == 0 && s.writes[|s.writes| - 1].last == s.flushed)
    && (forall k :: 0 <= k < |s.writes| ==> ChunkOk(c, s, s.writes[k]))
    && (forall j, k :: 0 <= j < k == j + 1 < |s.writes| ==> s.writes[j].last == s.writes[k].first)
  }

  /** Between batches the buffer is below the threshold; inside a batch it was
      so before the line received last. */
  ghost predicate BufferOk(c: Setup, s: State, w: nat)
    requires w < |s.workers|
  {
    var pc := s.workers[w].pc;
    && (pc.Batch? ==> s.flushed < |s.lines| && |Concat(s.lines[s.flushed..|s.lines| - 1])| < c.threshold)
    && (!pc.Batch? ==> |s.workers[w].buf| < c.threshold)
  }

  ghost predicate WriteInv(c: Setup, s: State) {
    && WritesOk(c, s)
    && (forall w :: 0 <= w < |s.workers| ==> BufferOk(c, s, w))
  }

  lemma ReceiveWrites(c: Setup, s: State, w: nat, n: nat, ts: int, back: Return)
    requires Inv(c, s) && WriteInv(c, s) && w < |s.workers| && Queued(s) > 0
    requires Live(s.workers[w].pc) && |s.workers[w].buf| < c.threshold
    ensures WriteInv(c, Receive(c, s, w, n, ts, back))
  {
    hide Concat;
    var t := Receive(c, s, w, n, ts, back);
    assert WorkerOk(s, w);
    assert t.lines[s.flushed..|t.lines| - 1] == s.lines[s.flushed..];
    forall k | 0 <= k < |t.writes|
      ensures ChunkOk(c, t, t.writes[k])
    {
      var wr := t.writes[k];
      assert ChunkOk(c, s, wr);
      assert t.lines[wr.first..wr.last - 1] == s.lines[wr.first..wr.last - 1];
    }
    forall v | 0 <= v < |t.workers|
      ensures BufferOk(c, t, v)
    {
      assert BufferOk(c, s, v) && WorkerOk(s, v);
    }
  }

  lemma WriteOutWrites(c: Setup, s: State, w: nat, checked: bool)
    requires Inv(c, s) && WriteInv(c, s) && w < |s.workers| && Live(s.workers[w].pc)
    ensures WritesOk(c, WriteOut(s, w, checked))
  {
    hide Concat, WritesOk;
    var t := WriteOut(s, w, checked);
    assert WorkerOk(s, w) && BufferOk(c, s, w);
    if t != s {
      NothingUnwritten(c, s);
      ChunkEnds(c, s, w);
      AddWrite(c, s, t, Write(checked, s.flushed, s.taken));
    }
  }

  lemma AddWrite(c: Setup, s: State, t: State, w: Write)
    requires WritesOk(c, s) && t.lines == s.lines && t.writes == s.writes + [w] && t.flushed == w.last
    requires w.first == s.flushed && ChunkOk(c, t, w)
    ensures WritesOk(c, t)
  {
    hide Concat;
    forall k | 0 <= k < |t.writes|
      ensures ChunkOk(c, t, t.writes[k])
    {
      assert k < |s.writes| ==> ChunkOk(c, s, s.writes[k]);
    }
  }

  lemma NothingUnwritten(c: Setup, s: State)
    requires StreamOk(c, s)
    ensures s.flushed == s.taken ==> Unwritten(s) == []
  {
  }

  /** Dropping the last line leaves less than the threshold. */
  lemma ChunkEnds(c: Setup, s: State, w: nat)
    requires Inv(c, s) && w < |s.workers| && Live(s.workers[w].pc) && BufferOk(c, s, w) && s.flushed < s.taken
    ensures |Concat(s.lines[s.flushed..s.taken - 1])| < c.threshold
  {
    assert WorkerOk(s, w);
    var rest := s.lines[s.flushed..];
    assert rest[..|rest| - 1] == s.lines[s.flushed..s.taken - 1];
    assert |Concat(rest[..|rest| - 1])| <= |Concat(rest)|;
  }

  lemma OthersBuffer(c: Setup, s: State, t: State, w: nat)
    requires Inv(c, s) && WriteInv(c, s) && c.Valid() && w < |s.workers| == |t.workers|
    requires forall v :: 0 <= v < |s.workers| && v != w ==> t.workers[v] == s.workers[v]
    requires Live(s.workers[w].pc) && !t.workers[w].pc.Batch? && |t.workers[w].buf| < c.threshold
    ensures forall v :: 0 <= v < |t.workers| ==> BufferOk(c, t, v)
  {
    hide Concat;
    forall v | 0 <= v < |t.workers|
      ensures BufferOk(c, t, v)
    {
      assert BufferOk(c, s, v) && WorkerOk(s, v) && WorkerOk(s, w);
    }
  }

  lemma SameWrites(c: Setup, s: State, t: State)
    requires WritesOk(c, s) && t.lines == s.lines && t.writes == s.writes && t.flushed == s.flushed
    ensures WritesOk(c, t)
  {
    forall k | 0 <= k < |t.writes|
      ensures ChunkOk(c, t, t.writes[k])
    {
      assert ChunkOk(c, s, s.writes[k]);
    }
  }

  lemma WriteWorkerStep(c: Setup, s: State, w: nat, a: Action)
    requires Inv(c, s) && WriteInv(c, s) && IsWorker(a) && a.w == w && w < |s.workers| && Writes(a)
    ensures WriteInv(c, WorkerStep(c, s, w, a))
  {
    hide Inv, WriteInv, Concat, Receive, WritesOk, BufferOk;
    var pc := s.workers[w].pc;
    var t := WorkerStep(c, s, w, a);
    assert !Live(pc) ==> t == s;
    if t != s {
      assert BufferOk(c, s, w) && WritesOk(c, s) by { Parts(c, s, w); }
      BufferBound(c, s, w);
      if a.Take? {
        ReceiveWrites(c, s, w, 1, a.ts,
                      if pc.Loop? then ToLoop else if pc.FlushDrain? then ToFlush(pc.flush) else ToExit);
      } else if a.More? {
        ReceiveWrites(c, s, w, pc.n + 1, pc.ts, pc.back);
      } else {
        FinishWrites(c, s, w, a);
      }
    }
  }

  lemma Parts(c: Setup, s: State, w: nat)
    requires WriteInv(c, s) && w < |s.workers|
    ensures BufferOk(c, s, w) && WritesOk(c, s)
  {
  }

  lemma BufferBound(c: Setup, s: State, w: nat)
    requires w < |s.workers| && BufferOk(c, s, w)
    ensures s.workers[w].pc.Batch? || |s.workers[w].buf| < c.threshold
  {
  }

  lemma FinishWrites(c: Setup, s: State, w: nat, a: Action)
    requires Inv(c, s) && WriteInv(c, s) && w < |s.workers| && Live(s.workers[w].pc)
    requires (a.EndBatch? || a.Tick? || a.FinishFlush? || a.FinishExit?) && a.w == w
    requires WorkerStep(c, s, w, a) != s
    ensures WriteInv(c, WorkerStep(c, s, w, a))
  {
    hide Inv, Concat;
    var t := WorkerStep(c, s, w, a);
    var checked := a.Tick? || (a.EndBatch? && s.workers[w].pc.back.ToLoop?);
    WriteOutWrites(c, s, w, checked);
    WriteOutInv(c, s, w, checked);
    assert c.Valid() by { ValidSetup(c, s); }
    var u := if t.writes == s.writes then s else WriteOut(s, w, checked);
    SameWrites(c, u, t);
    WorkerUntouched(c, s, w, a);
    OthersBuffer(c, s, t, w);
  }

  lemma ValidSetup(c: Setup, s: State)
    requires Inv(c, s)
    ensures c.Valid()
  {
  }

  ghost predicate KeepsWrites(s: State, t: State) {
    && t.lines == s.lines && t.writes == s.writes && t.flushed == s.flushed && |t.workers| >= |s.workers|
    && (forall v :: 0 <= v < |s.workers| ==>
          t.workers[v].buf == s.workers[v].buf && (t.workers[v].pc.Batch? <==> s.workers[v].pc.Batch?))
    && (forall v :: |s.workers| <= v < |t.workers| ==> t.workers[v] == Worker(Created, [], false))
  }

  lemma PlaceKeepsWrites(c: Setup, s: State, a: Action)
    requires IsWorker(a) && !Writes(a) && a.w < |s.workers|
    ensures KeepsWrites(s, Step(c, s, a))
  {
    hide Receive, WriteOut;
  }

  lemma CallKeepsWrites(c: Setup, s: State, a: Action)
    requires !IsWorker(a)
    ensures KeepsWrites(s, Step(c, s, a))
  {
    hide WorkerStep;
  }

  lemma WriteStep(c: Setup, s: State, a: Action)
    requires Inv(c, s) && WriteInv(c, s)
    ensures WriteInv(c, Step(c, s, a))
  {
    hide Inv, Concat, Step, WorkerStep;
    var t := Step(c, s, a);
    if IsWorker(a) && a.w >= |s.workers| {
      NoWorker(c, s, a.w, a);
      assert t == s by { StepIsWorker(c, s, a); }
    } else if IsWorker(a) && Writes(a) {
      WriteWorkerStep(c, s, a.w, a);
      assert t == WorkerStep(c, s, a.w, a) by { StepIsWorker(c, s, a); }
    } else {
      if IsWorker(a) {
        PlaceKeepsWrites(c, s, a);
      } else {
        CallKeepsWrites(c, s, a);
      }
      SameWrites(c, s, t);
      ValidSetup(c, s);
      forall v | 0 <= v < |t.workers|
        ensures BufferOk(c, t, v)
      {
        assert v < |s.workers| ==> BufferOk(c, s, v);
      }
    }
  }

  lemma StepIsWorker(c: Setup, s: State, a: Action)
    requires IsWorker(a)
    ensures Step(c, s, a) == WorkerStep(c, s, a.w, a)
  {
  }

  lemma {:induction false} WriteRun(c: Setup, actions: seq<Action>)
    requires c.Valid() && NonEmptyLines(c)
    ensures WriteInv(c, Run(c, Init(), actions))
  {
    if actions != [] {
      var before := actions[..|actions| - 1];
      WriteRun(c, before);
      RunInv(c, before);
      WriteStep(c, Run(c, Init(), before), actions[|actions| - 1]);
    }
  }

  // -- Chunks ---------------------------------------------------------------------------

  function Chunk(s: State, w: Write): bytes {
    if w.first <= w.last <= |s.lines| then Concat(s.lines[w.first..w.last]) else []
  }

  function Outputs(s: State): (outputs: seq<Rotation.Output>)
    ensures |outputs| == |s.writes|
    ensures forall k :: 0 <= k < |s.writes| ==>
                          outputs[k] == Rotation.Output(s.writes[k].checked, Chunk(s, s.writes[k]))
  {
    seq(|s.writes|, k requires 0 <= k < |s.writes| => Rotation.Output(s.writes[k].checked, Chunk(s, s.writes[k])))
  }

  /** How many lines the first k writes cover. */
  function Upto(s: State, k: nat): nat
    requires k <= |s.writes|
  {
    if k == 0 then 0 else s.writes[k - 1].last
  }

  lemma ChunkLinks(c: Setup, s: State, k: nat)
    requires WritesOk(c, s) && k < |s.writes|
    ensures s.writes[k].first == Upto(s, k) && Upto(s, k) < Upto(s, k + 1) <= |s.lines|
    ensures Outputs(s)[k].text == Concat(s.lines[Upto(s, k)..Upto(s, k + 1)])
    ensures |Concat(s.lines[Upto(s, k)..Upto(s, k + 1) - 1])| < c.threshold
  {
    hide Concat;
    assert ChunkOk(c, s, s.writes[k]);
  }

  lemma {:induction false} ChunksCover(c: Setup, s: State, k: nat)
    requires WritesOk(c, s) && k <= |s.writes|
    ensures Upto(s, k) <= |s.lines|
    ensures Rotation.Texts(Outputs(s)[..k]) == Concat(s.lines[..Upto(s, k)])
  {
    if k == 0 {
      assert s.lines[..0] == [] && Outputs(s)[..0] == [];
    } else {
      hide Concat, Rotation.Texts, WritesOk, Outputs, Upto;
      ChunksCover(c, s, k - 1);
      ChunkLinks(c, s, k - 1);
      Snoc(Outputs(s), k);
      Rotation.TextsAppend(Outputs(s)[..k - 1], Outputs(s)[k - 1]);
      ConcatUpTo(s.lines, Upto(s, k - 1), Upto(s, k));
    }
  }

  lemma Snoc<T>(xs: seq<T>, k: nat)
    requires 0 < k <= |xs|
    ensures xs[..k] == xs[..k - 1] + [xs[k - 1]]
  {
  }

  lemma ConcatUpTo(lines: seq<bytes>, first: nat, last: nat)
    requires first <= last <= |lines|
    ensures Concat(lines[..last]) == Concat(lines[..first]) + Concat(lines[first..last])
  {
    ConcatSplit(lines[..last], first);
    assert lines[..last][..first] == lines[..first] && lines[..last][first..] == lines[first..last];
  }

  lemma ChunksAreLines(c: Setup, s: State, longest: nat)
    requires StreamOk(c, s) && WritesOk(c, s)
    requires forall id: nat, ts: int :: |c.format(id, ts)| <= longest
    ensures s.written == Rotation.Texts(Outputs(s))
    ensures forall k :: 0 <= k < |s.writes| ==> WholeLines(s, k) && |Outputs(s)[k].text| < c.threshold + longest
  {
    ChunksCover(c, s, |s.writes|);
    assert Outputs(s)[..|s.writes|] == Outputs(s);
    assert Upto(s, |s.writes|) == s.flushed;
    hide Concat, Rotation.Texts;
    forall k | 0 <= k < |s.writes|
      ensures WholeLines(s, k) && |Outputs(s)[k].text| < c.threshold + longest
    {
      ChunkBound(c, s, k, longest);
    }
  }

  lemma ChunkBound(c: Setup, s: State, k: nat, longest: nat)
    requires StreamOk(c, s) && WritesOk(c, s) && k < |s.writes|
    requires forall id: nat, ts: int :: |c.format(id, ts)| <= longest
    ensures WholeLines(s, k) && |Outputs(s)[k].text| < c.threshold + longest
  {
    hide Concat, WritesOk, Outputs;
    ChunkLinks(c, s, k);
    LastLine(c, s, Upto(s, k), Upto(s, k + 1));
    var id: nat, ts: int := s.sent[Upto(s, k + 1) - 1], s.stamps[Upto(s, k + 1) - 1];
    assert |c.format(id, ts)| <= longest;
  }

  /** The k-th write is a non-empty run of whole lines. */
  ghost predicate WholeLines(s: State, k: nat)
    requires k < |s.writes|
  {
    && s.writes[k].first < s.writes[k].last <= |s.lines|
    && Outputs(s)[k].text == Concat(s.lines[s.writes[k].first..s.writes[k].last])
  }

  /** In every run, each write consists of whole lines and is smaller than
      FlushThreshold plus the longest line, and the writes in order are
      everything written. */
  lemma WritesAreWholeLines(c: Setup, actions: seq<Action>, longest: nat)
    requires c.Valid() && NonEmptyLines(c)
    requires forall id: nat, ts: int :: |c.format(id, ts)| <= longest
    ensures var s := Run(c, Init(), actions);
            && s.written == Rotation.Texts(Outputs(s))
            && (forall k :: 0 <= k < |s.writes| ==> WholeLines(s, k) && |Outputs(s)[k].text| < c.threshold + longest)
  {
    WriteRun(c, actions);
    RunInv(c, actions);
    ChunksAreLines(c, Run(c, Init(), actions), longest);
  }

  lemma LastLine(c: Setup, s: State, first: nat, last: nat)
    requires StreamOk(c, s) && first < last <= |s.lines|
    ensures Concat(s.lines[first..last]) ==
            Concat(s.lines[first..last - 1]) + c.format(s.sent[last - 1], s.stamps[last - 1])
  {
    assert s.lines[first..last][..last - 1 - first] == s.lines[first..last - 1];
  }

  // -- The size of rotated files ----------------------------------------------------------

  /** In every run, with any Flush calls and restarts, and whatever the file
      held before: with the default writer and no rename failure a rotated file
      had reached MaxFileSize, and exceeds it by less than FlushThreshold plus the
      longest line plus its unchecked bytes. */
  lemma GenerationBound(c: Setup, actions: seq<Action>, longest: nat, initial: bytes, maxFileSize: int)
    requires c.Valid() && NonEmptyLines(c) && maxFileSize > 0
    requires forall id: nat, ts: int :: |c.format(id, ts)| <= longest
    ensures Rotation.Bounded(initial, Rotation.Split(initial, Outputs(Run(c, Init(), actions)), maxFileSize),
                             maxFileSize, c.threshold + longest)
  {
    var s := Run(c, Init(), actions);
    WritesAreWholeLines(c, actions, longest);
    hide Run;
    Rotation.GenerationSize(initial, Outputs(s), maxFileSize, c.threshold + longest);
  }

  predicate Leaving(pc: Pc) {
    pc.ExitDrain? || pc.ExitWrite? || pc.Stopping? || pc.Exited? || (pc.Batch? && pc.back.ToExit?)
  }

  /** The action starts a worker run: the goroutine wins the CAS on `running`. */
  predicate Enters(s: State, a: Action) {
    a.Begin? && a.w < |s.workers| && s.workers[a.w].pc.Created? && !s.running
  }

  /** How many worker runs the actions start; a Start on a running logger is none. */
  function Entered(c: Setup, actions: seq<Action>): nat {
    if actions == [] then 0
    else
      var before := actions[..|actions| - 1];
      Entered(c, before) + (if Enters(Run(c, Init(), before), actions[|actions| - 1]) then 1 else 0)
  }

  /** Only a worker that is leaving has written without a check, and nothing
      was checked after that. */
  ghost predicate OneRunInv(s: State) {
    && (s.current.None? ==> s.writes == [])
    && (forall k :: 0 <= k < |s.writes| && !s.writes[k].checked ==>
          s.current.Some? && s.current.value < |s.workers| && Leaving(s.workers[s.current.value].pc))
    && (forall j, k :: 0 <= j < k < |s.writes| && s.writes[k].checked ==> s.writes[j].checked)
  }

  lemma NoFlush(c: Setup, s: State, w: nat)
    requires FlushInv(s) && s.flushes == 0
    ensures s.flushCh.None? && s.flusher.Free? && (w < |s.workers| ==> Serving(s.workers[w].pc).None?)
  {
    assert w < |s.workers| ==> ServingOk(s, w);
  }

  lemma OneRunReceive(c: Setup, s: State, a: Action)
    requires OneRunInv(s) && (a.Take? || a.More?) && a.w < |s.workers|
    requires Serving(s.workers[a.w].pc).None?
    ensures OneRunInv(WorkerStep(c, s, a.w, a))
  {
    hide Concat, WriteOut;
  }

  lemma OneRunWrite(c: Setup, s: State, a: Action)
    requires OneRunInv(s) && (a.EndBatch? || a.Tick? || a.FinishFlush? || a.FinishExit?) && a.w < |s.workers|
    requires Serving(s.workers[a.w].pc).None? && (Live(s.workers[a.w].pc) ==> s.current == Some(a.w))
    ensures OneRunInv(WorkerStep(c, s, a.w, a))
  {
    hide Concat, Receive;
  }

  lemma OneRunPlace(c: Setup, s: State, a: Action)
    requires OneRunInv(s) && IsWorker(a) && !Writes(a) && a.w < |s.workers|
    requires s.flushCh.None? && (Enters(s, a) ==> s.current.None?)
    ensures OneRunInv(WorkerStep(c, s, a.w, a))
  {
    hide Concat, Receive, WriteOut;
  }

  lemma OneRunStep(c: Setup, s: State, a: Action)
    requires Inv(c, s) && FlushInv(s) && s.flushes == 0 && OneRunInv(s)
    requires Enters(s, a) ==> s.current.None?
    ensures OneRunInv(Step(c, s, a))
  {
    hide WorkerStep, Inv, FlushInv, Writes, Concat;
    if IsWorker(a) {
      hide OneRunInv, ProducerStep, CallerStep;
      NoFlush(c, s, a.w);
      if a.w >= |s.workers| {
        NoWorker(c, s, a.w, a);
      } else if a.Take? || a.More? {
        OneRunReceive(c, s, a);
      } else if a.EndBatch? || a.Tick? || a.FinishFlush? || a.FinishExit? {
        assert Live(s.workers[a.w].pc) ==> s.current == Some(a.w) by { LiveIsCurrent(c, s, a.w); }
        OneRunWrite(c, s, a);
      } else {
        assert !Writes(a) by { NotWrites(a); }
        OneRunPlace(c, s, a);
      }
    }
  }

  lemma NotWrites(a: Action)
    requires !(a.Take? || a.More? || a.EndBatch? || a.Tick? || a.FinishFlush? || a.FinishExit?)
    ensures !Writes(a)
  {
  }

  lemma LiveIsCurrent(c: Setup, s: State, w: nat)
    requires Inv(c, s) && w < |s.workers|
    ensures Live(s.workers[w].pc) ==> s.current == Some(w)
  {
    assert WorkerOk(s, w);
  }

  lemma FlushesGrow(c: Setup, s: State, a: Action)
    ensures s.flushes <= Step(c, s, a).flushes
    ensures s.current.None? && !Enters(s, a) ==> Step(c, s, a).current.None?
  {
    if a.Take? || a.More? {
      hide WriteOut;
    } else {
      hide Receive, Concat;
    }
  }

  lemma {:induction false} OneRun(c: Setup, actions: seq<Action>)
    requires c.Valid() && NonEmptyLines(c)
    requires Run(c, Init(), actions).flushes == 0 && Entered(c, actions) <= 1
    ensures OneRunInv(Run(c, Init(), actions))
    ensures Entered(c, actions) == 0 ==> Run(c, Init(), actions).current.None?
  {
    if actions != [] {
      var before := actions[..|actions| - 1];
      hide Inv, FlushInv, Step, Enters, OneRunInv;
      FlushesGrow(c, Run(c, Init(), before), actions[|actions| - 1]);
      OneRun(c, before);
      RunInv(c, before);
      FlushRun(c, before);
      OneRunStep(c, Run(c, Init(), before), actions[|actions| - 1]);
    } else {
      assert OneRunInv(Init());
    }
  }

  /** Without an effective Flush call and with one worker run, a file that is
      found below MaxFileSize is only ever rotated smaller than MaxFileSize +
      FlushThreshold + the longest line. */
  lemma RotatedSize(c: Setup, actions: seq<Action>, longest: nat, initial: bytes, maxFileSize: int)
    requires c.Valid() && NonEmptyLines(c)
    requires forall id: nat, ts: int :: |c.format(id, ts)| <= longest
    requires Run(c, Init(), actions).flushes == 0 && Entered(c, actions) <= 1
    requires |initial| < maxFileSize
    ensures var groups := Rotation.Split(initial, Outputs(Run(c, Init(), actions)), maxFileSize);
            forall k :: 0 <= k < |groups| - 1 ==> |Rotation.Texts(groups[k])| < maxFileSize + c.threshold + longest
  {
    var s := Run(c, Init(), actions);
    GenerationBound(c, actions, longest, initial, maxFileSize);
    OneRun(c, actions);
    hide Run;
    assert Rotation.ChecksFirst(Outputs(s));
    Rotation.RotatedChecked(initial, Outputs(s), maxFileSize);
  }
}
