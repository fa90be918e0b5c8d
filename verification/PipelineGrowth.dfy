/** Runs in which a rotated file outgrows every bound: the drains of a stopping
    worker and of a Flush write without a rotation check, as much as is sent
    while they last. */
module PipelineGrowth {
  import opened Basics
  import opened Pipeline
  import opened PipelineSafety
  import opened PipelineFlush
  import opened PipelineWrites
  import Rotation

  ghost predicate AllUnchecked(s: State) {
    forall k :: 0 <= k < |s.writes| ==> !s.writes[k].checked
  }

  /** Worker 0 is in a drain loop, and has taken n entries. */
  ghost predicate Drained(s: State, pc: Pc, n: nat) {
    && |s.workers| == 1 && s.workers[0].pc == pc
    && s.running && s.current == Some(0)
    && |s.sent| == s.taken == n
    && AllUnchecked(s)
  }

  /** The worker stopped, or came back to its loop, after it took n entries. */
  ghost predicate Written(s: State, n: nat) {
    && |s.sent| == s.taken == s.flushed == n
    && AllUnchecked(s)
  }

  /** One entry is sent and drained. */
  lemma DrainOne(c: Setup, s: State, pc: Pc, n: nat)
    requires c.Valid() && (pc.ExitDrain? || pc.FlushDrain?) && Drained(s, pc, n)
    ensures var one := Step(c, s, Dispatch(false));
            var two := Step(c, one, Take(0, 0));
            var t := Step(c, two, EndBatch(0));
            Drained(t, pc, n + 1) && t.flushes == s.flushes
  {
    hide Concat;
  }

  lemma {:induction false} DrainMany(c: Setup, actions: seq<Action>, pc: Pc, n: nat) returns (more: seq<Action>)
    requires c.Valid() && (pc.ExitDrain? || pc.FlushDrain?) && Drained(Run(c, Init(), actions), pc, 0)
    ensures Drained(Run(c, Init(), more), pc, n)
    ensures Run(c, Init(), more).flushes == Run(c, Init(), actions).flushes
  {
    hide Run, Step, Drained;
    if n == 0 {
      more := actions;
    } else {
      more := DrainMany(c, actions, pc, n - 1);
      DrainOne(c, Run(c, Init(), more), pc, n - 1);
      more := Then(c, more, Dispatch(false));
      more := Then(c, more, Take(0, 0));
      more := Then(c, more, EndBatch(0));
    }
  }

  lemma ExitAfterDrain(c: Setup, s: State, n: nat)
    requires Inv(c, s) && Drained(s, ExitDrain, n)
    ensures var one := Step(c, s, SeeEmpty(0));
            var two := Step(c, one, FinishExit(0));
            var t := Step(c, two, Exit(0));
            && Written(t, n) && t.flushes == s.flushes
            && |t.workers| == 1 && !t.running
  {
    hide Concat, NonEmptyLines, Inv;
    var one := Step(c, s, SeeEmpty(0));
    StepInv(c, s, SeeEmpty(0));
    WriteOutInv(c, one, 0, false);
  }

  lemma Restart(c: Setup, s: State, n: nat)
    requires Written(s, n) && |s.workers| == 1 && !s.running
    ensures var one := Step(c, s, Spawn);
            var t := Step(c, one, Begin(1));
            && Written(t, n) && t.flushes == s.flushes
            && |t.workers| == 2 && t.workers[1].pc.Loop?
  {
    hide Concat;
  }

  lemma LoopAfterDrain(c: Setup, s: State, f: Flush, n: nat)
    requires Inv(c, s) && Drained(s, FlushDrain(f), n)
    ensures var one := Step(c, s, SeeEmpty(0));
            var t := Step(c, one, FinishFlush(0));
            && Written(t, n) && t.flushes == s.flushes
            && |t.workers| == 1 && t.workers[0].pc.Loop?
  {
    hide Concat, NonEmptyLines, Inv;
    var one := Step(c, s, SeeEmpty(0));
    StepInv(c, s, SeeEmpty(0));
    WriteOutInv(c, one, 0, false);
  }

  /** One more entry, written by the threshold or by the next tick: checked. */
  lemma CheckedWrite(c: Setup, s: State, w: nat, n: nat)
    requires Inv(c, s) && WritesOk(c, s) && Written(s, n) && w < |s.workers| && s.workers[w].pc.Loop?
    ensures var one := Step(c, s, Dispatch(false));
            var two := Step(c, one, Take(w, 0));
            var three := Step(c, two, EndBatch(w));
            var t := Step(c, three, Tick(w));
            && t.flushes == s.flushes && |t.workers| == |s.workers|
            && t.writes == s.writes + [Write(true, n, n + 1)] && |t.sent| == t.taken == t.flushed == n + 1
  {
    hide Concat;
    assert WorkerOk(s, w);
    assert s.lines[s.flushed..] == [] && Unwritten(s) == [] by { NothingUnwritten(c, s); }
    var id: nat, ts: int := s.arrived, 0;
    assert c.format(id, ts) != [];
    assert [] + c.format(id, ts) == c.format(id, ts);
  }

  lemma LinesTakeBytes(lines: seq<bytes>)
    requires forall k :: 0 <= k < |lines| ==> lines[k] != []
    ensures |Concat(lines)| >= |lines|
  {
  }

  lemma AllLines(c: Setup, s: State)
    requires Inv(c, s)
    ensures |s.lines| == s.taken && |Concat(s.lines)| >= s.taken
  {
    hide Concat;
    forall k | 0 <= k < |s.lines|
      ensures s.lines[k] != []
    {
      var id: nat, ts: int := s.sent[k], s.stamps[k];
      assert c.format(id, ts) != [];
    }
    LinesTakeBytes(s.lines);
  }

  lemma AllOutputs(c: Setup, s: State)
    requires WriteInv(c, s) && s.writes != [] && s.flushed == |s.lines|
    ensures Rotation.Texts(Outputs(s)) == Concat(s.lines)
  {
    hide Concat, Rotation.Texts, Outputs;
    ChunksCover(c, s, |s.writes|);
    assert Outputs(s)[..|s.writes|] == Outputs(s) && s.lines[..s.flushed] == s.lines;
  }

  /** Such a run has rotated one generation with every line in it. */
  lemma OneGeneration(c: Setup, s: State, initial: bytes, maxFileSize: int, n: nat)
    requires Inv(c, s) && WriteInv(c, s) && 0 < maxFileSize <= n + 1
    requires s.writes != [] && s.writes[|s.writes| - 1].checked
    requires forall k :: 0 <= k < |s.writes| - 1 ==> !s.writes[k].checked
    requires s.flushed == s.taken == n + 1
    ensures var groups := Rotation.Split(initial, Outputs(s), maxFileSize);
            |groups| == 2 && |Rotation.Texts(groups[0])| >= |initial| + n + 1
  {
    var outputs := Outputs(s);
    var last := |outputs| - 1;
    hide Inv, WriteInv, Concat, Rotation.Texts, Rotation.Split, Outputs;
    AllLines(c, s);
    AllOutputs(c, s);
    assert outputs == outputs[..last] + [outputs[last]];
    Rotation.TextsAppend(outputs[..last], outputs[last]);
    Rotation.UncheckedRotate(initial, outputs[..last], outputs[last], maxFileSize);
  }

  /** With a restart and no Flush: whatever the settings and the limit, there is a
      run of two workers in which a rotated file reaches any given size. */
  lemma RestartGrows(c: Setup, initial: bytes, maxFileSize: int, size: nat) returns (actions: seq<Action>)
    requires c.Valid() && NonEmptyLines(c) && maxFileSize > 0
    ensures var s := Run(c, Init(), actions);
            var groups := Rotation.Split(initial, Outputs(s), maxFileSize);
            && s.flushes == 0 && |s.workers| == 2
            && |groups| == 2 && |Rotation.Texts(groups[0])| >= size
  {
    hide Run, Step, Inv, WriteInv, WritesOk;
    var n := maxFileSize + size;
    actions := StartFirst(c);
    var s := Run(c, Init(), actions);
    IdleCancels(c, s);
    actions := Then(c, actions, Cancel(0));
    actions := Then(c, actions, SeeCancel(0));
    actions := DrainMany(c, actions, ExitDrain, n);
    RunInv(c, actions);
    ExitAfterDrain(c, Run(c, Init(), actions), n);
    actions := Then(c, actions, SeeEmpty(0));
    actions := Then(c, actions, FinishExit(0));
    actions := Then(c, actions, Exit(0));
    Restart(c, Run(c, Init(), actions), n);
    actions := Then(c, actions, Spawn);
    actions := Then(c, actions, Begin(1));
    actions := WriteOneMore(c, actions, 1, n);
    RunInv(c, actions);
    WriteRun(c, actions);
    OneGeneration(c, Run(c, Init(), actions), initial, maxFileSize, n);
  }

  /** With one worker and one Flush: the same. */
  lemma FlushGrows(c: Setup, initial: bytes, maxFileSize: int, size: nat) returns (actions: seq<Action>)
    requires c.Valid() && NonEmptyLines(c) && maxFileSize > 0
    ensures var s := Run(c, Init(), actions);
            var groups := Rotation.Split(initial, Outputs(s), maxFileSize);
            && s.flushes == 1 && |s.workers| == 1
            && |groups| == 2 && |Rotation.Texts(groups[0])| >= size
  {
    hide Run, Step, Inv, WriteInv, WritesOk;
    var n := maxFileSize + size;
    actions := StartFirst(c);
    FlushTaken(c, Run(c, Init(), actions));
    actions := Then(c, actions, FlushBegin);
    actions := Then(c, actions, FlushSend);
    actions := Then(c, actions, TakeFlush(0));
    actions := DrainMany(c, actions, FlushDrain(Flush(0, 0)), n);
    RunInv(c, actions);
    LoopAfterDrain(c, Run(c, Init(), actions), Flush(0, 0), n);
    actions := Then(c, actions, SeeEmpty(0));
    actions := Then(c, actions, FinishFlush(0));
    actions := WriteOneMore(c, actions, 0, n);
    RunInv(c, actions);
    WriteRun(c, actions);
    OneGeneration(c, Run(c, Init(), actions), initial, maxFileSize, n);
  }

  lemma FlushTaken(c: Setup, s: State)
    requires s == Init().(running := true, current := Some(0), workers := [Worker(Loop, [], false)])
    ensures var one := Step(c, s, FlushBegin);
            var two := Step(c, one, FlushSend);
            var t := Step(c, two, TakeFlush(0));
            Drained(t, FlushDrain(Flush(0, 0)), 0) && t.flushes == 1
  {
  }

  lemma WriteOneMore(c: Setup, actions: seq<Action>, w: nat, n: nat) returns (more: seq<Action>)
    requires c.Valid() && NonEmptyLines(c)
    requires var s := Run(c, Init(), actions); Written(s, n) && w < |s.workers| && s.workers[w].pc.Loop?
    ensures var s, t := Run(c, Init(), actions), Run(c, Init(), more);
            && t.flushes == s.flushes && |t.workers| == |s.workers|
            && t.writes == s.writes + [Write(true, n, n + 1)] && t.flushed == t.taken == n + 1
            && AllUnchecked(s)
  {
    RunInv(c, actions);
    WriteRun(c, actions);
    hide Run, Step, Inv, WritesOk;
    CheckedWrite(c, Run(c, Init(), actions), w, n);
    more := Then(c, actions, Dispatch(false));
    more := Then(c, more, Take(w, 0));
    more := Then(c, more, EndBatch(w));
    more := Then(c, more, Tick(w));
  }

  // -- The exact condition -------------------------------------------------------------

  ghost function BegunTest(): Worker -> bool {
    (w: Worker) => !w.pc.Created?
  }

  /** Goroutines that tried to become the worker. */
  ghost function Begun(s: State): nat {
    CountIf(BegunTest(), s.workers)
  }

  lemma BegunWorker(c: Setup, s: State, a: Action)
    requires Inv(c, s) && IsWorker(a) && a.w < |s.workers|
    ensures Begun(s) + (if Enters(s, a) then 1 else 0) <= Begun(WorkerStep(c, s, a.w, a))
  {
    hide Inv;
    var t := WorkerStep(c, s, a.w, a);
    assert Enters(s, a) ==> !t.workers[a.w].pc.Created?;
    hide WorkerStep;
    WorkerEffect(c, s, a.w, a);
    assert t.workers == s.workers[a.w := t.workers[a.w]];
    CountIfUpdate(BegunTest(), s.workers, a.w, t.workers[a.w]);
  }

  /** Producers and callers cancel workers and add new ones, no more. */
  lemma BegunCaller(s: State, a: Action)
    ensures Begun(s) <= Begun(CallerStep(s, a))
  {
    var t := CallerStep(s, a);
    if a.Spawn? {
      assert t.workers[..|s.workers|] == s.workers;
    } else if a.CloseBegin? && s.closer.Open? && s.current.Some? && s.current.value < |s.workers| {
      var w := s.current.value;
      CountIfUpdate(BegunTest(), s.workers, w, s.workers[w].(cancelled := true));
    } else {
      assert t.workers == s.workers;
    }
  }

  lemma BegunStep(c: Setup, s: State, a: Action)
    requires Inv(c, s)
    ensures Begun(s) + (if Enters(s, a) then 1 else 0) <= Begun(Step(c, s, a))
  {
    hide Inv, WorkerStep, CallerStep, Begun;
    if IsProducer(a) {
      assert ProducerStep(c, s, a).workers == s.workers;
      SameBegun(s, ProducerStep(c, s, a));
    } else if !IsWorker(a) {
      BegunCaller(s, a);
    } else if a.w < |s.workers| {
      BegunWorker(c, s, a);
    } else {
      NoWorker(c, s, a.w, a);
    }
  }

  lemma SameBegun(s: State, t: State)
    requires t.workers == s.workers
    ensures Begun(t) == Begun(s)
  {
  }

  /** Each worker run is a goroutine of its own. */
  lemma {:induction false} EnteredBegun(c: Setup, actions: seq<Action>)
    requires c.Valid() && NonEmptyLines(c)
    ensures Entered(c, actions) <= Begun(Run(c, Init(), actions)) <= |Run(c, Init(), actions).workers|
  {
    if actions != [] {
      var before := actions[..|actions| - 1];
      hide Inv, Step, Begun, Enters;
      EnteredBegun(c, before);
      RunInv(c, before);
      BegunStep(c, Run(c, Init(), before), actions[|actions| - 1]);
    }
    BegunAtMost(Run(c, Init(), actions));
  }

  lemma BegunAtMost(s: State)
    ensures Begun(s) <= |s.workers|
  {
  }

  lemma IdleFlushes(c: Setup, s: State, a: Action)
    requires Inv(c, s) && s.current.None?
    ensures Step(c, s, a).flushes == s.flushes
  {
    if a.Take? || a.More? {
      hide WriteOut;
    } else {
      hide Receive, Concat;
    }
  }

  /** No Flush finds a worker where none ever ran. */
  lemma {:induction false} NoRunNoFlush(c: Setup, actions: seq<Action>)
    requires c.Valid() && NonEmptyLines(c) && Entered(c, actions) == 0
    ensures Run(c, Init(), actions).current.None? && Run(c, Init(), actions).flushes == 0
  {
    if actions != [] {
      var before := actions[..|actions| - 1];
      hide Inv, Step, Enters;
      NoRunNoFlush(c, before);
      RunInv(c, before);
      FlushesGrow(c, Run(c, Init(), before), actions[|actions| - 1]);
      IdleFlushes(c, Run(c, Init(), before), actions[|actions| - 1]);
    }
  }

  /** Every rotated file of the run is smaller than the bound. */
  ghost predicate RotatedBelow(c: Setup, actions: seq<Action>, initial: bytes, maxFileSize: int, bound: int) {
    var groups := Rotation.Split(initial, Outputs(Run(c, Init(), actions)), maxFileSize);
    forall k :: 0 <= k < |groups| - 1 ==> |Rotation.Texts(groups[k])| < bound
  }

  /** The run has no more effective Flush calls and worker runs than these. */
  ghost predicate Within(c: Setup, actions: seq<Action>, flushes: nat, starts: nat) {
    Run(c, Init(), actions).flushes <= flushes && Entered(c, actions) <= starts
  }

  /** A run that breaks the bound is made with one Flush, or with two starts. */
  lemma BoundFails(c: Setup, initial: bytes, maxFileSize: int, bound: nat, flushes: nat, starts: nat)
    returns (actions: seq<Action>)
    requires c.Valid() && NonEmptyLines(c) && maxFileSize > 0 && starts >= 1 && (flushes >= 1 || starts >= 2)
    ensures Within(c, actions, flushes, starts) && !RotatedBelow(c, actions, initial, maxFileSize, bound)
  {
    if flushes >= 1 {
      actions := FlushGrows(c, initial, maxFileSize, bound);
    } else {
      actions := RestartGrows(c, initial, maxFileSize, bound);
    }
    EnteredBegun(c, actions);
  }

  /** For a file that is found below MaxFileSize, the bound on rotated files is
      kept by all runs with at most so many effective Flush calls and so many
      worker runs if and only if no worker runs at all, or one does and no Flush
      is called. */
  lemma RotatedSizeExact(c: Setup, longest: nat, initial: bytes, maxFileSize: int, flushes: nat, starts: nat)
    requires c.Valid() && NonEmptyLines(c) && |initial| < maxFileSize
    requires forall id: nat, ts: int :: |c.format(id, ts)| <= longest
    ensures (forall actions :: Within(c, actions, flushes, starts) ==>
              RotatedBelow(c, actions, initial, maxFileSize, maxFileSize + c.threshold + longest))
            <==> starts == 0 || (starts == 1 && flushes == 0)
  {
    if starts == 0 || (starts == 1 && flushes == 0) {
      forall actions | Within(c, actions, flushes, starts)
        ensures RotatedBelow(c, actions, initial, maxFileSize, maxFileSize + c.threshold + longest)
      {
        if starts == 0 {
          NoRunNoFlush(c, actions);
        }
        RotatedSize(c, actions, longest, initial, maxFileSize);
      }
    } else {
      var actions := BoundFails(c, initial, maxFileSize, maxFileSize + c.threshold + longest, flushes, starts);
    }
  }
}
