/** Flush and Close: what they guarantee when they return, when they block, and
    that the drain loops end. */
module PipelineFlush {
  import opened Basics
  import opened Pipeline
  import opened PipelineSafety

  // -- What one worker action can change ------------------------------------------------

  /** The shape of a worker action: which places follow which, and what moves. */
  ghost predicate Effect(s: State, t: State, w: nat)
    requires w < |s.workers| && w < |t.workers|
  {
    var pc, pc' := s.workers[w].pc, t.workers[w].pc;
    && t.taken <= s.taken + 1 && s.taken <= t.taken
    && (t.taken > s.taken ==> Draws(pc) && pc'.Batch? && Queued(s) > 0)
    && (t.flushed == s.flushed || t.flushed == s.taken)
    && (t.flushCh == s.flushCh
        || (pc.Loop? && s.flushCh.Some? && t.flushCh.None? && pc' == FlushDrain(s.flushCh.value)))
    && (pc' == pc || Follows(s, t, pc, pc'))
    && (t.closedDone == s.closedDone
        || (pc.FlushWrite? && t.closedDone == s.closedDone + {pc.flush} && t.flushed == s.taken))
    && (pc.FlushWrite? && pc' != pc ==> pc.flush in t.closedDone)
    && (t.current == s.current || (pc.Created? && t.current == Some(w) && pc'.Loop?))
  }

  ghost predicate Follows(s: State, t: State, pc: Pc, pc': Pc) {
    match pc'
    case Created => false
    case Loop => pc.Created? || pc.FlushWrite? || (pc.Batch? && pc.back.ToLoop?)
    case Batch(_, _, back) =>
      && t.taken == s.taken + 1
      && (match back
          case ToLoop => pc.Loop? || (pc.Batch? && pc.back == back)
          case ToFlush(f) => pc == FlushDrain(f) || (pc.Batch? && pc.back == back)
          case ToExit => pc.ExitDrain? || (pc.Batch? && pc.back == back))
    case FlushDrain(f) => (pc.Loop? && s.flushCh == Some(f) && t.flushCh.None?) || (pc.Batch? && pc.back == ToFlush(f))
    case FlushWrite(f) => pc == FlushDrain(f) && Queued(s) <= 0
    case ExitDrain => pc.Loop? || (pc.Batch? && pc.back == ToExit)
    case ExitWrite => pc.ExitDrain? && Queued(s) <= 0
    case Stopping => pc.ExitWrite? && t.flushed == s.taken
    case Exited => pc.Created? || pc.Stopping?
  }

  /** What stays the same under every worker action. */
  ghost predicate Untouched(s: State, t: State, w: nat)
    requires w < |s.workers|
  {
    && |t.workers| == |s.workers|
    && (forall v :: 0 <= v < |s.workers| && v != w ==> t.workers[v] == s.workers[v])
    && t.sent == s.sent && t.flusher == s.flusher && t.flushes == s.flushes
    && t.returned == s.returned && t.timedOut == s.timedOut && t.closer == s.closer
  }

  lemma WorkerUntouched(c: Setup, s: State, w: nat, a: Action)
    requires w < |s.workers| && IsWorker(a)
    ensures Untouched(s, WorkerStep(c, s, w, a), w)
  {
    if a.Take? || a.More? {
      hide WriteOut, Untouched;
      ReceiveUntouched(c, s, w, a);
    } else {
      hide Receive;
    }
  }

  lemma ReceiveUntouched(c: Setup, s: State, w: nat, a: Action)
    requires w < |s.workers| && (a.Take? || a.More?)
    ensures Untouched(s, WorkerStep(c, s, w, a), w)
  {
    hide WriteOut;
  }

  lemma BatchEffect(c: Setup, s: State, w: nat, a: Action)
    requires Inv(c, s) && w < |s.workers| && (a.Take? || a.More? || a.EndBatch? || a.Tick?) && a.w == w
    ensures |WorkerStep(c, s, w, a).workers| == |s.workers| && Effect(s, WorkerStep(c, s, w, a), w)
  {
    hide Inv;
    if a.Take? || a.More? {
      hide WriteOut;
    } else if Live(s.workers[w].pc) {
      hide Receive;
      WriteOutInv(c, s, w, true);
    }
  }

  lemma FinishEffect(c: Setup, s: State, w: nat, a: Action)
    requires Inv(c, s) && w < |s.workers| && (a.FinishFlush? || a.FinishExit?) && a.w == w
    ensures |WorkerStep(c, s, w, a).workers| == |s.workers| && Effect(s, WorkerStep(c, s, w, a), w)
  {
    hide Inv;
    if Live(s.workers[w].pc) {
      WriteOutInv(c, s, w, false);
    }
  }

  predicate Writes(a: Action) {
    a.Take? || a.More? || a.EndBatch? || a.Tick? || a.FinishFlush? || a.FinishExit?
  }

  lemma PlaceEffect(c: Setup, s: State, w: nat, a: Action)
    requires s.taken <= |s.sent| && w < |s.workers| && IsWorker(a) && a.w == w && !Writes(a)
    ensures |WorkerStep(c, s, w, a).workers| == |s.workers| && Effect(s, WorkerStep(c, s, w, a), w)
  {
    hide Concat, Receive, WriteOut;
  }

  lemma WorkerEffect(c: Setup, s: State, w: nat, a: Action)
    requires Inv(c, s) && w < |s.workers| && IsWorker(a) && a.w == w
    ensures Untouched(s, WorkerStep(c, s, w, a), w)
    ensures Effect(s, WorkerStep(c, s, w, a), w)
  {
    hide WorkerStep, Effect, Untouched;
    WorkerUntouched(c, s, w, a);
    if a.FinishFlush? || a.FinishExit? {
      FinishEffect(c, s, w, a);
    } else if Writes(a) {
      BatchEffect(c, s, w, a);
    } else {
      PlaceEffect(c, s, w, a);
    }
  }

  // -- Flush ---------------------------------------------------------------------------

  /** The Flush request a worker is serving. */
  function Serving(pc: Pc): Option<Flush> {
    match pc
    case FlushDrain(flush) => Some(flush)
    case FlushWrite(flush) => Some(flush)
    case Batch(_, _, ToFlush(flush)) => Some(flush)
    case _ => None
  }

  ghost predicate ServingOk(s: State, w: nat)
    requires w < |s.workers|
  {
    var pc := s.workers[w].pc;
    && (Serving(pc).Some? ==> Serving(pc).value.mark <= |s.sent| && Known(s, Serving(pc).value)
                              && s.flushCh != Serving(pc))
    && (pc.FlushWrite? ==> pc.flush.mark <= s.taken)
  }

  /** Issued before the request that is still being sent, if any. */
  predicate Known(s: State, f: Flush) {
    f.id < (if s.flusher.Sending? then s.flusher.flush.id else s.flushes)
  }

  ghost predicate RequestsOk(s: State) {
    && (s.flusher.Sending? ==> s.flusher.flush.mark <= |s.sent| && s.flusher.flush.id < s.flushes)
    && (s.flusher.Waiting? ==> Known(s, s.flusher.flush) && s.flusher.flush.mark <= |s.sent|)
    && (s.flushCh.Some? ==>
          && Known(s, s.flushCh.value) && s.flushCh.value.mark <= |s.sent|
          && s.flushCh.value !in s.closedDone
          && (s.flusher == Waiting(s.flushCh.value) || s.flushCh.value in s.timedOut)
          && (s.flusher.Waiting? ==> s.flusher.flush == s.flushCh.value))
    && (forall f :: f in s.closedDone ==> Known(s, f) && f.mark <= s.flushed)
    && s.returned <= s.closedDone
  }

  ghost predicate FlushInv(s: State) {
    && RequestsOk(s)
    && (forall w :: 0 <= w < |s.workers| ==> ServingOk(s, w))
  }

  lemma OnlyServer(c: Setup, s: State, v: nat, w: nat)
    requires Inv(c, s) && v < |s.workers| && w < |s.workers| && Live(s.workers[v].pc) && Live(s.workers[w].pc)
    ensures v == w
  {
    assert WorkerOk(s, v) && WorkerOk(s, w);
  }

  lemma FlushWorkerStep(c: Setup, s: State, w: nat, a: Action)
    requires Inv(c, s) && FlushInv(s) && IsWorker(a) && a.w == w
    ensures FlushInv(WorkerStep(c, s, w, a))
  {
    hide Inv, WorkerStep;
    var t := WorkerStep(c, s, w, a);
    if w < |s.workers| {
      WorkerEffect(c, s, w, a);
      FlushedGrows(c, s, a);
      assert ServingOk(s, w);
      forall v | 0 <= v < |t.workers|
        ensures ServingOk(t, v)
      {
        assert ServingOk(s, v);
      }
    } else {
      assert t == s by { NoWorker(c, s, w, a); }
    }
  }

  lemma NoWorker(c: Setup, s: State, w: nat, a: Action)
    requires w >= |s.workers|
    ensures WorkerStep(c, s, w, a) == s
  {
  }

  lemma FlushedGrows(c: Setup, s: State, a: Action)
    requires Inv(c, s)
    ensures s.flushed <= Step(c, s, a).flushed
    ensures s.taken <= Step(c, s, a).taken && |s.sent| <= |Step(c, s, a).sent|
  {
    hide WorkerStep, Concat;
    if IsWorker(a) {
      hide ProducerStep, CallerStep;
      if a.w < |s.workers| {
        WorkerEffect(c, s, a.w, a);
      } else {
        NoWorker(c, s, a.w, a);
      }
    }
  }

  lemma FlushStep(c: Setup, s: State, a: Action)
    requires Inv(c, s) && FlushInv(s)
    ensures FlushInv(Step(c, s, a))
  {
    if IsWorker(a) {
      hide Inv, WorkerStep, ProducerStep, CallerStep, FlushInv;
      FlushWorkerStep(c, s, a.w, a);
    } else if IsProducer(a) {
      hide Inv, WorkerStep, ProducerStep, CallerStep, FlushInv;
      FlushProducerStep(c, s, a);
    } else {
      hide Inv, WorkerStep, ProducerStep, CallerStep, FlushInv;
      FlushCallerStep(s, a);
    }
  }

  lemma FlushProducerStep(c: Setup, s: State, a: Action)
    requires FlushInv(s)
    ensures FlushInv(ProducerStep(c, s, a))
  {
    var t := ProducerStep(c, s, a);
    forall v | 0 <= v < |t.workers|
      ensures ServingOk(t, v)
    {
      assert ServingOk(s, v);
    }
  }

  lemma FlushCallerStep(s: State, a: Action)
    requires FlushInv(s)
    ensures FlushInv(CallerStep(s, a))
  {
    var t := CallerStep(s, a);
    forall v | 0 <= v < |t.workers|
      ensures ServingOk(t, v)
    {
      assert v < |s.workers| ==> ServingOk(s, v);
    }
  }

  lemma {:induction false} FlushRun(c: Setup, actions: seq<Action>)
    requires c.Valid() && NonEmptyLines(c)
    ensures FlushInv(Run(c, Init(), actions))
  {
    if actions != [] {
      var before := actions[..|actions| - 1];
      FlushRun(c, before);
      RunInv(c, before);
      FlushStep(c, Run(c, Init(), before), actions[|actions| - 1]);
    }
  }

  /** When Flush returns through its own done channel, every entry sent to the
      channel before the call has reached the writer, even if earlier Flush
      calls timed out and left requests behind. */
  lemma FlushGuarantee(c: Setup, actions: seq<Action>, f: Flush, k: nat)
    requires c.Valid() && NonEmptyLines(c)
    requires f in Run(c, Init(), actions).returned && k < f.mark
    ensures var s := Run(c, Init(), actions);
            && f.mark <= s.flushed
            && s.flushed <= |s.lines| && k < |s.sent| && At(s, s.sent[k], Written)
            && s.written == Concat(s.lines[..f.mark]) + Concat(s.lines[f.mark..s.flushed])
  {
    var s := Run(c, Init(), actions);
    FlushRun(c, actions);
    RunInv(c, actions);
    ConcatSplit(s.lines[..s.flushed], f.mark);
    assert s.lines[..s.flushed][..f.mark] == s.lines[..f.mark];
    assert s.lines[..s.flushed][f.mark..] == s.lines[f.mark..s.flushed];
  }

  /** A worker has received the request: it serves it, or has answered it. */
  ghost predicate TakenUp(s: State, f: Flush) {
    f in s.closedDone || exists w :: 0 <= w < |s.workers| && Serving(s.workers[w].pc) == Some(f)
  }

  /** Every request that was put into the channel is still there or was taken up. */
  ghost predicate SentInv(s: State) {
    forall f :: f in s.timedOut || s.flusher == Waiting(f) ==> s.flushCh == Some(f) || TakenUp(s, f)
  }

  /** A request stays taken up under every worker action. */
  lemma TakenUpStays(s: State, t: State, w: nat, f: Flush)
    requires w < |s.workers| && Untouched(s, t, w) && Effect(s, t, w)
    requires s.flushCh == Some(f) || TakenUp(s, f)
    ensures t.flushCh == Some(f) || TakenUp(t, f)
  {
    if TakenUp(s, f) && f !in s.closedDone {
      var v :| 0 <= v < |s.workers| && Serving(s.workers[v].pc) == Some(f);
      assert v != w ==> Serving(t.workers[v].pc) == Some(f);
      assert v == w ==> f in t.closedDone || Serving(t.workers[w].pc) == Some(f);
    } else if s.flushCh == Some(f) {
      assert t.flushCh != s.flushCh ==> Serving(t.workers[w].pc) == Some(f);
    }
  }

  lemma SentCaller(s: State, a: Action)
    requires SentInv(s)
    ensures SentInv(CallerStep(s, a))
  {
    var t := CallerStep(s, a);
    forall f | f in t.timedOut || t.flusher == Waiting(f)
      ensures t.flushCh == Some(f) || TakenUp(t, f)
    {
      if s.flushCh != Some(f) && TakenUp(s, f) && f !in s.closedDone {
        var w :| 0 <= w < |s.workers| && Serving(s.workers[w].pc) == Some(f);
        assert Serving(t.workers[w].pc) == Some(f);
      }
    }
  }

  lemma SentProducer(c: Setup, s: State, a: Action)
    requires SentInv(s)
    ensures SentInv(ProducerStep(c, s, a))
  {
    var t := ProducerStep(c, s, a);
    assert t.workers == s.workers && t.closedDone == s.closedDone && t.flushCh == s.flushCh;
    assert t.timedOut == s.timedOut && t.flusher == s.flusher;
    hide ProducerStep;
    forall f | f in t.timedOut || t.flusher == Waiting(f)
      ensures t.flushCh == Some(f) || TakenUp(t, f)
    {
      assert TakenUp(s, f) ==> TakenUp(t, f);
    }
  }

  lemma SentStep(c: Setup, s: State, a: Action)
    requires Inv(c, s) && SentInv(s)
    ensures SentInv(Step(c, s, a))
  {
    hide Inv, WorkerStep, ProducerStep, CallerStep;
    if IsProducer(a) {
      hide SentInv;
      SentProducer(c, s, a);
    } else if !IsWorker(a) {
      hide SentInv;
      SentCaller(s, a);
    } else if a.w >= |s.workers| {
      NoWorker(c, s, a.w, a);
    } else {
      hide Effect, TakenUp;
      var t := WorkerStep(c, s, a.w, a);
      WorkerEffect(c, s, a.w, a);
      forall f | f in t.timedOut || t.flusher == Waiting(f)
        ensures t.flushCh == Some(f) || TakenUp(t, f)
      {
        TakenUpStays(s, t, a.w, f);
      }
    }
  }

  lemma {:induction false} SentRun(c: Setup, actions: seq<Action>)
    requires c.Valid() && NonEmptyLines(c)
    ensures SentInv(Run(c, Init(), actions))
  {
    if actions != [] {
      var before := actions[..|actions| - 1];
      SentRun(c, before);
      RunInv(c, before);
      SentStep(c, Run(c, Init(), before), actions[|actions| - 1]);
    }
  }

  /** The send on flushCh blocks exactly when some earlier Flush timed out and no
      worker, running or stopped since, has ever received its request. Holding
      flushMu does not by itself keep the channel empty; it does as long as no
      Flush ever timed out. */
  lemma FlushSendBlocks(c: Setup, actions: seq<Action>)
    requires c.Valid() && NonEmptyLines(c) && Run(c, Init(), actions).flusher.Sending?
    ensures var s := Run(c, Init(), actions);
            && (s.flushCh.Some? <==> exists f :: f in s.timedOut && !TakenUp(s, f))
            && (s.timedOut == {} ==> s.flushCh.None?)
  {
    FlushRun(c, actions);
    SentRun(c, actions);
    var s := Run(c, Init(), actions);
    if s.flushCh.Some? {
      var f := s.flushCh.value;
      assert f in s.timedOut;
      forall w | 0 <= w < |s.workers|
        ensures Serving(s.workers[w].pc) != Some(f)
      {
        assert ServingOk(s, w);
      }
      assert !TakenUp(s, f);
    }
  }

  lemma Then(c: Setup, actions: seq<Action>, a: Action) returns (more: seq<Action>)
    ensures Run(c, Init(), more) == Step(c, Run(c, Init(), actions), a)
  {
    more := actions + [a];
    assert more[..|more| - 1] == actions;
  }

  /** Starting the first worker. */
  lemma StartFirst(c: Setup) returns (actions: seq<Action>)
    ensures Run(c, Init(), actions) ==
            Init().(running := true, current := Some(0), workers := [Worker(Loop, [], false)])
  {
    hide Run;
    actions := [];
    assert Run(c, Init(), actions) == Init() by { RunNothing(c); }
    actions := Then(c, actions, Spawn);
    assert Run(c, Init(), actions).workers == [Worker(Created, [], false)];
    actions := Then(c, actions, Begin(0));
  }

  /** A worker with nothing to do stops when its context is cancelled. */
  lemma StopIdle(c: Setup, actions: seq<Action>) returns (more: seq<Action>)
    requires Run(c, Init(), actions).workers == [Worker(Loop, [], false)] && Queued(Run(c, Init(), actions)) == 0
    ensures Run(c, Init(), more) ==
            Run(c, Init(), actions).(running := false, workers := [Worker(Exited, [], true)])
  {
    hide Run, Step;
    var s := Run(c, Init(), actions);
    more := Then(c, actions, Cancel(0));
    more := Then(c, more, SeeCancel(0));
    IdleCancels(c, s);
    more := Then(c, more, SeeEmpty(0));
    more := Then(c, more, FinishExit(0));
    more := Then(c, more, Exit(0));
    IdleExits(c, s.(workers := [Worker(ExitDrain, [], true)]));
  }

  lemma IdleCancels(c: Setup, s: State)
    requires s.workers == [Worker(Loop, [], false)]
    ensures Step(c, Step(c, s, Cancel(0)), SeeCancel(0)) == s.(workers := [Worker(ExitDrain, [], true)])
  {
    assert Step(c, s, Cancel(0)).workers == [Worker(Loop, [], true)];
  }

  lemma IdleExits(c: Setup, s: State)
    requires s.workers == [Worker(ExitDrain, [], true)] && Queued(s) == 0
    ensures Step(c, Step(c, Step(c, s, SeeEmpty(0)), FinishExit(0)), Exit(0)) ==
            s.(running := false, workers := [Worker(Exited, [], true)])
  {
    var t := s.(workers := [Worker(ExitWrite, [], true)]);
    assert Step(c, s, SeeEmpty(0)) == t;
    assert Step(c, t, FinishExit(0)) == s.(workers := [Worker(Stopping, [], true)]);
  }

  /** A run in which the send blocks: a Flush times out before the worker takes
      its request, and the next Flush finds the channel full. The worker then
      stops on a cancelled context, and no worker is left to empty it. */
  lemma FlushCanBlock(c: Setup) returns (actions: seq<Action>)
    ensures var s := Run(c, Init(), actions);
            s.flusher.Sending? && s.flushCh.Some? && !s.running
  {
    hide Run, WorkerStep;
    actions := StartFirst(c);
    var s := Run(c, Init(), actions);
    var f := Flush(0, 0);
    actions := Then(c, actions, FlushBegin);
    assert Run(c, Init(), actions) == s.(flusher := Sending(f), flushes := 1);
    actions := Then(c, actions, FlushSend);
    assert Run(c, Init(), actions) == s.(flusher := Waiting(f), flushes := 1, flushCh := Some(f));
    actions := Then(c, actions, FlushTimeout);
    assert Run(c, Init(), actions) == s.(flusher := Free, flushes := 1, flushCh := Some(f), timedOut := {f});
    actions := Then(c, actions, FlushBegin);
    actions := StopIdle(c, actions);
  }

  lemma RunNothing(c: Setup)
    ensures Run(c, Init(), []) == Init()
  {
  }

  /** Such a Flush stays blocked, holding flushMu, until a worker takes the old
      request; with no worker in the loop and no new Start that never happens. */
  lemma {:induction false} BlockedWithoutWorker(c: Setup, s: State, actions: seq<Action>)
    requires Inv(c, s) && !s.running && s.flusher.Sending? && s.flushCh.Some?
    requires forall k :: 0 <= k < |actions| ==> !actions[k].Begin?
    ensures var t := Run(c, s, actions);
            Inv(c, t) && !t.running && t.flusher == s.flusher && t.flushCh == s.flushCh
  {
    if actions != [] {
      var before := actions[..|actions| - 1];
      BlockedWithoutWorker(c, s, before);
      var a := actions[|actions| - 1];
      StepInv(c, Run(c, s, before), a);
      BlockedStep(c, Run(c, s, before), a);
    }
  }

  lemma BlockedStep(c: Setup, s: State, a: Action)
    requires Inv(c, s) && !s.running && s.flusher.Sending? && s.flushCh.Some? && !a.Begin?
    ensures var t := Step(c, s, a); !t.running && t.flusher == s.flusher && t.flushCh == s.flushCh
  {
    hide Concat, Receive, WriteOut;
    if IsWorker(a) && a.w < |s.workers| {
      assert WorkerOk(s, a.w);
    }
  }

  // -- Close ------------------------------------------------------------------------------

  /** The captured run has taken its last look at the channel. */
  predicate PastLastLook(s: State, run: Option<nat>) {
    run.Some? ==> run.value < |s.workers| && !Draws(s.workers[run.value].pc) && !s.workers[run.value].pc.Created?
  }

  predicate Finished(s: State, run: Option<nat>) {
    run.Some? ==> run.value < |s.workers| && (s.workers[run.value].pc.Stopping? || s.workers[run.value].pc.Exited?)
  }

  ghost predicate CloseInv(s: State) {
    match s.closer
    case Open => true
    case Closing(run, mark, live, pending) => CaptureOk(s, run, mark, live, pending)
    case Closed(run, mark, live, pending, stopped) =>
      CaptureOk(s, run, mark, live, pending) && (stopped ==> Finished(s, run))
  }

  ghost predicate CaptureOk(s: State, run: Option<nat>, mark: nat, live: bool, pending: bool) {
    && mark <= |s.sent|
    && (run.Some? ==> run.value < |s.workers| && !s.workers[run.value].pc.Created?)
    && (live ==> run.Some?)
    && (!live ==> PastLastLook(s, run))
    && (!pending ==> mark <= s.taken)
    && (live && PastLastLook(s, run) ==> mark <= s.taken)
    && ((live || !pending) && Finished(s, run) ==> mark <= s.flushed)
    && (!live && pending && s.current == run ==> s.taken < mark)
  }

  lemma CaptureWorker(c: Setup, s: State, t: State, w: nat, run: Option<nat>, mark: nat, live: bool, pending: bool)
    requires Inv(c, s) && CaptureOk(s, run, mark, live, pending)
    requires w < |s.workers| && Untouched(s, t, w) && Effect(s, t, w) && s.flushed <= t.flushed
    ensures CaptureOk(t, run, mark, live, pending)
  {
    hide Unwritten;
    assert WorkerOk(s, w);
    if run.Some? {
      assert WorkerOk(s, run.value);
    }
  }

  lemma CaptureStep(c: Setup, s: State, a: Action, run: Option<nat>, mark: nat, live: bool, pending: bool)
    requires Inv(c, s) && CaptureOk(s, run, mark, live, pending)
    ensures CaptureOk(Step(c, s, a), run, mark, live, pending)
  {
    hide Inv, WorkerStep;
    if IsWorker(a) {
      hide CaptureOk, ProducerStep, CallerStep;
      FlushedGrows(c, s, a);
      if a.w < |s.workers| {
        WorkerEffect(c, s, a.w, a);
        CaptureWorker(c, s, Step(c, s, a), a.w, run, mark, live, pending);
      } else {
        NoWorker(c, s, a.w, a);
      }
    }
  }

  lemma CaptureBegin(c: Setup, s: State)
    requires Inv(c, s) && s.closer.Open?
    ensures CloseInv(Step(c, s, CloseBegin))
  {
    hide Concat;
    if s.current.Some? {
      assert WorkerOk(s, s.current.value);
      assert Live(s.workers[s.current.value].pc) || s.workers[s.current.value].pc.Exited?;
    }
  }

  lemma CloserMoves(c: Setup, s: State, a: Action)
    requires Inv(c, s)
    ensures var t := Step(c, s, a);
            match s.closer
            case Open => t.closer.Open? || a.CloseBegin?
            case Closing(run, mark, live, pending) =>
              t.closer == s.closer || t.closer == Closed(run, mark, live, pending, false)
              || (t.closer == Closed(run, mark, live, pending, true) && Finished(t, run))
            case Closed(run, mark, live, pending, stopped) =>
              t.closer == s.closer && (Finished(s, run) ==> Finished(t, run))
  {
    hide Inv, WorkerStep;
    if IsWorker(a) {
      hide ProducerStep, CallerStep, Effect, Untouched, Finished;
      if a.w < |s.workers| {
        WorkerEffect(c, s, a.w, a);
        CloserKept(s, WorkerStep(c, s, a.w, a), a.w);
      } else {
        NoWorker(c, s, a.w, a);
      }
    }
  }

  lemma CloserKept(s: State, t: State, w: nat)
    requires w < |s.workers| && Untouched(s, t, w) && Effect(s, t, w)
    ensures t.closer == s.closer
    ensures forall run :: Finished(s, run) ==> Finished(t, run)
  {
  }

  lemma CloseStep(c: Setup, s: State, a: Action)
    requires Inv(c, s) && CloseInv(s)
    ensures CloseInv(Step(c, s, a))
  {
    hide CaptureOk, Inv, Step, Finished;
    CloserMoves(c, s, a);
    match s.closer {
      case Open =>
        if a.CloseBegin? {
          CaptureBegin(c, s);
        }
      case Closing(run, mark, live, pending) =>
        CaptureStep(c, s, a, run, mark, live, pending);
      case Closed(run, mark, live, pending, stopped) =>
        CaptureStep(c, s, a, run, mark, live, pending);
    }
  }

  lemma {:induction false} CloseRun(c: Setup, actions: seq<Action>)
    requires c.Valid() && NonEmptyLines(c)
    ensures CloseInv(Run(c, Init(), actions))
  {
    if actions != [] {
      var before := actions[..|actions| - 1];
      CloseRun(c, before);
      RunInv(c, before);
      CloseStep(c, Run(c, Init(), before), actions[|actions| - 1]);
    }
  }

  /** What Close guarantees when it returns because the worker stopped. If the
      worker had not taken its last look at the channel when Close was called,
      or the channel was empty, every entry sent before the call is written.
      Otherwise, unless a worker is started again, some of those entries are
      still in the channel: Close then returns at once and leaves them there. */
  lemma CloseExact(c: Setup, actions: seq<Action>)
    requires c.Valid() && NonEmptyLines(c)
    requires Run(c, Init(), actions).closer.Closed? && Run(c, Init(), actions).closer.stopped
    ensures var s := Run(c, Init(), actions);
            && s.closer.mark <= |s.sent|
            && (s.closer.live || !s.closer.pending ==> s.closer.mark <= s.flushed)
            && (s.current == s.closer.run ==>
                  (s.closer.mark <= s.flushed <==> s.closer.live || !s.closer.pending))
  {
    CloseRun(c, actions);
    RunInv(c, actions);
  }

  /** A run in which Close loses sight of an entry: the worker stopped on its
      context, an entry was sent after that, and Close returned at once. */
  lemma CloseLeavesEntry(c: Setup) returns (actions: seq<Action>)
    requires c.Valid()
    ensures var s := Run(c, Init(), actions);
            s.closer.Closed? && s.closer.stopped && s.closer.mark == 1 && s.flushed == 0 && At(s, 0, InChannel)
  {
    hide Run, WorkerStep;
    actions := StartFirst(c);
    actions := StopIdle(c, actions);
    assert Run(c, Init(), actions) == Init().(current := Some(0), workers := [Worker(Exited, [], true)]);
    actions := Then(c, actions, Dispatch(false));
    assert Run(c, Init(), actions) ==
           Init().(current := Some(0), workers := [Worker(Exited, [], true)], arrived := 1, sent := [0]);
    actions := Then(c, actions, CloseBegin);
    actions := Then(c, actions, CloseReturn);
    assert Run(c, Init(), actions).sent[0] == 0;
  }

  // -- The drain loops end --------------------------------------------------------------------

  /** Inside the drain loop of a Flush request or of drainAndFlush. */
  predicate Draining(pc: Pc) {
    pc.FlushDrain? || pc.FlushWrite? || pc.ExitDrain? || pc.ExitWrite? || (pc.Batch? && !pc.back.ToLoop?)
  }

  function Rank(pc: Pc): nat {
    if pc.Batch? then 3 else if pc.FlushDrain? || pc.ExitDrain? then 2 else 1
  }

  /** An upper bound on what is left to do when nobody sends. */
  function Remaining(s: State, w: nat): int
    requires w < |s.workers|
  {
    2 * Queued(s) + Rank(s.workers[w].pc)
  }

  predicate ByWorker(a: Action, w: nat) {
    IsWorker(a) && !a.Cancel? && a.w == w
  }

  /** Actions the worker takes before it leaves the drain loop it is in. */
  function DrainMoves(c: Setup, s: State, actions: seq<Action>, w: nat): nat
    requires w < |s.workers|
    decreases |actions|
  {
    if actions == [] || !Draining(s.workers[w].pc) then 0
    else
      var t := Step(c, s, actions[0]);
      (if ByWorker(actions[0], w) && t != s then 1 else 0)
      + (if w < |t.workers| then DrainMoves(c, t, actions[1..], w) else 0)
  }

  function Sends(actions: seq<Action>): nat {
    if actions == [] then 0
    else (if actions[0].Dispatch? || actions[0].WaitSend? then 1 else 0) + Sends(actions[1..])
  }

  lemma OwnDrainStep(c: Setup, s: State, a: Action, w: nat)
    requires w < |s.workers| && Draining(s.workers[w].pc) && ByWorker(a, w)
    ensures var t := WorkerStep(c, s, w, a);
            && w < |t.workers|
            && (Draining(t.workers[w].pc) ==>
                  Remaining(t, w) <= Remaining(s, w) - (if t != s then 1 else 0))
  {
  }

  lemma DrainStep(c: Setup, s: State, a: Action, w: nat)
    requires Inv(c, s) && w < |s.workers| && Draining(s.workers[w].pc)
    ensures var t := Step(c, s, a);
            && w < |t.workers|
            && (Draining(t.workers[w].pc) ==>
                  Remaining(t, w) <= Remaining(s, w) + (if a.Dispatch? || a.WaitSend? then 2 else 0)
                                     - (if ByWorker(a, w) && t != s then 1 else 0))
  {
    hide Inv, WorkerStep;
    if ByWorker(a, w) {
      hide ProducerStep, CallerStep;
      OwnDrainStep(c, s, a, w);
    } else if IsWorker(a) {
      hide ProducerStep, CallerStep, Remaining;
      if a.w < |s.workers| {
        OtherDrainStep(c, s, a, w);
      } else {
        NoWorker(c, s, a.w, a);
      }
    }
  }

  lemma OtherDrainStep(c: Setup, s: State, a: Action, w: nat)
    requires Inv(c, s) && w < |s.workers| && Draining(s.workers[w].pc)
    requires IsWorker(a) && !ByWorker(a, w) && a.w < |s.workers|
    ensures var t := WorkerStep(c, s, a.w, a); w < |t.workers| && Remaining(t, w) <= Remaining(s, w)
  {
    hide Inv, WorkerStep;
    WorkerEffect(c, s, a.w, a);
    if a.Cancel? {
      CancelKeeps(c, s, a);
    } else if Live(s.workers[a.w].pc) {
      OnlyServer(c, s, a.w, w);
    }
  }

  lemma CancelKeeps(c: Setup, s: State, a: Action)
    requires a.Cancel? && a.w < |s.workers|
    ensures var t := WorkerStep(c, s, a.w, a); t.workers[a.w].pc == s.workers[a.w].pc && t.taken == s.taken
  {
  }

  /** If m more entries are sent while a worker drains, it leaves the loop after
      at most 2*(queued + m) + 3 of its own actions: a drain always ends once
      the producers pause. */
  lemma {:induction false} DrainEnds(c: Setup, s: State, actions: seq<Action>, w: nat)
    requires Inv(c, s) && w < |s.workers| && Draining(s.workers[w].pc)
    ensures DrainMoves(c, s, actions, w) <= Remaining(s, w) + 2 * Sends(actions)
    ensures Remaining(s, w) <= 2 * Queued(s) + 3
    decreases |actions|
  {
    if actions != [] {
      var t := Step(c, s, actions[0]);
      DrainStep(c, s, actions[0], w);
      StepInv(c, s, actions[0]);
      hide Inv, Step;
      if Draining(t.workers[w].pc) {
        DrainEnds(c, t, actions[1..], w);
      }
    }
  }

  /** A draining worker always has a next action: it is never stuck. */
  lemma DrainCanMove(c: Setup, s: State, w: nat) returns (a: Action)
    requires w < |s.workers| && Draining(s.workers[w].pc)
    ensures ByWorker(a, w) && w < |Step(c, s, a).workers| && Step(c, s, a).workers[w].pc != s.workers[w].pc
  {
    var pc := s.workers[w].pc;
    match pc {
      case FlushDrain(_) => a := if Queued(s) > 0 then Take(w, 0) else SeeEmpty(w);
      case ExitDrain => a := if Queued(s) > 0 then Take(w, 0) else SeeEmpty(w);
      case FlushWrite(_) => a := FinishFlush(w);
      case ExitWrite => a := FinishExit(w);
      case Batch(n, _, _) =>
        a := if n < BATCH_MAX && |s.workers[w].buf| < c.threshold && Queued(s) > 0 then More(w) else EndBatch(w);
    }
  }
}
