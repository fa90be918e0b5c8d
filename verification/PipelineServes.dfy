/** Flush, Close and the ticker do what they are for: the runs in which they
    succeed, from every state a run can reach. */
module PipelineServes {
  import opened Basics
  import opened Pipeline
  import opened PipelineSafety
  import opened PipelineFlush

  // -- The ticker -----------------------------------------------------------------------

  /** After a tick everything received has been written; if anything was left to
      write, it was one write with a rotation check. */
  lemma TickWrites(c: Setup, s: State, w: nat)
    requires Inv(c, s) && w < |s.workers| && s.workers[w].pc.Loop?
    ensures var t := Step(c, s, Tick(w));
            && t.flushed == t.taken == s.taken && t.written == Concat(t.lines)
            && t.writes == s.writes + (if s.flushed == s.taken then [] else [Write(true, s.flushed, s.taken)])
            && t.workers[w].pc.Loop? && t.workers[w].buf == []
  {
    assert WorkerOk(s, w);
    assert Inv(c, Step(c, s, Tick(w))) by { StepInv(c, s, Tick(w)); }
    var t := Step(c, s, Tick(w));
    assert s.writes + [] == s.writes;
    if s.workers[w].buf == [] {
      SomethingUnwritten(c, s);
    } else {
      assert s.flushed < s.taken by { Nothing(s); }
    }
    assert t.lines[..t.flushed] == t.lines;
  }

  lemma Nothing(s: State)
    requires s.flushed <= |s.lines|
    ensures s.flushed == |s.lines| ==> Unwritten(s) == []
  {
  }

  // -- Draining -------------------------------------------------------------------------

  /** Draining, with the channel not yet seen empty. */
  predicate Collecting(pc: Pc) {
    pc.FlushDrain? || pc.ExitDrain? || (pc.Batch? && !pc.back.ToLoop?)
  }

  /** Where the worker is once it sees the channel empty. */
  function SeenEmpty(pc: Pc): Pc
    requires Collecting(pc)
  {
    match pc
    case FlushDrain(flush) => FlushWrite(flush)
    case ExitDrain => ExitWrite
    case Batch(_, _, back) => if back.ToFlush? then FlushWrite(back.flush) else ExitWrite
  }

  /** From s to t worker w did nothing but take, format and write. */
  ghost predicate OnlyTook(s: State, t: State, w: nat)
    requires w < |s.workers|
  {
    && |t.workers| == |s.workers| && t.workers[w].cancelled == s.workers[w].cancelled
    && t.sent == s.sent && t.running == s.running && t.current == s.current
    && t.flushCh == s.flushCh && t.flusher == s.flusher && t.flushes == s.flushes
    && t.closedDone == s.closedDone && t.returned == s.returned && t.timedOut == s.timedOut && t.closer == s.closer
  }

  function NextDrain(c: Setup, s: State, w: nat): Action
    requires w < |s.workers| && Collecting(s.workers[w].pc)
  {
    var wk := s.workers[w];
    if wk.pc.Batch? then
      (if wk.pc.n < BATCH_MAX && |wk.buf| < c.threshold && Queued(s) > 0 then More(w) else EndBatch(w))
    else if Queued(s) > 0 then Take(w, 0)
    else SeeEmpty(w)
  }

  lemma CollectStep(c: Setup, s: State, w: nat)
    requires w < |s.workers| && Collecting(s.workers[w].pc) && s.taken <= |s.sent|
    ensures var a := NextDrain(c, s, w);
            var t := Step(c, s, a);
            && ByWorker(a, w) && OnlyTook(s, t, w)
            && if a.SeeEmpty? then t.workers[w].pc == SeenEmpty(s.workers[w].pc) && Queued(t) == 0
               else Collecting(t.workers[w].pc) && SeenEmpty(t.workers[w].pc) == SeenEmpty(s.workers[w].pc)
                    && Remaining(t, w) < Remaining(s, w)
  {
    if s.workers[w].pc.Batch? {
      CollectMore(c, s, w);
    } else {
      hide WriteOut, Concat;
    }
  }

  lemma CollectMore(c: Setup, s: State, w: nat)
    requires w < |s.workers| && Collecting(s.workers[w].pc) && s.workers[w].pc.Batch? && s.taken <= |s.sent|
    ensures var t := Step(c, s, NextDrain(c, s, w));
            && OnlyTook(s, t, w)
            && Collecting(t.workers[w].pc) && SeenEmpty(t.workers[w].pc) == SeenEmpty(s.workers[w].pc)
            && Remaining(t, w) < Remaining(s, w)
  {
    hide Concat;
    if NextDrain(c, s, w).More? {
      hide WriteOut;
    } else {
      hide Receive;
    }
  }

  /** The worker empties the channel by itself. */
  lemma {:induction false} DrainTo(c: Setup, s: State, w: nat) returns (actions: seq<Action>)
    requires Inv(c, s) && w < |s.workers| && Collecting(s.workers[w].pc)
    ensures var t := Run(c, s, actions);
            && Inv(c, t) && OnlyTook(s, t, w) && Queued(t) == 0
            && t.workers[w].pc == SeenEmpty(s.workers[w].pc)
    decreases Remaining(s, w)
  {
    InOrder(c, s);
    hide Step, Inv, OnlyTook, Collecting, SeenEmpty, NextDrain, Remaining, Queued;
    var a := NextDrain(c, s, w);
    var t := Step(c, s, a);
    CollectStep(c, s, w);
    StepInv(c, s, a);
    RunOne(c, s, a);
    SameWorkers(s, t, w);
    if a.SeeEmpty? {
      actions := [a];
    } else {
      var more := DrainTo(c, t, w);
      actions := [a] + more;
      RunConcat(c, s, [a], more);
      TookTwice(s, t, Run(c, t, more), w);
    }
  }

  lemma SameWorkers(s: State, t: State, w: nat)
    requires w < |s.workers| && OnlyTook(s, t, w)
    ensures |t.workers| == |s.workers|
  {
  }

  lemma TookTwice(s: State, t: State, u: State, w: nat)
    requires w < |s.workers| && OnlyTook(s, t, w) && w < |t.workers| && OnlyTook(t, u, w)
    ensures OnlyTook(s, u, w)
  {
  }

  // -- Flush ----------------------------------------------------------------------------

  /** A request is made exactly when flushMu is free and a worker runs; it covers
      everything sent before. */
  lemma FlushStarts(c: Setup, s: State, a: Action)
    ensures var t := Step(c, s, a);
            if a.FlushBegin? && s.flusher.Free? && s.running
            then t == s.(flusher := Sending(Flush(s.flushes, |s.sent|)), flushes := s.flushes + 1)
            else t.flushes == s.flushes && (a.FlushBegin? ==> t == s)
  {
    hide Concat;
  }

  /** The worker closes the done channel after one last write. */
  lemma FlushFinishes(c: Setup, s: State, w: nat, f: Flush)
    requires Inv(c, s) && w < |s.workers| && s.workers[w].pc == FlushWrite(f) && Queued(s) == 0
    ensures var t := Step(c, s, FinishFlush(w));
            && f in t.closedDone && t.flushed == t.taken == |t.sent| && t.sent == s.sent
            && t.flusher == s.flusher && t.returned == s.returned
            && w < |t.workers| && t.workers[w].pc.Loop?
  {
    WriteOutInv(c, s, w, false);
    hide Inv, Concat;
  }

  /** From every state in which a worker waits in its loop and no Flush is under
      way or has left its request behind, a Flush call returns through its done
      channel with everything sent before it written. */
  lemma FlushServed(c: Setup, s: State, w: nat) returns (actions: seq<Action>)
    requires Inv(c, s) && w < |s.workers| && s.workers[w].pc.Loop? && s.flusher.Free? && s.flushCh.None?
    ensures var t, f := Run(c, s, actions), Flush(s.flushes, |s.sent|);
            && f in t.returned && t.flusher.Free? && t.flushed == |s.sent| && t.sent == s.sent
            && w < |t.workers| && t.workers[w].pc.Loop?
  {
    assert s.running by { assert WorkerOk(s, w); }
    var f := Flush(s.flushes, |s.sent|);
    var asked := [FlushBegin, FlushSend, TakeFlush(w)];
    var u := FlushAsked(c, s, w, f);
    var drain := DrainTo(c, u, w);
    var v := Run(c, u, drain);
    hide Inv, Step, Run;
    FlushFinishes(c, v, w, f);
    var x := Step(c, v, FinishFlush(w));
    FlushReturns(c, x, f);
    RunConcat(c, s, asked, drain);
    RunConcat(c, s, asked + drain, [FinishFlush(w)]);
    RunOne(c, v, FinishFlush(w));
    RunConcat(c, s, asked + drain + [FinishFlush(w)], [FlushReturn]);
    RunOne(c, x, FlushReturn);
    actions := asked + drain + [FinishFlush(w)] + [FlushReturn];
  }

  lemma FlushAsked(c: Setup, s: State, w: nat, f: Flush) returns (u: State)
    requires Inv(c, s) && w < |s.workers| && s.workers[w].pc.Loop? && s.flusher.Free? && s.flushCh.None? && s.running
    requires f == Flush(s.flushes, |s.sent|)
    ensures u == Run(c, s, [FlushBegin, FlushSend, TakeFlush(w)]) && Inv(c, u)
    ensures w < |u.workers| && u.workers[w].pc == FlushDrain(f) && u.sent == s.sent && u.flusher == Waiting(f)
  {
    StepInv(c, s, FlushBegin);
    StepInv(c, Step(c, s, FlushBegin), FlushSend);
    StepInv(c, Step(c, Step(c, s, FlushBegin), FlushSend), TakeFlush(w));
    hide Inv;
    var one := s.(flusher := Sending(f), flushes := s.flushes + 1);
    var two := one.(flusher := Waiting(f), flushCh := Some(f));
    RequestMade(c, s, f);
    hide Step;
    RunThree(c, s, FlushBegin, FlushSend, TakeFlush(w));
    u := Step(c, two, TakeFlush(w));
    RequestTaken(c, two, w, f);
  }

  lemma RequestMade(c: Setup, s: State, f: Flush)
    requires s.flusher.Free? && s.flushCh.None? && s.running && f == Flush(s.flushes, |s.sent|)
    ensures Step(c, Step(c, s, FlushBegin), FlushSend) ==
            s.(flusher := Waiting(f), flushes := s.flushes + 1, flushCh := Some(f))
  {
    hide WorkerStep, ProducerStep;
    assert Step(c, s, FlushBegin) == s.(flusher := Sending(f), flushes := s.flushes + 1);
  }

  lemma RequestTaken(c: Setup, s: State, w: nat, f: Flush)
    requires w < |s.workers| && s.workers[w].pc.Loop? && s.flushCh == Some(f)
    ensures var t := Step(c, s, TakeFlush(w));
            w < |t.workers| && t.workers[w].pc == FlushDrain(f) && t.sent == s.sent && t.flusher == s.flusher
  {
    hide Concat, Receive, WriteOut;
  }

  lemma RunThree(c: Setup, s: State, a: Action, b: Action, d: Action)
    ensures Run(c, s, [a, b, d]) == Step(c, Step(c, Step(c, s, a), b), d)
  {
    hide Step;
    assert [a, b, d] == [a] + ([b] + [d]);
    RunConcat(c, s, [a], [b] + [d]);
    RunConcat(c, Run(c, s, [a]), [b], [d]);
    RunOne(c, s, a);
    RunOne(c, Step(c, s, a), b);
    RunOne(c, Step(c, Step(c, s, a), b), d);
  }

  lemma FlushReturns(c: Setup, s: State, f: Flush)
    requires s.flusher == Waiting(f) && f in s.closedDone
    ensures Step(c, s, FlushReturn) == s.(flusher := Free, returned := s.returned + {f})
  {
    hide Concat;
  }

  // -- Close ----------------------------------------------------------------------------

  /** Close captures the run it waits for, what was sent before it, and whether
      that run had yet to take its last look at the channel. */
  lemma CloseStarts(c: Setup, s: State, a: Action)
    requires Inv(c, s) && s.closer.Open?
    ensures var t := Step(c, s, a);
            if !a.CloseBegin? then t.closer.Open?
            else
              && t.closer.Closing? && t.closer.run == s.current && t.closer.mark == |s.sent|
              && (t.closer.pending <==> s.taken < |s.sent|)
              && (t.closer.live <==>
                    s.current.Some? && s.current.value < |s.workers|
                    && var pc := s.workers[s.current.value].pc;
                       pc.Loop? || pc.Batch? || pc.FlushDrain? || pc.FlushWrite? || pc.ExitDrain?)
              && (s.current.Some? ==> s.current.value < |t.workers| && t.workers[s.current.value].cancelled)
  {
    hide Concat;
  }

  lemma CloseAsked(c: Setup, s: State, w: nat)
    requires w < |s.workers| && s.workers[w].pc.Loop? && s.current == Some(w) && s.closer.Open?
    ensures var t := Step(c, Step(c, s, CloseBegin), SeeCancel(w));
            && w < |t.workers| && t.workers[w].pc == ExitDrain && t.sent == s.sent && t.current == s.current
            && t.closer == Closing(Some(w), |s.sent|, true, Queued(s) > 0)
  {
    hide Concat, Receive, WriteOut;
    var one := Step(c, s, CloseBegin);
    assert one.workers[w].pc.Loop? && one.workers[w].cancelled;
  }

  lemma ExitFinishes(c: Setup, s: State, w: nat)
    requires Inv(c, s) && w < |s.workers| && s.workers[w].pc == ExitWrite && Queued(s) == 0
    ensures var t := Step(c, Step(c, s, FinishExit(w)), Exit(w));
            && t.flushed == t.taken == |t.sent| && t.sent == s.sent && !t.running && t.closer == s.closer
            && w < |t.workers| && t.workers[w].pc.Exited?
  {
    WriteOutInv(c, s, w, false);
    hide Inv, Concat;
    var t := Step(c, s, FinishExit(w));
    assert t.workers[w].pc.Stopping? && t.flushed == t.taken;
  }

  lemma CloseReturns(c: Setup, s: State, w: nat)
    requires s.closer.Closing? && s.closer.run == Some(w) && w < |s.workers| && s.workers[w].pc.Exited?
    ensures Step(c, s, CloseReturn) ==
            s.(closer := Closed(s.closer.run, s.closer.mark, s.closer.live, s.closer.pending, true))
  {
    hide Concat;
  }

  /** From every state in which a worker waits in its loop, Close stops it and
      returns because it stopped, with everything sent before it written. */
  lemma CloseServed(c: Setup, s: State, w: nat) returns (actions: seq<Action>)
    requires Inv(c, s) && w < |s.workers| && s.workers[w].pc.Loop? && s.closer.Open?
    ensures var t := Run(c, s, actions);
            && t.closer.Closed? && t.closer.stopped && t.closer.mark == |s.sent|
            && t.flushed == |s.sent| && t.sent == s.sent && !t.running
  {
    assert s.current == Some(w) by { assert WorkerOk(s, w); }
    StepInv(c, s, CloseBegin);
    StepInv(c, Step(c, s, CloseBegin), SeeCancel(w));
    CloseAsked(c, s, w);
    var u := Step(c, Step(c, s, CloseBegin), SeeCancel(w));
    var drain := DrainTo(c, u, w);
    var v := Run(c, u, drain);
    hide Inv, Step, Run;
    ExitFinishes(c, v, w);
    var x := Step(c, Step(c, v, FinishExit(w)), Exit(w));
    CloseReturns(c, x, w);
    var asked, left := [CloseBegin, SeeCancel(w)], [FinishExit(w), Exit(w), CloseReturn];
    RunTwo(c, s, CloseBegin, SeeCancel(w));
    RunThree(c, v, FinishExit(w), Exit(w), CloseReturn);
    RunConcat(c, s, asked, drain);
    RunConcat(c, s, asked + drain, left);
    actions := asked + drain + left;
  }

  lemma RunTwo(c: Setup, s: State, a: Action, b: Action)
    ensures Run(c, s, [a, b]) == Step(c, Step(c, s, a), b)
  {
    hide Step;
    assert [a, b] == [a] + [b];
    RunConcat(c, s, [a], [b]);
    RunOne(c, s, a);
    RunOne(c, Step(c, s, a), b);
  }

  // -- A worker stays until it is told to stop -----------------------------------------

  /** On the way out of the loop. */
  predicate Stops(pc: Pc) {
    pc.ExitDrain? || pc.ExitWrite? || pc.Stopping? || (pc.Batch? && pc.back.ToExit?)
  }

  ghost predicate StopsOk(s: State) {
    forall w :: 0 <= w < |s.workers| && Stops(s.workers[w].pc) ==> s.workers[w].cancelled
  }

  lemma OwnStop(c: Setup, s: State, w: nat, a: Action)
    requires w < |s.workers| && IsWorker(a)
    requires Stops(s.workers[w].pc) ==> s.workers[w].cancelled
    ensures var t := WorkerStep(c, s, w, a);
            w < |t.workers| && (Stops(t.workers[w].pc) ==> t.workers[w].cancelled)
  {
    if a.Take? || a.More? {
      hide WriteOut, Concat;
    } else {
      hide Receive, Concat;
    }
  }

  lemma CallerStops(s: State, a: Action)
    requires StopsOk(s)
    ensures StopsOk(CallerStep(s, a))
  {
    var t := CallerStep(s, a);
    forall w | 0 <= w < |t.workers| && Stops(t.workers[w].pc)
      ensures t.workers[w].cancelled
    {
      assert w < |s.workers| ==> t.workers[w].pc == s.workers[w].pc;
    }
  }

  lemma StopsStep(c: Setup, s: State, a: Action)
    requires StopsOk(s)
    ensures StopsOk(Step(c, s, a))
  {
    hide WorkerStep, CallerStep, Stops;
    if IsWorker(a) {
      hide ProducerStep;
      if a.w < |s.workers| {
        OwnStop(c, s, a.w, a);
        WorkerUntouched(c, s, a.w, a);
      } else {
        NoWorker(c, s, a.w, a);
      }
    } else if IsProducer(a) {
      assert Step(c, s, a).workers == s.workers;
    } else {
      CallerStops(s, a);
    }
  }

  /** In every run only a worker whose context was cancelled, by the caller or by
      Close, leaves its loop. */
  lemma {:induction false} OnlyCancelledStop(c: Setup, actions: seq<Action>)
    ensures StopsOk(Run(c, Init(), actions))
  {
    hide Step;
    if actions != [] {
      OnlyCancelledStop(c, actions[..|actions| - 1]);
      StopsStep(c, Run(c, Init(), actions[..|actions| - 1]), actions[|actions| - 1]);
    }
  }
}
