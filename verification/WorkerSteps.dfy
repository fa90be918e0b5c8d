/** The branches of the worker loop as steps of the pipeline: what a batch does
    there while everybody else goes on, and that every batch the methods allow
    is such a run. */
module WorkerSteps {
  import opened Basics
  import opened EntryPool
  import opened Pipeline
  import opened PipelineSafety
  import opened PipelineFlush

  predicate TakesBatches(pc: Pc) {
    pc.Loop? || pc.FlushDrain? || pc.ExitDrain?
  }

  function BackOf(pc: Pc): Return
    requires TakesBatches(pc)
  {
    match pc
    case Loop => ToLoop
    case FlushDrain(flush) => ToFlush(flush)
    case ExitDrain => ToExit
  }

  /** The lines of the entries, all stamped ts. */
  function FormatAll(c: Setup, ids: seq<nat>, ts: int): (lines: seq<bytes>)
    ensures |lines| == |ids| && forall i :: 0 <= i < |ids| ==> lines[i] == c.format(ids[i], ts)
  {
    seq(|ids|, i requires 0 <= i < |ids| => c.format(ids[i], ts))
  }

  /** What is queued in s, and what has been sent since. */
  function Ahead(c: Setup, s: State, t: State, ts: int): (lines: seq<bytes>)
    requires s.taken <= |t.sent|
    ensures |lines| == |t.sent| - s.taken
  {
    FormatAll(c, t.sent[s.taken..], ts)
  }

  /** None of these is a step of worker w. */
  predicate ByOthers(actions: seq<Action>, w: nat) {
    forall a :: a in actions ==> !ByWorker(a, w)
  }

  /** Take, and More as often as it takes to have an entry for every gap; the
      gaps are what everybody else does in between. */
  function TakeActions(w: nat, ts: int, gaps: seq<seq<Action>>): seq<Action>
    requires gaps != []
  {
    var k := |gaps| - 1;
    if k == 0 then [Take(w, ts)] + gaps[0] else TakeActions(w, ts, gaps[..k]) + ([More(w)] + gaps[k])
  }

  // -- What the others leave alone ---------------------------------------------------------

  ghost predicate OthersKeep(s: State, t: State, w: nat)
    requires w < |s.workers|
  {
    && w < |t.workers| && t.workers[w].pc == s.workers[w].pc && t.workers[w].buf == s.workers[w].buf
    && s.sent <= t.sent && t.taken == s.taken && t.stamps == s.stamps && t.lines == s.lines
    && t.written == s.written && t.flushed == s.flushed && t.writes == s.writes
  }

  /** While a worker runs, one outside the loop can only be cancelled or find
      the logger running already. */
  lemma OutsiderStep(c: Setup, s: State, v: nat, a: Action, w: nat)
    requires v < |s.workers| && w < |s.workers| && !Live(s.workers[v].pc) && Live(s.workers[w].pc) && s.running
    requires IsWorker(a)
    ensures OthersKeep(s, WorkerStep(c, s, v, a), w)
  {
    hide Receive, WriteOut, Concat;
  }

  lemma OthersStep(c: Setup, s: State, a: Action, w: nat)
    requires Inv(c, s) && w < |s.workers| && Live(s.workers[w].pc) && !ByWorker(a, w)
    ensures OthersKeep(s, Step(c, s, a), w)
  {
    hide Inv, OthersKeep, WorkerStep;
    if !IsWorker(a) {
      FreeStep(c, s, a, w);
    } else if a.w >= |s.workers| {
      NoWorker(c, s, a.w, a);
      Unchanged(s, w);
    } else if a.Cancel? {
      CancelOthers(c, s, a, w);
    } else {
      OnlyLive(c, s, a.w, w);
      OutsiderStep(c, s, a.w, a, w);
    }
  }

  lemma FreeStep(c: Setup, s: State, a: Action, w: nat)
    requires w < |s.workers| && !IsWorker(a)
    ensures OthersKeep(s, Step(c, s, a), w)
  {
    hide WorkerStep;
  }

  lemma OnlyLive(c: Setup, s: State, v: nat, w: nat)
    requires Inv(c, s) && v < |s.workers| && w < |s.workers| && v != w && Live(s.workers[w].pc)
    ensures s.running && !Live(s.workers[v].pc)
  {
    hide Concat;
    assert WorkerOk(s, v) && WorkerOk(s, w);
  }

  lemma Unchanged(s: State, w: nat)
    requires w < |s.workers|
    ensures OthersKeep(s, s, w)
  {
  }

  lemma CancelOthers(c: Setup, s: State, a: Action, w: nat)
    requires a.Cancel? && w < |s.workers|
    ensures OthersKeep(s, WorkerStep(c, s, a.w, a), w)
  {
  }

  lemma {:induction false} OthersRun(c: Setup, s: State, actions: seq<Action>, w: nat)
    requires Inv(c, s) && w < |s.workers| && Live(s.workers[w].pc) && ByOthers(actions, w)
    ensures Inv(c, Run(c, s, actions)) && OthersKeep(s, Run(c, s, actions), w)
  {
    hide Inv, Step;
    if actions != [] {
      var n := |actions| - 1;
      OthersRun(c, s, actions[..n], w);
      OthersStep(c, Run(c, s, actions[..n]), actions[n], w);
      StepInv(c, Run(c, s, actions[..n]), actions[n]);
    }
  }

  /** One step of the worker, and then a gap. */
  lemma StepAndGap(c: Setup, s: State, a: Action, gap: seq<Action>, w: nat)
    requires Inv(c, s) && ByOthers(gap, w)
    requires w < |Step(c, s, a).workers| && Live(Step(c, s, a).workers[w].pc)
    ensures Inv(c, Step(c, s, a)) && Inv(c, Run(c, s, [a] + gap)) && OthersKeep(Step(c, s, a), Run(c, s, [a] + gap), w)
  {
    hide Inv, Step, Run;
    StepInv(c, s, a);
    RunConcat(c, s, [a], gap);
    RunOne(c, s, a);
    OthersRun(c, Step(c, s, a), gap, w);
  }

  // -- Inside formatBatch --------------------------------------------------------------------

  /** Since s the worker has taken and formatted k entries of a batch. */
  ghost predicate MidBatch(c: Setup, s: State, t: State, w: nat, ts: int, k: nat)
    requires w < |s.workers| && TakesBatches(s.workers[w].pc)
  {
    && w < |t.workers| && s.sent <= t.sent && t.taken == s.taken + k <= |t.sent|
    && t.workers[w].pc == Batch(k, ts, BackOf(s.workers[w].pc))
    && t.workers[w].buf == s.workers[w].buf + Concat(Ahead(c, s, t, ts)[..k])
    && t.stamps == s.stamps + Zeros(ts, k) && t.lines == s.lines + Ahead(c, s, t, ts)[..k]
    && t.written == s.written && t.flushed == s.flushed && t.writes == s.writes
  }

  /** Fewer than k lines leave the buffer below the threshold. */
  ghost predicate NoneFills(threshold: nat, buf: bytes, lines: seq<bytes>, k: nat)
    requires k <= |lines|
  {
    forall j :: 1 <= j < k ==> |buf + Concat(lines[..j])| < threshold
  }

  /** Every entry but the last was taken into a batch that was not full. */
  ghost predicate NotYetFull(c: Setup, s: State, t: State, w: nat, ts: int, k: nat)
    requires w < |s.workers| && s.taken + k <= |t.sent|
  {
    1 <= k <= BATCH_MAX && NoneFills(c.threshold, s.workers[w].buf, Ahead(c, s, t, ts), k)
  }

  lemma SameAhead(c: Setup, s: State, t: State, u: State, ts: int)
    requires s.taken <= |t.sent| && t.sent <= u.sent
    ensures forall j :: 0 <= j <= |t.sent| - s.taken ==> Ahead(c, s, u, ts)[..j] == Ahead(c, s, t, ts)[..j]
  {
  }

  lemma GapKeeps(c: Setup, s: State, t: State, u: State, w: nat, ts: int, k: nat)
    requires w < |s.workers| && TakesBatches(s.workers[w].pc)
    requires MidBatch(c, s, t, w, ts, k) && NotYetFull(c, s, t, w, ts, k) && OthersKeep(t, u, w)
    ensures MidBatch(c, s, u, w, ts, k) && NotYetFull(c, s, u, w, ts, k)
  {
    hide Concat, Ahead;
    SameAhead(c, s, t, u, ts);
  }

  lemma FirstTake(c: Setup, s: State, w: nat, ts: int)
    requires w < |s.workers| && TakesBatches(s.workers[w].pc) && s.taken < |s.sent|
    ensures var t := Step(c, s, Take(w, ts)); MidBatch(c, s, t, w, ts, 1) && NotYetFull(c, s, t, w, ts, 1)
  {
    hide Concat, WriteOut;
    var t := Step(c, s, Take(w, ts));
    FirstPart(Ahead(c, s, t, ts));
    assert Ahead(c, s, t, ts)[..1] == [c.format(s.sent[s.taken], ts)];
    assert Zeros(ts, 1) == [ts];
  }

  lemma OneMore(c: Setup, s: State, t: State, w: nat, ts: int, k: nat)
    requires w < |s.workers| && TakesBatches(s.workers[w].pc)
    requires MidBatch(c, s, t, w, ts, k) && NotYetFull(c, s, t, w, ts, k)
    requires k < BATCH_MAX && |t.workers[w].buf| < c.threshold && Queued(t) > 0
    ensures var u := Step(c, t, More(w)); MidBatch(c, s, u, w, ts, k + 1) && NotYetFull(c, s, u, w, ts, k + 1)
  {
    hide Concat, WriteOut;
    var u := Step(c, t, More(w));
    var lines := Ahead(c, s, t, ts);
    assert Ahead(c, s, u, ts) == lines;
    NextPart(lines, k);
    Assoc(s.workers[w].buf, Concat(lines[..k]), lines[k]);
    assert lines[..k + 1] == lines[..k] + [lines[k]];
    Assoc(s.lines, lines[..k], [lines[k]]);
    assert Zeros(ts, k + 1) == Zeros(ts, k) + [ts];
    Assoc(s.stamps, Zeros(ts, k), [ts]);
  }

  /** What an attempt to receive can do. */
  lemma ReceiveEffect(c: Setup, s: State, w: nat, a: Action)
    requires Inv(c, s) && w < |s.workers| && Live(s.workers[w].pc) && (a.Take? || a.More?) && a.w == w
    ensures var t := Step(c, s, a);
            && w < |t.workers| && Live(t.workers[w].pc) && t.taken <= s.taken + 1
            && (t.taken > s.taken ==>
                  && Queued(s) > 0
                  && (a.More? ==> s.workers[w].pc.Batch? && s.workers[w].pc.n < BATCH_MAX
                                  && |s.workers[w].buf| < c.threshold))
  {
    hide Inv, Concat, WriteOut;
  }

  /** With every receive successful the worker is inside its batch with one
      entry for every gap, whatever happens in the gaps. */
  lemma {:induction false} TakesAll(c: Setup, s: State, w: nat, ts: int, gaps: seq<seq<Action>>)
    requires Inv(c, s) && w < |s.workers| && TakesBatches(s.workers[w].pc)
    requires gaps != [] && forall i :: 0 <= i < |gaps| ==> ByOthers(gaps[i], w)
    ensures var t := Run(c, s, TakeActions(w, ts, gaps));
            && Inv(c, t) && w < |t.workers| && Live(t.workers[w].pc) && t.taken <= s.taken + |gaps|
            && (t.taken == s.taken + |gaps| ==>
                  MidBatch(c, s, t, w, ts, |gaps|) && NotYetFull(c, s, t, w, ts, |gaps|))
    decreases |gaps|
  {
    hide Inv, Step, MidBatch, NotYetFull, Run, Queued;
    var k := |gaps| - 1;
    if k == 0 {
      ReceiveEffect(c, s, w, Take(w, ts));
      StepAndGap(c, s, Take(w, ts), gaps[0], w);
      var t, u := Step(c, s, Take(w, ts)), Run(c, s, TakeActions(w, ts, gaps));
      if u.taken == s.taken + 1 {
        assert s.taken < |s.sent| by { assert Queued(s) > 0; QueuedIs(s); }
        FirstTake(c, s, w, ts);
        GapKeeps(c, s, t, u, w, ts, 1);
      }
    } else {
      TakesAll(c, s, w, ts, gaps[..k]);
      RunConcat(c, s, TakeActions(w, ts, gaps[..k]), [More(w)] + gaps[k]);
      var v := Run(c, s, TakeActions(w, ts, gaps[..k]));
      ReceiveEffect(c, v, w, More(w));
      StepAndGap(c, v, More(w), gaps[k], w);
      var t, u := Step(c, v, More(w)), Run(c, s, TakeActions(w, ts, gaps));
      if u.taken == s.taken + |gaps| {
        assert v.workers[w].pc.n == k by { PlaceInBatch(c, s, v, w, ts, k); }
        OneMore(c, s, v, w, ts, k);
        GapKeeps(c, s, t, u, w, ts, k + 1);
      }
    }
  }

  lemma QueuedIs(s: State)
    ensures Queued(s) == |s.sent| - s.taken
  {
  }

  lemma PlaceInBatch(c: Setup, s: State, t: State, w: nat, ts: int, k: nat)
    requires w < |s.workers| && TakesBatches(s.workers[w].pc) && MidBatch(c, s, t, w, ts, k)
    ensures w < |t.workers| && t.workers[w].pc == Batch(k, ts, BackOf(s.workers[w].pc))
  {
  }

  /** The worker has taken k entries, and their lines followed its buffer: to
      the writer from `threshold` bytes on, else back into the buffer. */
  ghost predicate BatchDone(s: State, t: State, w: nat, threshold: nat, lines: seq<bytes>, k: nat)
    requires w < |s.workers| && w < |t.workers| && k <= |lines|
  {
    var text := s.workers[w].buf + Concat(lines[..k]);
    var full := |text| >= threshold;
    && t.taken == s.taken + k && t.lines == s.lines + lines[..k]
    && t.written == s.written + (if full then text else [])
    && t.workers[w].buf == (if full then [] else text)
    && t.writes == s.writes + (if full then [Write(s.workers[w].pc.Loop?, s.flushed, s.taken + k)] else [])
  }

  lemma BatchEnd(c: Setup, s: State, u: State, w: nat, ts: int, k: nat)
    requires c.Valid() && w < |s.workers| && TakesBatches(s.workers[w].pc)
    requires MidBatch(c, s, u, w, ts, k) && NotYetFull(c, s, u, w, ts, k)
    ensures var t := Step(c, u, EndBatch(w));
            && w < |t.workers| && t.sent == u.sent
            && (t.workers[w].pc == s.workers[w].pc <==> EndsBatch(c.threshold, s.workers[w].buf, Ahead(c, s, u, ts), k))
            && (t.workers[w].pc == s.workers[w].pc ==> BatchDone(s, t, w, c.threshold, Ahead(c, s, u, ts), k))
  {
    hide Concat, Ahead;
    assert s.written + [] == s.written && s.writes + [] == s.writes;
  }

  /** A batch of the loop or of a drain as a run of the pipeline. The worker
      takes one entry before every gap, and in the gaps everybody else does
      anything at all. With `calls` for all entries queued or sent by then, the
      batch ends exactly where the methods of module Worker end theirs; it has
      then taken the same entries, written the same text with the same check and
      left the same buffer. */
  lemma BatchIsSteps(config: Config, ts: bytes, calls: seq<Call>,
                     c: Setup, s: State, w: nat, stamp: int, gaps: seq<seq<Action>>)
    requires Inv(c, s) && c.threshold == config.threshold
    requires w < |s.workers| && TakesBatches(s.workers[w].pc)
    requires gaps != [] && forall i :: 0 <= i < |gaps| ==> ByOthers(gaps[i], w)
    requires var u := Run(c, s, TakeActions(w, stamp, gaps));
             && u.taken == s.taken + |gaps| <= |u.sent|
             && Ahead(c, s, u, stamp) == Lines(config, ts, calls)
    ensures var u := Run(c, s, TakeActions(w, stamp, gaps));
            var t := Run(c, s, TakeActions(w, stamp, gaps) + [EndBatch(w)]);
            && w < |t.workers| && t.sent == u.sent && |gaps| <= |calls|
            && (t.workers[w].pc == s.workers[w].pc <==>
                  EndsBatch(config.threshold, s.workers[w].buf, Lines(config, ts, calls), |gaps|))
            && (t.workers[w].pc == s.workers[w].pc ==>
                  BatchDone(s, t, w, config.threshold, Lines(config, ts, calls), |gaps|))
  {
    hide Run, Step, Inv, BatchDone, EndsBatch, Lines, Ahead, LineOf, Fresh, Concat;
    var u := Run(c, s, TakeActions(w, stamp, gaps));
    TakesAll(c, s, w, stamp, gaps);
    RunConcat(c, s, TakeActions(w, stamp, gaps), [EndBatch(w)]);
    RunOne(c, u, EndBatch(w));
    assert c.Valid() by { ValidSetup(c, s); }
    BatchEnd(c, s, u, w, stamp, |gaps|);
  }

  lemma ValidSetup(c: Setup, s: State)
    requires Inv(c, s)
    ensures c.Valid()
  {
  }

  // -- Every batch of the methods is such a run ---------------------------------------------

  function NthArrival(s: State, i: nat): nat {
    s.arrived + i
  }

  /** The next m entries to reach dispatch. */
  function Arrivals(s: State, m: nat): (ids: seq<nat>)
    ensures |ids| == m && forall i :: 0 <= i < m ==> ids[i] == s.arrived + i
  {
    seq(m, i requires 0 <= i < m => NthArrival(s, i))
  }

  lemma MoreArrivals(s: State, n: nat, t: State, d: nat)
    requires t.arrived == s.arrived + n
    ensures Arrivals(s, n) + Arrivals(t, d) == Arrivals(s, n + d)
  {
  }

  /** d entries sent without waiting. */
  function Dispatches(d: nat): seq<Action> {
    seq(d, _ => Dispatch(false))
  }

  lemma {:induction false} DispatchAll(c: Setup, s: State, d: nat)
    requires Queued(s) + d <= c.capacity
    ensures Run(c, s, Dispatches(d)) == s.(arrived := s.arrived + d, sent := s.sent + Arrivals(s, d))
  {
    if d == 0 {
      assert s.sent + Arrivals(s, 0) == s.sent;
    } else {
      DispatchAll(c, s, d - 1);
      assert Dispatches(d)[..d - 1] == Dispatches(d - 1);
      Assoc(s.sent, Arrivals(s, d - 1), [s.arrived + d - 1]);
      assert Arrivals(s, d) == Arrivals(s, d - 1) + [s.arrived + d - 1];
    }
  }

  /** After each receive as many of the m entries are sent as the channel has
      room for; n of them are sent at the end. */
  ghost predicate Filling(c: Setup, s: State, u: State, m: nat, n: nat) {
    && n <= m && u.arrived == s.arrived + n && u.sent == s.sent + Arrivals(s, n)
    && (n == m || Queued(u) == c.capacity)
  }

  lemma TakeSendsNothing(c: Setup, s: State, w: nat, a: Action)
    requires (a.Take? || a.More?) && a.w == w
    ensures Step(c, s, a).sent == s.sent && Step(c, s, a).arrived == s.arrived
  {
    hide Concat, WriteOut;
  }

  lemma FillGap(c: Setup, s: State, v: State, a: Action, w: nat, m: nat, n: nat) returns (d: nat)
    requires n <= m && v.arrived == s.arrived + n && v.sent == s.sent + Arrivals(s, n)
    requires (a.Take? || a.More?) && a.w == w && Step(c, v, a).taken <= |v.sent| <= Step(c, v, a).taken + c.capacity
    ensures n + d <= m && Filling(c, s, Run(c, v, [a] + Dispatches(d)), m, n + d)
  {
    hide Run, Step, Arrivals;
    var x := Step(c, v, a);
    TakeSendsNothing(c, v, w, a);
    d := if m - n <= c.capacity - Queued(x) then m - n else c.capacity - Queued(x);
    RunConcat(c, v, [a], Dispatches(d));
    RunOne(c, v, a);
    DispatchAll(c, x, d);
    Assoc(s.sent, Arrivals(s, n), Arrivals(x, d));
    MoreArrivals(s, n, x, d);
  }

  lemma FirstGap(c: Setup, s: State, w: nat, ts: int, m: nat) returns (d: nat)
    requires Inv(c, s) && w < |s.workers| && TakesBatches(s.workers[w].pc) && Queued(s) >= 1
    ensures var u := Run(c, s, [Take(w, ts)] + Dispatches(d));
            && Inv(c, u) && d <= m && Filling(c, s, u, m, d)
            && MidBatch(c, s, u, w, ts, 1) && NotYetFull(c, s, u, w, ts, 1)
  {
    var t := Step(c, s, Take(w, ts));
    FirstTake(c, s, w, ts);
    ReceiveEffect(c, s, w, Take(w, ts));
    assert t.taken <= |s.sent| <= t.taken + c.capacity && s.sent == s.sent + Arrivals(s, 0);
    hide Inv, Step, Run, Queued, MidBatch, NotYetFull, Filling;
    d := FillGap(c, s, s, Take(w, ts), w, m, 0);
    StepAndGap(c, s, Take(w, ts), Dispatches(d), w);
    GapKeeps(c, s, t, Run(c, s, [Take(w, ts)] + Dispatches(d)), w, ts, 1);
  }

  lemma SomethingLeft(c: Setup, s: State, v: State, w: nat, ts: int, m: nat, n: nat, k: nat)
    requires Inv(c, v) && w < |s.workers| && TakesBatches(s.workers[w].pc)
    requires MidBatch(c, s, v, w, ts, k) && Filling(c, s, v, m, n) && k < Queued(s) + m
    ensures Queued(v) > 0 && |v.sent| <= v.taken + c.capacity
    ensures w < |v.workers| && v.workers[w].pc == Batch(k, ts, BackOf(s.workers[w].pc))
    ensures v.arrived == s.arrived + n && v.sent == s.sent + Arrivals(s, n) && n <= m
  {
    hide Concat, Ahead, WorkerOk;
  }

  lemma MoreTakes(c: Setup, s: State, w: nat)
    requires w < |s.workers| && s.workers[w].pc.Batch? && s.workers[w].pc.n < BATCH_MAX
    requires |s.workers[w].buf| < c.threshold && Queued(s) > 0
    ensures Step(c, s, More(w)).taken == s.taken + 1
  {
    hide WriteOut;
  }

  lemma NextGap(c: Setup, s: State, v: State, w: nat, ts: int, m: nat, n: nat, k: nat) returns (d: nat)
    requires Inv(c, s) && Inv(c, v) && w < |s.workers| && TakesBatches(s.workers[w].pc)
    requires MidBatch(c, s, v, w, ts, k) && NotYetFull(c, s, v, w, ts, k) && Filling(c, s, v, m, n)
    requires k < BATCH_MAX && |v.workers[w].buf| < c.threshold && k < Queued(s) + m
    ensures var u := Run(c, v, [More(w)] + Dispatches(d));
            && Inv(c, u) && n + d <= m && Filling(c, s, u, m, n + d)
            && MidBatch(c, s, u, w, ts, k + 1) && NotYetFull(c, s, u, w, ts, k + 1)
  {
    hide Inv, Step, Run, MidBatch, NotYetFull, Filling, Arrivals, Dispatches;
    var t := Step(c, v, More(w));
    SomethingLeft(c, s, v, w, ts, m, n, k);
    OneMore(c, s, v, w, ts, k);
    MoreTakes(c, v, w);
    ReceiveEffect(c, v, w, More(w));
    d := FillGap(c, s, v, More(w), w, m, n);
    OthersDispatch(d, w);
    StepAndGap(c, v, More(w), Dispatches(d), w);
    GapKeeps(c, s, t, Run(c, v, [More(w)] + Dispatches(d)), w, ts, k + 1);
  }

  lemma OthersDispatch(d: nat, w: nat)
    ensures ByOthers(Dispatches(d), w)
  {
  }

  lemma BufferSmall(c: Setup, s: State, v: State, w: nat, ts: int, m: nat, n: nat, k: nat)
    requires w < |s.workers| && TakesBatches(s.workers[w].pc) && s.taken <= |s.sent|
    requires 2 <= k <= Queued(s) + m && MidBatch(c, s, v, w, ts, k - 1) && Filling(c, s, v, m, n)
    requires NoneFills(c.threshold, s.workers[w].buf, FormatAll(c, (s.sent + Arrivals(s, m))[s.taken..], ts), k)
    ensures |v.workers[w].buf| < c.threshold
  {
    hide Concat;
    var all := s.sent + Arrivals(s, m);
    assert Arrivals(s, m)[..n] == Arrivals(s, n);
    assert v.sent <= all;
    assert FormatAll(c, all[s.taken..], ts)[..k - 1] == Ahead(c, s, v, ts)[..k - 1];
  }

  /** A run that receives k times. */
  lemma {:induction false} FillGaps(c: Setup, s: State, w: nat, ts: int, m: nat, k: nat)
    returns (gaps: seq<seq<Action>>, n: nat)
    requires Inv(c, s) && w < |s.workers| && TakesBatches(s.workers[w].pc)
    requires s.taken < |s.sent| && 1 <= k <= |s.sent| - s.taken + m && k <= BATCH_MAX
    requires NoneFills(c.threshold, s.workers[w].buf, FormatAll(c, (s.sent + Arrivals(s, m))[s.taken..], ts), k)
    ensures |gaps| == k && forall i :: 0 <= i < |gaps| ==> ByOthers(gaps[i], w)
    ensures var u := Run(c, s, TakeActions(w, ts, gaps));
            && Inv(c, u) && Filling(c, s, u, m, n)
            && MidBatch(c, s, u, w, ts, k) && NotYetFull(c, s, u, w, ts, k)
    decreases k
  {
    hide Inv, Step, Run, MidBatch, NotYetFull, Filling, Arrivals, Concat, Dispatches, ByOthers;
    if k == 1 {
      var d := FirstGap(c, s, w, ts, m);
      OthersDispatch(d, w);
      gaps, n := [Dispatches(d)], d;
    } else {
      var before;
      before, n := FillGaps(c, s, w, ts, m, k - 1);
      var v := Run(c, s, TakeActions(w, ts, before));
      BufferSmall(c, s, v, w, ts, m, n, k);
      var d := NextGap(c, s, v, w, ts, m, n, k - 1);
      OthersDispatch(d, w);
      gaps, n := before + [Dispatches(d)], n + d;
      assert gaps[..k - 1] == before;
      RunConcat(c, s, TakeActions(w, ts, before), [More(w)] + Dispatches(d));
    }
  }

  /** Every batch that the methods of module Worker allow, with m calls sent
      meanwhile and no more than the channel holds left over, is a run of the
      pipeline in which m entries are dispatched in the gaps. */
  lemma BatchHasRun(config: Config, ts: bytes, calls: seq<Call>,
                    c: Setup, s: State, w: nat, stamp: int, m: nat, k: nat)
    returns (gaps: seq<seq<Action>>)
    requires Inv(c, s) && c.threshold == config.threshold
    requires w < |s.workers| && TakesBatches(s.workers[w].pc)
    requires s.taken < |s.sent| && |s.sent| - s.taken + m <= k + c.capacity
    requires FormatAll(c, (s.sent + Arrivals(s, m))[s.taken..], stamp) == Lines(config, ts, calls)
    requires EndsBatch(config.threshold, s.workers[w].buf, Lines(config, ts, calls), k)
    ensures |gaps| == k && forall i :: 0 <= i < |gaps| ==> ByOthers(gaps[i], w)
    ensures var t := Run(c, s, TakeActions(w, stamp, gaps) + [EndBatch(w)]);
            && w < |t.workers| && t.workers[w].pc == s.workers[w].pc && t.sent == s.sent + Arrivals(s, m)
            && BatchDone(s, t, w, config.threshold, Lines(config, ts, calls), k)
  {
    hide Run, Step, Inv, BatchDone, Lines, LineOf, Fresh, Concat, MidBatch, NotYetFull, Filling;
    var n;
    gaps, n := FillGaps(c, s, w, stamp, m, k);
    AllSent(c, s, Run(c, s, TakeActions(w, stamp, gaps)), w, stamp, m, n, k);
    BatchIsSteps(config, ts, calls, c, s, w, stamp, gaps);
  }

  lemma AllSent(c: Setup, s: State, u: State, w: nat, ts: int, m: nat, n: nat, k: nat)
    requires w < |s.workers| && TakesBatches(s.workers[w].pc) && s.taken < |s.sent|
    requires MidBatch(c, s, u, w, ts, k) && Filling(c, s, u, m, n) && |s.sent| - s.taken + m <= k + c.capacity
    ensures u.sent == s.sent + Arrivals(s, m) && u.taken == s.taken + k <= |u.sent|
  {
  }
}
