/** What every run of the pipeline keeps: one consumer, no entry lost,
    duplicated or reordered, and every entry accounted for. */
module PipelineSafety {
  import opened Basics
  import opened Pipeline

  predicate Live(pc: Pc) {
    !pc.Created? && !pc.Exited?
  }

  ghost predicate NonEmptyLines(c: Setup) {
    forall id: nat, ts: int :: c.format(id, ts) != []
  }

  // -- One consumer and the byte stream ----------------------------------------------

  /** The bytes formatted but not yet written. */
  function Unwritten(s: State): bytes
    requires s.flushed <= |s.lines|
  {
    Concat(s.lines[s.flushed..])
  }

  ghost predicate StreamOk(c: Setup, s: State) {
    && s.taken <= |s.sent| <= s.taken + c.capacity
    && |s.lines| == |s.stamps| == s.taken
    && (forall k :: 0 <= k < s.taken ==> s.lines[k] == c.format(s.sent[k], s.stamps[k]))
    && s.flushed <= s.taken
    && s.written == Concat(s.lines[..s.flushed])
    && (!s.running ==> s.flushed == s.taken)
  }

  ghost predicate WorkerOk(s: State, w: nat)
    requires w < |s.workers| && s.flushed <= |s.lines|
  {
    var wk := s.workers[w];
    && (Live(wk.pc) ==> s.running && s.current == Some(w) && wk.buf == Unwritten(s))
    && (!Live(wk.pc) ==> wk.buf == [])
    && (wk.pc.Stopping? ==> s.flushed == s.taken)
  }

  ghost predicate OwnerOk(s: State) {
    && (s.current.Some? ==> s.current.value < |s.workers| && !s.workers[s.current.value].pc.Created?)
    && (s.running ==> s.current.Some? && Live(s.workers[s.current.value].pc))
  }

  ghost predicate Inv(c: Setup, s: State) {
    && c.Valid() && NonEmptyLines(c)
    && StreamOk(c, s)
    && OwnerOk(s)
    && (forall w :: 0 <= w < |s.workers| ==> WorkerOk(s, w))
  }

  lemma ReceiveInv(c: Setup, s: State, w: nat, n: nat, ts: int, back: Return)
    requires Inv(c, s) && w < |s.workers| && Live(s.workers[w].pc) && !s.workers[w].pc.Stopping? && Queued(s) > 0
    ensures Inv(c, Receive(c, s, w, n, ts, back))
  {
    hide Concat;
    var t := Receive(c, s, w, n, ts, back);
    var line := c.format(s.sent[s.taken], ts);
    assert WorkerOk(s, w);
    assert t.lines[..s.flushed] == s.lines[..s.flushed];
    assert t.lines[s.flushed..] == s.lines[s.flushed..] + [line];
    ConcatAppend(s.lines[s.flushed..], line);
    forall v | 0 <= v < |t.workers|
      ensures WorkerOk(t, v)
    {
      assert WorkerOk(s, v);
    }
  }

  lemma SomethingUnwritten(c: Setup, s: State)
    requires StreamOk(c, s) && NonEmptyLines(c)
    ensures s.flushed < s.taken ==> Unwritten(s) != []
  {
    if s.flushed < s.taken {
      var id: nat, ts: int := s.sent[s.taken - 1], s.stamps[s.taken - 1];
      assert c.format(id, ts) != [];
      assert s.lines[s.flushed..][s.taken - s.flushed - 1] == s.lines[s.taken - 1] == c.format(id, ts);
      ConcatNonEmpty(s.lines[s.flushed..]);
    }
  }

  lemma WriteOutInv(c: Setup, s: State, w: nat, checked: bool)
    requires Inv(c, s) && w < |s.workers| && Live(s.workers[w].pc)
    ensures Inv(c, WriteOut(s, w, checked))
    ensures WriteOut(s, w, checked).flushed == s.taken == WriteOut(s, w, checked).taken
    ensures |WriteOut(s, w, checked).workers| == |s.workers|
    ensures WriteOut(s, w, checked).workers[w].pc == s.workers[w].pc
    ensures WriteOut(s, w, checked).workers[w].buf == []
  {
    var t := WriteOut(s, w, checked);
    assert WorkerOk(s, w);
    if s.workers[w].buf == [] {
      SomethingUnwritten(c, s);
    } else {
      ConcatSplit(s.lines, s.flushed);
      assert s.lines[..s.taken] == s.lines && s.lines[s.taken..] == [];
      forall v | 0 <= v < |t.workers|
        ensures WorkerOk(t, v)
      {
        assert WorkerOk(s, v);
      }
    }
  }

  /** Moving a live worker between live places. */
  lemma MoveInv(c: Setup, s: State, w: nat, pc: Pc)
    requires Inv(c, s) && w < |s.workers| && Live(s.workers[w].pc) && Live(pc)
    requires pc.Stopping? ==> s.flushed == s.taken
    ensures Inv(c, SetPc(s, w, pc))
  {
    hide Concat;
    var t := SetPc(s, w, pc);
    forall v | 0 <= v < |t.workers|
      ensures WorkerOk(t, v)
    {
      assert WorkerOk(s, v);
    }
  }

  /** Begin is the CAS on `running`: it lets at most one goroutine in. */
  lemma BeginInv(c: Setup, s: State, w: nat)
    requires Inv(c, s) && w < |s.workers|
    ensures Inv(c, WorkerStep(c, s, w, Begin(w)))
  {
    var t := WorkerStep(c, s, w, Begin(w));
    assert s.flushed == s.taken ==> s.lines[s.flushed..] == [];
    forall v | 0 <= v < |t.workers|
      ensures WorkerOk(t, v)
    {
      assert WorkerOk(s, v) && WorkerOk(s, w);
    }
  }

  lemma ExitInv(c: Setup, s: State, w: nat)
    requires Inv(c, s) && w < |s.workers|
    ensures Inv(c, WorkerStep(c, s, w, Exit(w)))
  {
    var t := WorkerStep(c, s, w, Exit(w));
    assert s.flushed == s.taken ==> s.lines[s.flushed..] == [];
    forall v | 0 <= v < |t.workers|
      ensures WorkerOk(t, v)
    {
      assert WorkerOk(s, v) && WorkerOk(s, w);
    }
  }

  lemma EndBatchInv(c: Setup, s: State, w: nat)
    requires Inv(c, s) && w < |s.workers|
    ensures Inv(c, WorkerStep(c, s, w, EndBatch(w)))
  {
    hide Inv;
    var wk := s.workers[w];
    if wk.pc.Batch? {
      WriteOutInv(c, s, w, wk.pc.back.ToLoop?);
      MoveInv(c, s, w, BackTo(wk.pc.back));
      MoveInv(c, WriteOut(s, w, wk.pc.back.ToLoop?), w, BackTo(wk.pc.back));
    }
  }

  lemma SameInv(c: Setup, s: State, t: State)
    requires Inv(c, s)
    requires t.sent == s.sent && t.taken == s.taken && t.stamps == s.stamps && t.lines == s.lines
    requires t.written == s.written && t.flushed == s.flushed && t.running == s.running && t.current == s.current
    requires t.workers == s.workers
    ensures Inv(c, t)
  {
    forall w | 0 <= w < |t.workers|
      ensures WorkerOk(t, w)
    {
      assert WorkerOk(s, w);
    }
  }

  lemma CancelInv(c: Setup, s: State, w: nat)
    requires Inv(c, s) && w < |s.workers|
    ensures Inv(c, s.(workers := s.workers[w := s.workers[w].(cancelled := true)]))
  {
    var t := s.(workers := s.workers[w := s.workers[w].(cancelled := true)]);
    forall v | 0 <= v < |t.workers|
      ensures WorkerOk(t, v)
    {
      assert WorkerOk(s, v);
    }
  }

  lemma WorkerInv(c: Setup, s: State, w: nat, a: Action)
    requires Inv(c, s) && IsWorker(a) && a.w == w
    ensures Inv(c, WorkerStep(c, s, w, a))
  {
    hide Inv, WriteOut, Receive;
    if w < |s.workers| {
      var pc := s.workers[w].pc;
      match a {
        case Cancel(_) => CancelInv(c, s, w);
        case Begin(_) => BeginInv(c, s, w);
        case Take(_, ts) =>
          if Queued(s) > 0 && (pc.Loop? || pc.FlushDrain? || pc.ExitDrain?) {
            ReceiveInv(c, s, w, 1, ts,
                       if pc.Loop? then ToLoop else if pc.FlushDrain? then ToFlush(pc.flush) else ToExit);
          }
        case More(_) =>
          if Queued(s) > 0 && pc.Batch? {
            ReceiveInv(c, s, w, pc.n + 1, pc.ts, pc.back);
          }
        case EndBatch(_) => EndBatchInv(c, s, w);
        case Tick(_) =>
          if pc.Loop? {
            WriteOutInv(c, s, w, true);
          }
        case TakeFlush(_) =>
          if pc.Loop? && s.flushCh.Some? {
            MoveInv(c, s, w, FlushDrain(s.flushCh.value));
            var t := SetPc(s, w, FlushDrain(s.flushCh.value));
            SameInv(c, t, t.(flushCh := None));
          }
        case SeeEmpty(_) =>
          if pc.FlushDrain? {
            MoveInv(c, s, w, FlushWrite(pc.flush));
          } else if pc.ExitDrain? {
            MoveInv(c, s, w, ExitWrite);
          }
        case FinishFlush(_) =>
          if pc.FlushWrite? {
            WriteOutInv(c, s, w, false);
            MoveInv(c, WriteOut(s, w, false), w, Loop);
            var t := SetPc(WriteOut(s, w, false), w, Loop);
            SameInv(c, t, t.(closedDone := s.closedDone + {pc.flush}));
          }
        case SeeCancel(_) =>
          if pc.Loop? {
            MoveInv(c, s, w, ExitDrain);
          }
        case FinishExit(_) =>
          if pc.ExitWrite? {
            WriteOutInv(c, s, w, false);
            MoveInv(c, WriteOut(s, w, false), w, Stopping);
          }
        case Exit(_) => ExitInv(c, s, w);
      }
    }
  }

  lemma ProducerInv(c: Setup, s: State, a: Action)
    requires Inv(c, s)
    ensures Inv(c, ProducerStep(c, s, a))
  {
    hide Concat;
    var t := ProducerStep(c, s, a);
    forall w | 0 <= w < |t.workers|
      ensures WorkerOk(t, w)
    {
      assert WorkerOk(s, w);
    }
  }

  lemma CallerInv(c: Setup, s: State, a: Action)
    requires Inv(c, s)
    ensures Inv(c, CallerStep(s, a))
  {
    hide Concat;
    var t := CallerStep(s, a);
    if a.CloseBegin? && s.closer.Open? && s.current.Some? {
      CancelInv(c, s, s.current.value);
      var u := s.(workers := s.workers[s.current.value := s.workers[s.current.value].(cancelled := true)]);
      SameInv(c, u, t);
    } else if !a.Spawn? {
      SameInv(c, s, t);
    } else {
      forall w | 0 <= w < |t.workers|
        ensures WorkerOk(t, w)
      {
        assert w < |s.workers| ==> WorkerOk(s, w);
      }
    }
  }

  lemma StepInv(c: Setup, s: State, a: Action)
    requires Inv(c, s)
    ensures Inv(c, Step(c, s, a))
  {
    if IsProducer(a) {
      ProducerInv(c, s, a);
    } else if IsWorker(a) {
      WorkerInv(c, s, a.w, a);
    } else {
      CallerInv(c, s, a);
    }
  }

  lemma {:induction false} RunInv(c: Setup, actions: seq<Action>)
    requires c.Valid() && NonEmptyLines(c)
    ensures Inv(c, Run(c, Init(), actions))
  {
    if actions != [] {
      RunInv(c, actions[..|actions| - 1]);
      StepInv(c, Run(c, Init(), actions[..|actions| - 1]), actions[|actions| - 1]);
    }
  }

  // -- Theorems about the stream ---------------------------------------------------------

  /** The bytes in the worker's private buffer. */
  function Buffered(s: State): bytes {
    if s.running && s.current.Some? && s.current.value < |s.workers| then s.workers[s.current.value].buf else []
  }

  /** In every run, across worker restarts, the bytes written followed by the
      worker's buffer are the lines of the received entries, formatted from the
      channel's entries in channel order: batching never loses, duplicates or
      reorders a line. */
  lemma StreamRefines(c: Setup, actions: seq<Action>)
    requires c.Valid() && NonEmptyLines(c)
    ensures var s := Run(c, Init(), actions);
            && s.written + Buffered(s) == Concat(s.lines)
            && |s.lines| == |s.stamps| == s.taken <= |s.sent| <= s.taken + c.capacity
            && (forall k :: 0 <= k < s.taken ==> s.lines[k] == c.format(s.sent[k], s.stamps[k]))
            && s.flushed <= s.taken && s.written == Concat(s.lines[..s.flushed])
            && Buffered(s) == Concat(s.lines[s.flushed..])
  {
    var s := Run(c, Init(), actions);
    RunInv(c, actions);
    ConcatSplit(s.lines, s.flushed);
    if s.running {
      assert WorkerOk(s, s.current.value);
    } else {
      assert s.lines[s.flushed..] == [];
    }
  }

  /** At any moment at most one goroutine is inside the worker loop, whatever
      the number of Start calls; it is the one `current` names. */
  lemma OneConsumer(c: Setup, actions: seq<Action>, v: nat, w: nat)
    requires c.Valid() && NonEmptyLines(c)
    requires v < |Run(c, Init(), actions).workers| && w < |Run(c, Init(), actions).workers|
    requires Live(Run(c, Init(), actions).workers[v].pc) && Live(Run(c, Init(), actions).workers[w].pc)
    ensures v == w && Run(c, Init(), actions).running && Run(c, Init(), actions).current == Some(v)
  {
    RunInv(c, actions);
    assert WorkerOk(Run(c, Init(), actions), v) && WorkerOk(Run(c, Init(), actions), w);
  }

  // -- Accounting ----------------------------------------------------------------------------

  ghost predicate AccountInv(s: State) {
    && (forall k :: 0 <= k < |s.sent| ==> s.sent[k] < s.arrived && s.sent[k] !in s.dropped && s.sent[k] !in s.waiting)
    && (forall j, k :: 0 <= j < k < |s.sent| ==> s.sent[j] != s.sent[k])
    && (forall id :: id in s.dropped ==> id < s.arrived && id !in s.waiting)
    && (forall id :: id in s.waiting ==> id < s.arrived)
    && s.drops == |s.dropped|
    && s.arrived == |s.sent| + |s.dropped| + |s.waiting|
    && (forall id :: 0 <= id < s.arrived ==> id in s.sent || id in s.dropped || id in s.waiting)
  }

  /** An entry that is nowhere yet, or was waiting, moves to one of the places. */
  lemma EntryMoves(s: State, t: State, id: nat)
    requires AccountInv(s)
    requires (id in s.waiting && t.arrived == s.arrived) || (id == s.arrived && t.arrived == s.arrived + 1)
    requires || (t.sent == s.sent && t.dropped == s.dropped && t.drops == s.drops && t.waiting == s.waiting + {id})
             || (t.sent == s.sent + [id] && t.dropped == s.dropped && t.drops == s.drops
                 && t.waiting == s.waiting - {id})
             || (t.sent == s.sent && t.dropped == s.dropped + {id} && t.drops == s.drops + 1
                 && t.waiting == s.waiting - {id})
    ensures AccountInv(t)
  {
    assert id !in s.dropped && id !in s.sent;
    assert id in s.waiting ==> |s.waiting - {id}| == |s.waiting| - 1;
    assert id !in s.waiting ==> s.waiting - {id} == s.waiting;
    assert id in s.waiting ==> s.waiting + {id} == s.waiting;
    forall j | 0 <= j < t.arrived
      ensures j in t.sent || j in t.dropped || j in t.waiting
    {
      if j == id {
        assert |t.sent| > |s.sent| ==> t.sent[|s.sent|] == id;
      } else if j in s.sent {
        assert j in t.sent;
      }
    }
  }

  lemma AccountStep(c: Setup, s: State, a: Action)
    requires AccountInv(s)
    ensures AccountInv(Step(c, s, a))
  {
    hide WorkerStep, CallerStep, AccountInv;
    if !IsProducer(a) {
      OthersKeepEntries(c, s, a);
      SameAccount(s, Step(c, s, a));
    } else if a.Dispatch? {
      NoStranger(s);
      assert s.waiting - {s.arrived} == s.waiting;
      EntryMoves(s, Step(c, s, a), s.arrived);
    } else if a.id in s.waiting && Step(c, s, a) != s {
      EntryMoves(s, Step(c, s, a), a.id);
    }
  }

  lemma NoStranger(s: State)
    requires AccountInv(s)
    ensures s.arrived !in s.waiting
  {
  }

  lemma SameAccount(s: State, t: State)
    requires AccountInv(s)
    requires t.arrived == s.arrived && t.sent == s.sent && t.dropped == s.dropped && t.waiting == s.waiting
    requires t.drops == s.drops
    ensures AccountInv(t)
  {
  }

  lemma OthersKeepEntries(c: Setup, s: State, a: Action)
    requires !IsProducer(a)
    ensures var t := Step(c, s, a);
            && t.arrived == s.arrived && t.sent == s.sent && t.dropped == s.dropped && t.waiting == s.waiting
            && t.drops == s.drops
  {
    if a.Take? || a.More? {
      hide CallerStep, ProducerStep, WriteOut;
    } else if IsWorker(a) {
      hide CallerStep, ProducerStep, Receive;
    } else {
      hide WorkerStep, ProducerStep;
    }
  }

  lemma {:induction false} AccountRun(c: Setup, actions: seq<Action>)
    ensures AccountInv(Run(c, Init(), actions))
  {
    if actions != [] {
      AccountRun(c, actions[..|actions| - 1]);
      AccountStep(c, Run(c, Init(), actions[..|actions| - 1]), actions[|actions| - 1]);
    }
  }

  datatype Place = Written | InBuffer | InChannel | Dropped | Blocked

  /** Where an entry that reached dispatch is. */
  ghost predicate At(s: State, id: nat, place: Place) {
    match place
    case Written => exists k :: 0 <= k < |s.sent| && s.sent[k] == id && k < s.flushed
    case InBuffer => exists k :: 0 <= k < |s.sent| && s.sent[k] == id && s.flushed <= k < s.taken
    case InChannel => exists k :: 0 <= k < |s.sent| && s.sent[k] == id && s.taken <= k
    case Dropped => id in s.dropped
    case Blocked => id in s.waiting
  }

  lemma SomePlace(s: State, id: nat) returns (place: Place)
    requires AccountInv(s) && id < s.arrived && s.flushed <= s.taken <= |s.sent|
    ensures At(s, id, place)
  {
    if id in s.sent {
      var k :| 0 <= k < |s.sent| && s.sent[k] == id;
      place := if k < s.flushed then Written else if k < s.taken then InBuffer else InChannel;
    } else {
      place := if id in s.dropped then Dropped else Blocked;
    }
  }

  lemma OnePlace(s: State, id: nat, p: Place, q: Place)
    requires AccountInv(s) && At(s, id, p) && At(s, id, q) && s.flushed <= s.taken
    ensures p == q
  {
  }

  lemma InOrder(c: Setup, s: State)
    requires Inv(c, s)
    ensures s.flushed <= s.taken <= |s.sent|
  {
  }

  /** Every entry that reached dispatch is in exactly one place, and the Drops
      counter is exactly the number of dropped entries. */
  lemma Accounted(c: Setup, actions: seq<Action>, id: nat)
    requires c.Valid() && NonEmptyLines(c) && id < Run(c, Init(), actions).arrived
    ensures var s := Run(c, Init(), actions);
            && (exists place :: At(s, id, place))
            && (forall p, q :: At(s, id, p) && At(s, id, q) ==> p == q)
            && s.drops == |s.dropped|
            && s.arrived == |s.sent| + |s.dropped| + |s.waiting|
  {
    var s := Run(c, Init(), actions);
    RunInv(c, actions);
    AccountRun(c, actions);
    InOrder(c, s);
    hide Run, Inv, At;
    var place := SomePlace(s, id);
    forall p, q | At(s, id, p) && At(s, id, q)
      ensures p == q
    {
      OnePlace(s, id, p, q);
    }
  }

  // -- What decides the fate of an entry ---------------------------------------------------

  /** The action drops the entry: it cannot wait on a full channel, or its wait
      has timed out. */
  predicate Drops(c: Setup, s: State, a: Action, id: nat) {
    || (a == Dispatch(false) && id == s.arrived && |s.sent| - s.taken >= c.capacity)
    || (a == WaitTimeout(id) && id in s.waiting)
  }

  /** The action sends it: it is new or waiting, and there is room. */
  predicate Sends(c: Setup, s: State, a: Action, id: nat) {
    && |s.sent| - s.taken < c.capacity
    && ((a.Dispatch? && id == s.arrived) || (a == WaitSend(id) && id in s.waiting))
  }

  /** The action leaves it waiting on a full channel. */
  predicate Waits(c: Setup, s: State, a: Action, id: nat) {
    a == Dispatch(true) && id == s.arrived && |s.sent| - s.taken >= c.capacity
  }

  /** An entry is dropped, sent or left waiting by these actions only, and
      always by them: a sent entry goes to the end of the channel, and only a
      drop is counted. */
  lemma FateExact(c: Setup, s: State, a: Action, id: nat)
    requires AccountInv(s)
    ensures var t := Step(c, s, a);
            && (id in t.dropped <==> id in s.dropped || Drops(c, s, a, id))
            && (id in t.sent <==> id in s.sent || Sends(c, s, a, id))
            && (id in t.waiting <==>
                  (id in s.waiting && !Drops(c, s, a, id) && !Sends(c, s, a, id)) || Waits(c, s, a, id))
            && (Sends(c, s, a, id) ==> t.sent == s.sent + [id] && t.drops == s.drops)
            && (Drops(c, s, a, id) ==> t.drops == s.drops + 1 && t.sent == s.sent)
            && (Waits(c, s, a, id) ==> t.drops == s.drops && t.sent == s.sent && t.dropped == s.dropped)
            && t.arrived == s.arrived + (if a.Dispatch? then 1 else 0)
  {
    hide WorkerStep, CallerStep;
    if !IsProducer(a) {
      hide AccountInv;
      OthersKeepEntries(c, s, a);
    } else {
      NoStranger(s);
      assert id in s.sent + [s.arrived] <==> id in s.sent || id == s.arrived;
      assert !a.Dispatch? ==> (id in s.sent + [a.id] <==> id in s.sent || id == a.id);
    }
  }

  /** Some action of the run is of this kind where it stands. */
  ghost predicate Sometime(c: Setup, actions: seq<Action>, kind: (State, Action) -> bool) {
    exists k :: 0 <= k < |actions| && kind(Run(c, Init(), actions[..k]), actions[k])
  }

  lemma SometimeNext(c: Setup, actions: seq<Action>, kind: (State, Action) -> bool)
    requires actions != []
    ensures var n := |actions| - 1;
            Sometime(c, actions, kind) <==>
            Sometime(c, actions[..n], kind) || kind(Run(c, Init(), actions[..n]), actions[n])
  {
    hide Run;
    var n := |actions| - 1;
    var before := actions[..n];
    if Sometime(c, before, kind) {
      var k :| 0 <= k < n && kind(Run(c, Init(), before[..k]), before[k]);
      assert before[..k] == actions[..k] && before[k] == actions[k];
    }
    if Sometime(c, actions, kind) {
      var k :| 0 <= k <= n && kind(Run(c, Init(), actions[..k]), actions[k]);
      assert k < n ==> before[..k] == actions[..k] && before[k] == actions[k];
    }
  }

  /** In every run an entry is dropped exactly if some action dropped it: it
      could not wait on a full channel, or its wait timed out. */
  lemma {:induction false} DropReason(c: Setup, actions: seq<Action>, id: nat)
    ensures id in Run(c, Init(), actions).dropped <==> Sometime(c, actions, (s, a) => Drops(c, s, a, id))
  {
    if actions != [] {
      hide Step, Drops, Sends, Waits, AccountInv, Sometime;
      var before := actions[..|actions| - 1];
      DropReason(c, before, id);
      AccountRun(c, before);
      FateExact(c, Run(c, Init(), before), actions[|actions| - 1], id);
      SometimeNext(c, actions, (s, a) => Drops(c, s, a, id));
    }
  }

  /** And it is sent exactly if it found room when it was new or while it
      waited. */
  lemma {:induction false} SentReason(c: Setup, actions: seq<Action>, id: nat)
    ensures id in Run(c, Init(), actions).sent <==> Sometime(c, actions, (s, a) => Sends(c, s, a, id))
  {
    if actions != [] {
      hide Step, Drops, Sends, Waits, AccountInv, Sometime;
      var before := actions[..|actions| - 1];
      SentReason(c, before, id);
      AccountRun(c, before);
      FateExact(c, Run(c, Init(), before), actions[|actions| - 1], id);
      SometimeNext(c, actions, (s, a) => Sends(c, s, a, id));
    }
  }
}
