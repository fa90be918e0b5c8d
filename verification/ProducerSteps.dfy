/** A producer's turn on pooled entries as an action of the pipeline. */
module ProducerSteps {
  import opened Basics
  import opened EntryPool
  import opened Pipeline
  import opened PipelineSafety

  /** The action of a producer whose entry is new or waits already. One that
      goes on waiting does nothing. */
  function TurnAction(c: Setup, s: State, waiting: Option<nat>, wait: bool): Option<Action> {
    match waiting
    case None => Some(Dispatch(wait))
    case Some(id) =>
      if Queued(s) < c.capacity then Some(WaitSend(id)) else if wait then None else Some(WaitTimeout(id))
  }

  /** What System.Attempt promises of a turn, given whether the channel has room. */
  ghost predicate TurnResult(room: bool, wait: bool, pending: Call, late: Arrived) {
    if room then late.calls == [pending] && late.dropped == []
    else late.calls == [] && |late.dropped| == (if wait then 0 else 1)
  }

  /** Where the entry goes. */
  ghost predicate TurnDone(s: State, t: State, id: nat, late: Arrived) {
    && t.sent == s.sent + (if late.calls == [] then [] else [id])
    && t.dropped == s.dropped + (if late.dropped == [] then {} else {id})
    && t.drops == s.drops + |late.dropped|
    && (id in t.waiting <==> late.calls == [] && late.dropped == [])
    && t.waiting - {id} == s.waiting - {id}
    && id < t.arrived
  }

  /** The turn of a producer is one action: with as much room in the channel it
      sends, drops and counts, or leaves waiting the same entry. */
  lemma TurnIsStep(c: Setup, s: State, waiting: Option<nat>, a: Attempt, pending: Call, late: Arrived)
    requires AccountInv(s) && (waiting.Some? ==> waiting.value in s.waiting)
    requires TurnResult(Queued(s) < c.capacity, a.wait, pending, late)
    ensures var action := TurnAction(c, s, waiting, a.wait);
            var t := if action.None? then s else Step(c, s, action.value);
            TurnDone(s, t, if waiting.Some? then waiting.value else s.arrived, late)
  {
    NoStrangers(s);
    hide AccountInv, Step, TurnDone;
    if waiting.None? {
      NewTurn(c, s, a.wait, late);
    } else if late.calls != [] || late.dropped != [] {
      WaitingTurn(c, s, waiting.value, a.wait, late);
    } else {
      StillWaiting(s, waiting.value);
    }
  }

  lemma NewTurn(c: Setup, s: State, wait: bool, late: Arrived)
    requires s.arrived !in s.waiting
    requires if Queued(s) < c.capacity then |late.calls| == 1 && late.dropped == []
             else late.calls == [] && |late.dropped| == (if wait then 0 else 1)
    ensures TurnDone(s, Step(c, s, Dispatch(wait)), s.arrived, late)
  {
    assert s.sent + [] == s.sent;
  }

  lemma WaitingTurn(c: Setup, s: State, id: nat, wait: bool, late: Arrived)
    requires id in s.waiting && id < s.arrived
    requires if Queued(s) < c.capacity then |late.calls| == 1 && late.dropped == []
             else late.calls == [] && |late.dropped| == 1
    ensures TurnDone(s, Step(c, s, if Queued(s) < c.capacity then WaitSend(id) else WaitTimeout(id)), id, late)
  {
    assert s.sent + [] == s.sent;
  }

  lemma StillWaiting(s: State, id: nat)
    requires id in s.waiting && id < s.arrived
    ensures forall late: Arrived :: late.calls == [] && late.dropped == [] ==> TurnDone(s, s, id, late)
  {
    assert s.sent + [] == s.sent;
  }

  lemma NoStrangers(s: State)
    requires AccountInv(s)
    ensures s.arrived !in s.waiting && forall id :: id in s.waiting ==> id < s.arrived
  {
  }
}
