/** The asynchronous pipeline as a step relation: producers in dispatch, the
    bounded channel, worker goroutines across restarts, Flush and Close.
    Every action is one atomic step; a run is any list of actions, so every
    interleaving, select choice, tick and timeout is covered. */
module Pipeline {
  import opened Basics

  /** `format(id, ts)` is the line of entry id stamped ts. */
  datatype Setup = Setup(capacity: nat, threshold: nat, format: (nat, int) -> bytes) {
    ghost predicate Valid() {
      capacity >= 1 && threshold >= 1
    }
  }

  /** NewLogger's normalisation of the sizes the pipeline depends on. */
  method BufferSizes(channelSize: int, workerBufferSize: int, flushThreshold: int)
    returns (channel: nat, buffer: nat, threshold: nat)
    ensures forall format :: Setup(channel, threshold, format).Valid()
    ensures 256 <= threshold <= buffer
    ensures channel == if channelSize > 0 then channelSize else 4096
    ensures buffer == if workerBufferSize >= 256 then workerBufferSize else 4096
    ensures 256 <= flushThreshold <= buffer ==> threshold == flushThreshold
    ensures flushThreshold > buffer ==> threshold == buffer
    ensures flushThreshold < 256 ==> threshold == (if buffer < 4096 then buffer else 4096)
  {
    channel := if channelSize <= 0 then 4096 else channelSize;
    buffer := if workerBufferSize < 256 then 4096 else workerBufferSize;
    threshold := if flushThreshold < 256 then 4096 else flushThreshold;
    if threshold > buffer {
      threshold := buffer;
    }
  }

  const BATCH_MAX: nat := 128

  /** A Flush call and the number of channel sends completed before it. */
  datatype Flush = Flush(id: nat, mark: nat)

  datatype Return = ToLoop | ToFlush(flush: Flush) | ToExit

  /** Where a worker goroutine is. */
  datatype Pc =
    | Created
    | Loop                                      // the outer select
    | Batch(n: nat, ts: int, back: Return)      // inside formatBatch
    | FlushDrain(flush: Flush)                  // draining for a Flush request
    | FlushWrite(flush: Flush)                  // saw the channel empty
    | ExitDrain                                 // drainAndFlush
    | ExitWrite                                 // saw the channel empty
    | Stopping
    | Exited

  datatype Worker = Worker(pc: Pc, buf: bytes, cancelled: bool)

  datatype Flusher = Free | Sending(flush: Flush) | Waiting(flush: Flush)

  /** `live`: the captured worker had not yet taken its last look at the
      channel; `mark`: channel sends completed before the call; `pending`:
      some of them were still in the channel. */
  datatype Closer =
    | Open
    | Closing(run: Option<nat>, mark: nat, live: bool, pending: bool)
    | Closed(run: Option<nat>, mark: nat, live: bool, pending: bool, stopped: bool)

  /** One writeOut: the lines first..last reached the writer. `checked` tells
      whether rotateIfNeeded follows. */
  datatype Write = Write(checked: bool, first: nat, last: nat)

  datatype State = State(
    arrived: nat,              // entries that reached dispatch: 0 .. arrived-1
    sent: seq<nat>,            // every channel send, in channel order
    taken: nat,                // how many of them were received
    stamps: seq<int>,          // timestamps of the received entries
    lines: seq<bytes>,         // their formatted lines
    dropped: set<nat>,
    drops: nat,                // the Drops counter
    waiting: set<nat>,         // ERROR senders blocked on a full channel
    written: bytes,
    flushed: nat,              // how many lines the writer has
    writes: seq<Write>,
    running: bool,
    current: Option<nat>,      // the run workerCancel/workerStopped belong to
    workers: seq<Worker>,
    flushCh: Option<Flush>,
    flusher: Flusher,          // the holder of flushMu
    flushes: nat,
    closedDone: set<Flush>,    // requests whose done channel is closed
    returned: set<Flush>,      // Flush calls that returned through done
    timedOut: set<Flush>,
    closer: Closer)

  function Init(): State {
    State(0, [], 0, [], [], {}, 0, {}, [], 0, [], false, None, [], None, Free, 0, {}, {}, {}, Open)
  }

  datatype Action =
    | Dispatch(canWait: bool)   // canWait: ERROR entry with an ErrorBlockTimeout
    | WaitSend(id: nat)
    | WaitTimeout(id: nat)
    | Spawn
    | Cancel(w: nat)            // the caller's context
    | Begin(w: nat)
    | Take(w: nat, ts: int)
    | More(w: nat)
    | EndBatch(w: nat)
    | Tick(w: nat)
    | TakeFlush(w: nat)
    | SeeEmpty(w: nat)
    | FinishFlush(w: nat)
    | SeeCancel(w: nat)
    | FinishExit(w: nat)
    | Exit(w: nat)
    | FlushBegin
    | FlushSend
    | FlushReturn
    | FlushTimeout
    | CloseBegin
    | CloseReturn
    | CloseTimeout

  function Queued(s: State): int {
    |s.sent| - s.taken
  }

  function SetPc(s: State, w: nat, pc: Pc): State
    requires w < |s.workers|
  {
    s.(workers := s.workers[w := s.workers[w].(pc := pc)])
  }

  /** Receive the head of the channel and format it into the worker's buffer. */
  function Receive(c: Setup, s: State, w: nat, n: nat, ts: int, back: Return): State
    requires w < |s.workers| && s.taken < |s.sent|
  {
    var line := c.format(s.sent[s.taken], ts);
    s.(taken := s.taken + 1, stamps := s.stamps + [ts], lines := s.lines + [line],
       workers := s.workers[w := s.workers[w].(pc := Batch(n, ts, back), buf := s.workers[w].buf + line)])
  }

  /** writeOut followed by buf = buf[:0]; nothing happens on an empty buffer. */
  function WriteOut(s: State, w: nat, checked: bool): State
    requires w < |s.workers|
  {
    if s.workers[w].buf == [] then s
    else s.(written := s.written + s.workers[w].buf,
            flushed := s.taken,
            writes := s.writes + [Write(checked, s.flushed, s.taken)],
            workers := s.workers[w := s.workers[w].(buf := [])])
  }

  function BackTo(back: Return): Pc {
    match back
    case ToLoop => Loop
    case ToFlush(flush) => FlushDrain(flush)
    case ToExit => ExitDrain
  }

  /** dispatch: send, else wait (bounded, ERROR only), else drop and count. */
  function ProducerStep(c: Setup, s: State, a: Action): State {
    match a
    case Dispatch(canWait) =>
      var id := s.arrived;
      var t := s.(arrived := id + 1);
      if Queued(s) < c.capacity then t.(sent := s.sent + [id])
      else if canWait then t.(waiting := s.waiting + {id})
      else t.(dropped := s.dropped + {id}, drops := s.drops + 1)
    case WaitSend(id) =>
      if id in s.waiting && Queued(s) < c.capacity
      then s.(waiting := s.waiting - {id}, sent := s.sent + [id]) else s
    case WaitTimeout(id) =>
      if id in s.waiting
      then s.(waiting := s.waiting - {id}, dropped := s.dropped + {id}, drops := s.drops + 1) else s
    case _ => s
  }

  function WorkerStep(c: Setup, s: State, w: nat, a: Action): State {
    if w >= |s.workers| then s
    else
      var wk := s.workers[w];
      match a
      case Cancel(_) => s.(workers := s.workers[w := wk.(cancelled := true)])
      case Begin(_) =>
        if wk.pc != Created then s
        else if s.running then SetPc(s, w, Exited)
        else SetPc(s, w, Loop).(running := true, current := Some(w))
      case Take(_, ts) =>
        if Queued(s) <= 0 then s
        else (match wk.pc
              case Loop => Receive(c, s, w, 1, ts, ToLoop)
              case FlushDrain(flush) => Receive(c, s, w, 1, ts, ToFlush(flush))
              case ExitDrain => Receive(c, s, w, 1, ts, ToExit)
              case _ => s)
      case More(_) =>
        if wk.pc.Batch? && wk.pc.n < BATCH_MAX && |wk.buf| < c.threshold && Queued(s) > 0
        then Receive(c, s, w, wk.pc.n + 1, wk.pc.ts, wk.pc.back) else s
      case EndBatch(_) =>
        if wk.pc.Batch? && (wk.pc.n >= BATCH_MAX || |wk.buf| >= c.threshold || Queued(s) <= 0) then
          var t := if |wk.buf| >= c.threshold then WriteOut(s, w, wk.pc.back.ToLoop?) else s;
          SetPc(t, w, BackTo(wk.pc.back))
        else s
      case Tick(_) => if wk.pc.Loop? then WriteOut(s, w, true) else s
      case TakeFlush(_) =>
        if wk.pc.Loop? && s.flushCh.Some?
        then SetPc(s, w, FlushDrain(s.flushCh.value)).(flushCh := None) else s
      case SeeEmpty(_) =>
        if Queued(s) > 0 then s
        else (match wk.pc
              case FlushDrain(flush) => SetPc(s, w, FlushWrite(flush))
              case ExitDrain => SetPc(s, w, ExitWrite)
              case _ => s)
      case FinishFlush(_) =>
        if wk.pc.FlushWrite?
        then SetPc(WriteOut(s, w, false), w, Loop).(closedDone := s.closedDone + {wk.pc.flush}) else s
      case SeeCancel(_) => if wk.pc.Loop? && wk.cancelled then SetPc(s, w, ExitDrain) else s
      case FinishExit(_) => if wk.pc.ExitWrite? then SetPc(WriteOut(s, w, false), w, Stopping) else s
      case Exit(_) => if wk.pc.Stopping? then SetPc(s, w, Exited).(running := false) else s
      case _ => s
  }

  /** The worker has not yet taken its last look at the channel. */
  predicate Draws(pc: Pc) {
    pc.Loop? || pc.Batch? || pc.FlushDrain? || pc.FlushWrite? || pc.ExitDrain?
  }

  function CallerStep(s: State, a: Action): State {
    match a
    case Spawn => s.(workers := s.workers + [Worker(Created, [], false)])
    case FlushBegin =>
      if s.flusher.Free? && s.running
      then s.(flusher := Sending(Flush(s.flushes, |s.sent|)), flushes := s.flushes + 1) else s
    case FlushSend =>
      if s.flusher.Sending? && s.flushCh.None?
      then s.(flushCh := Some(s.flusher.flush), flusher := Waiting(s.flusher.flush)) else s
    case FlushReturn =>
      if s.flusher.Waiting? && s.flusher.flush in s.closedDone
      then s.(flusher := Free, returned := s.returned + {s.flusher.flush}) else s
    case FlushTimeout =>
      if s.flusher.Waiting?
      then s.(flusher := Free, timedOut := s.timedOut + {s.flusher.flush}) else s
    case CloseBegin =>
      if !s.closer.Open? then s
      else
        var run := s.current;
        if run.Some? && run.value < |s.workers| then
          s.(closer := Closing(run, |s.sent|, Draws(s.workers[run.value].pc), Queued(s) > 0),
             workers := s.workers[run.value := s.workers[run.value].(cancelled := true)])
        else s.(closer := Closing(run, |s.sent|, false, Queued(s) > 0))
    case CloseReturn =>
      if s.closer.Closing?
         && (s.closer.run.Some? ==> s.closer.run.value < |s.workers| && s.workers[s.closer.run.value].pc.Exited?)
      then s.(closer := Closed(s.closer.run, s.closer.mark, s.closer.live, s.closer.pending, true)) else s
    case CloseTimeout =>
      if s.closer.Closing?
      then s.(closer := Closed(s.closer.run, s.closer.mark, s.closer.live, s.closer.pending, false)) else s
    case _ => s
  }

  predicate IsProducer(a: Action) {
    a.Dispatch? || a.WaitSend? || a.WaitTimeout?
  }

  predicate IsWorker(a: Action) {
    a.Cancel? || a.Begin? || a.Take? || a.More? || a.EndBatch? || a.Tick? || a.TakeFlush? || a.SeeEmpty?
    || a.FinishFlush? || a.SeeCancel? || a.FinishExit? || a.Exit?
  }

  function Step(c: Setup, s: State, a: Action): State {
    if IsProducer(a) then ProducerStep(c, s, a)
    else if IsWorker(a) then WorkerStep(c, s, a.w, a)
    else CallerStep(s, a)
  }

  /** The state after a list of actions; an action that is not possible where
      it stands does nothing. */
  function Run(c: Setup, s: State, actions: seq<Action>): State {
    if actions == [] then s
    else Step(c, Run(c, s, actions[..|actions| - 1]), actions[|actions| - 1])
  }

  lemma {:induction false} RunConcat(c: Setup, s: State, a: seq<Action>, b: seq<Action>)
    ensures Run(c, s, a + b) == Run(c, Run(c, s, a), b)
  {
    hide Step;
    if b == [] {
      assert a + b == a;
    } else {
      var n := |b| - 1;
      assert (a + b)[..|a| + n] == a + b[..n];
      RunConcat(c, s, a, b[..n]);
    }
  }

  lemma RunOne(c: Setup, s: State, a: Action)
    ensures Run(c, s, [a]) == Step(c, s, a)
  {
    hide Step;
    assert [a][..0] == [];
  }
}
