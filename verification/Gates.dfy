/** A profile's admission gates: the CAS loop of ratelimit.go, and the sampling
    and rate-limit order shared by checkGatesAfterLevel and passGates. */
module Gates {
  import opened Basics
  import opened RateLimit

  /** Go's remainder takes the sign of the dividend. */
  function GoMod(a: int, b: int): int
    requires b > 0
  {
    if a >= 0 then a % b else -((-a) % b)
  }

  /** The part of a profile that the gates read and write. */
  datatype Gate = Gate(rlLimit: int64, rlWindowMs: int64, rlStartMs: int64, rlState: uint64,
                       sampleRate: int64, sampleCount: int64)
  {
    /** Sampling first, one ticket per call; then the rate limit, while others
        install the words of `interference`. */
    function Check(nowMs: int64, interference: seq<uint64>): (bool, Gate) {
      var ticket := WrapInt64(sampleCount + 1);
      if sampleRate > 0 && GoMod(ticket, sampleRate) != 0 then (false, this.(sampleCount := ticket))
      else
        var g := if sampleRate > 0 then this.(sampleCount := ticket) else this;
        if rlLimit <= 0 then (true, g)
        else
          var d := CasLoop(rlState, interference, NowWindow(rlStartMs, rlWindowMs, nowMs), EffectiveLimit(rlLimit));
          (d.admitted, g.(rlState := d.state))
    }
  }

  /** The word a caller finds after k interfering writes. */
  function Installed(first: uint64, interference: seq<uint64>, k: nat): uint64
    requires k <= |interference|
  {
    if k == 0 then first else interference[k - 1]
  }

  /** The CAS loop started on a word: a rejecting load ends it, and so does a
      CAS that finds the word it loaded; otherwise it goes on from the word
      that was installed in between. */
  function CasLoop(word: uint64, interference: seq<uint64>, nowWin: nat, limit: nat): Decision
    requires nowWin <= MAX_WINDOW && 1 <= limit <= COUNT_MASK
    decreases |interference|
  {
    var d := AtomicCheck(word, nowWin, limit);
    if !d.admitted || interference == [] || interference[0] == word then d
    else CasLoop(interference[0], interference[1..], nowWin, limit)
  }

  /** The loop takes effect as one atomic check of a word it found: the first
      that rejects, or that is still there when it is exchanged. No word that
      another installed is overwritten unseen. */
  lemma {:induction false} CasLoopAtomic(word: uint64, interference: seq<uint64>, nowWin: nat, limit: nat)
    returns (k: nat)
    requires nowWin <= MAX_WINDOW && 1 <= limit <= COUNT_MASK
    ensures k <= |interference|
    ensures CasLoop(word, interference, nowWin, limit) ==
            AtomicCheck(Installed(word, interference, k), nowWin, limit)
    ensures forall j :: 0 <= j < k ==>
              && AtomicCheck(Installed(word, interference, j), nowWin, limit).admitted
              && interference[j] != Installed(word, interference, j)
    ensures || !AtomicCheck(Installed(word, interference, k), nowWin, limit).admitted
            || k == |interference| || interference[k] == Installed(word, interference, k)
    decreases |interference|
  {
    hide AtomicCheck;
    var d := AtomicCheck(word, nowWin, limit);
    if !d.admitted || interference == [] || interference[0] == word {
      k := 0;
    } else {
      k := CasLoopAtomic(interference[0], interference[1..], nowWin, limit);
      var rest := interference[1..];
      assert forall j :: 0 <= j <= k ==> Installed(interference[0], rest, j) == Installed(word, interference, j + 1);
      forall j | 1 <= j < k + 1
        ensures AtomicCheck(Installed(word, interference, j), nowWin, limit).admitted
        ensures interference[j] != Installed(word, interference, j)
      {
        assert rest[j - 1] == interference[j];
        assert Installed(interference[0], rest, j - 1) == Installed(word, interference, j);
      }
      k := k + 1;
    }
  }

  /** So does the whole gate: with interfering words it is the undisturbed gate
      on a profile that holds the word found. */
  lemma CheckAtomic(g: Gate, nowMs: int64, interference: seq<uint64>) returns (k: nat)
    ensures k <= |interference|
    ensures g.Check(nowMs, interference) == g.(rlState := Installed(g.rlState, interference, k)).Check(nowMs, [])
  {
    hide AtomicCheck, NowWindow, EffectiveLimit, WrapInt64, GoMod;
    k := 0;
    if g.rlLimit > 0 && !(g.sampleRate > 0 && GoMod(WrapInt64(g.sampleCount + 1), g.sampleRate) != 0) {
      k := CasLoopAtomic(g.rlState, interference,
                         NowWindow(g.rlStartMs, g.rlWindowMs, nowMs), EffectiveLimit(g.rlLimit));
    }
  }

  class SubProfile {
    var name: bytes
    var textPrefix: bytes
    var jsonPrefix: bytes
    var rlLimit: int64
    var rlWindowMs: int64
    var rlStartMs: int64
    var rlState: uint64
    var sampleRate: int64
    var sampleCount: int64

    ghost function Gates(): Gate
      reads this
    {
      Gate(rlLimit, rlWindowMs, rlStartMs, rlState, sampleRate, sampleCount)
    }

    constructor (name: bytes)
      ensures this.name == name && textPrefix == [] && jsonPrefix == []
      ensures Gates() == Gate(0, 0, 0, 0, 0, 0)
    {
      this.name := name;
      textPrefix, jsonPrefix := [], [];
      rlLimit, rlWindowMs, rlStartMs, rlState, sampleRate, sampleCount := 0, 0, 0, 0, 0, 0;
    }

    /** After the option, the limit is exactly representable in 24 bits and the
        window has at least one millisecond. */
    method WithRateLimit(limit: int64, windowNs: int64, nowMs: int64)
      modifies this`rlLimit, this`rlWindowMs, this`rlStartMs
      ensures 0 <= rlLimit <= COUNT_MASK && rlWindowMs >= 1 && rlStartMs == nowMs
      ensures limit <= 0 <==> rlLimit == 0
      ensures 0 < limit ==> rlLimit == EffectiveLimit(limit) == EffectiveLimit(rlLimit)
      ensures windowNs >= 1_000_000 ==> rlWindowMs * 1_000_000 <= windowNs < (rlWindowMs + 1) * 1_000_000
      ensures windowNs < 1_000_000 ==> rlWindowMs == 1
    {
      var capped := limit;
      if capped < 0 {
        capped := 0;
      }
      if capped > COUNT_MASK {
        capped := COUNT_MASK;
      }
      rlLimit := capped;
      rlWindowMs := if windowNs >= 0 then windowNs / 1_000_000 else -((0 - windowNs) / 1_000_000);
      if rlWindowMs < 1 {
        rlWindowMs := 1;
      }
      rlStartMs := nowMs;
    }

    /** The CAS loop. `interference` are the words other goroutines install,
        one between each load and the CAS that follows it; they are arbitrary.
        The call still takes effect as one atomic check of a word it found. */
    method CheckAtomicRateLimitAt(nowMs: int64, interference: seq<uint64>) returns (admitted: bool)
      modifies this`rlState
      ensures rlLimit <= 0 ==> admitted && rlState == old(rlState)
      ensures rlLimit > 0 ==>
                Decision(admitted, rlState) ==
                CasLoop(old(rlState), interference, NowWindow(rlStartMs, rlWindowMs, nowMs), EffectiveLimit(rlLimit))
      ensures rlLimit > 0 ==>
                exists k :: 0 <= k <= |interference|
                            && AtomicCheck(Installed(old(rlState), interference, k),
                                           NowWindow(rlStartMs, rlWindowMs, nowMs), EffectiveLimit(rlLimit))
                               == Decision(admitted, rlState)
    {
      if rlLimit <= 0 {
        return true;
      }
      var nowWin := NowWindow(rlStartMs, rlWindowMs, nowMs);
      var limit := EffectiveLimit(rlLimit);
      var attempts := 0;
      var k := 0;
      while true
        invariant 0 <= k <= |interference|
        invariant rlState == Installed(old(rlState), interference, k)
        invariant CasLoop(rlState, interference[k..], nowWin, limit) ==
                  CasLoop(old(rlState), interference, nowWin, limit)
        decreases |interference| - k
      {
        var state := rlState;
        var win := Window(state);
        var cnt := Count(state);
        var next: uint64;
        if win < nowWin {
          next := OpenWindow(nowWin);
        } else {
          if cnt >= limit {
            return false;
          }
          next := Increment(state);
        }
        if k < |interference| {
          rlState := interference[k];
          k := k + 1;
        }
        if rlState == state {
          rlState := next;
          return true;
        }
        attempts := attempts + 1;
        if attempts >= 8 {
          attempts := 0;
        }
      }
    }

    /** passGates: the SubLogger path. With arbitrary words installed meanwhile
        by others, the call is the specified gate check. */
    method PassGates(nowMs: int64, interference: seq<uint64>) returns (ok: bool)
      modifies this`rlState, this`sampleCount
      ensures (ok, Gates()) == old(Gates()).Check(nowMs, interference)
    {
      if sampleRate > 0 {
        sampleCount := WrapInt64(sampleCount + 1);
        if GoMod(sampleCount, sampleRate) != 0 {
          return false;
        }
      }
      if rlLimit > 0 {
        var admitted := CheckAtomicRateLimitAt(nowMs, interference);
        if !admitted {
          return false;
        }
      }
      return true;
    }
  }

  // -- Interleavings ----------------------------------------------------------------

  /** Limit 0 is "no rate limit", rate <= 0 is "no sampling". */
  datatype Setting = Setting(limit: nat, rate: int64) {
    ghost predicate Valid() {
      limit <= COUNT_MASK
    }
  }

  /** Where one call is. `win` is the window of the clock value it read, which
      may be arbitrarily stale; `against` the window it was counted in. */
  datatype Call =
    | Start(win: nat)
    | Checking(win: nat)
    | Loaded(win: nat, state: uint64)
    | Sampled                             // discarded by sampling
    | Unlimited(win: nat)                 // admitted, the profile has no rate limit
    | Passed(win: nat, against: nat)
    | Rejected(win: nat, against: nat)

  /** A linearisation point: the successful CAS or the rejecting load. */
  datatype Check = Check(call: nat, win: nat, admitted: bool)

  datatype World = World(word: uint64, sampleCount: int64, calls: seq<Call>,
                         casOk: nat, casFailed: nat, log: seq<Check>)

  function AfterSampling(c: Setting, win: nat): Call {
    if c.limit > 0 then Checking(win) else Unlimited(win)
  }

  /** One atomic action of call i: its sampling ticket, its load, or its CAS. */
  function Step(c: Setting, s: World, i: nat): World {
    if i >= |s.calls| then s
    else
      match s.calls[i]
      case Start(win) =>
        if c.rate > 0 then
          var ticket := WrapInt64(s.sampleCount + 1);
          s.(sampleCount := ticket,
             calls := s.calls[i := if GoMod(ticket, c.rate) != 0 then Sampled else AfterSampling(c, win)])
        else s.(calls := s.calls[i := AfterSampling(c, win)])
      case Checking(win) =>
        if Window(s.word) >= win && Count(s.word) >= c.limit then
          s.(calls := s.calls[i := Rejected(win, Window(s.word))], log := s.log + [Check(i, win, false)])
        else s.(calls := s.calls[i := Loaded(win, s.word)])
      case Loaded(win, state) =>
        if s.word == state then
          var next := if Window(state) < win then OpenWindow(win) else Increment(state);
          s.(word := next, calls := s.calls[i := Passed(win, Window(next))],
             casOk := s.casOk + 1, log := s.log + [Check(i, win, true)])
        else s.(calls := s.calls[i := Checking(win)], casFailed := s.casFailed + 1)
      case _ => s
  }

  function Run(c: Setting, s: World, schedule: seq<nat>): World {
    if schedule == [] then s
    else Step(c, Run(c, s, schedule[..|schedule| - 1]), schedule[|schedule| - 1])
  }

  /** A fresh profile and one call per clock value. */
  function Fresh(wins: seq<nat>): World {
    World(0, 0, seq(|wins|, i requires 0 <= i < |wins| => Start(wins[i])), 0, 0, [])
  }

  ghost predicate Windowed(wins: seq<nat>) {
    && (forall i :: 0 <= i < |wins| ==> wins[i] <= MAX_WINDOW)
    && |wins| < TWO_63
  }

  ghost function PassedAgainst(w: nat): Call -> bool {
    (c: Call) => c.Passed? && c.against == w
  }

  /** Admitted calls counted in window w. */
  ghost function AdmittedTo(s: World, w: nat): nat {
    CountIf(PassedAgainst(w), s.calls)
  }

  lemma RunNext(c: Setting, s: World, schedule: seq<nat>, i: nat)
    ensures Run(c, s, schedule + [i]) == Step(c, Run(c, s, schedule), i)
  {
    assert (schedule + [i])[..|schedule|] == schedule;
  }

  lemma RunThrice(c: Setting, s: World, i: nat)
    ensures Run(c, s, [i, i, i]) == Step(c, Step(c, Step(c, s, i), i), i)
  {
    hide Step;
    assert [i] == [] + [i] && [i, i] == [i] + [i] && [i, i, i] == [i, i] + [i];
    RunNext(c, s, [], i);
    RunNext(c, s, [i], i);
    RunNext(c, s, [i, i], i);
  }

  /** A call that nobody interleaves with ends as one gate check: the steps of
      the machine and the methods of the profile are the same gates. */
  lemma AloneIsCheck(c: Setting, s: World, i: nat, g: Gate, nowMs: int64)
    requires i < |s.calls| && s.calls[i] == Start(NowWindow(g.rlStartMs, g.rlWindowMs, nowMs))
    requires c.rate == g.sampleRate && c.limit == (if g.rlLimit <= 0 then 0 else EffectiveLimit(g.rlLimit))
    requires s.word == g.rlState && s.sampleCount == g.sampleCount
    ensures var t := Run(c, s, [i, i, i]);
            var (admitted, after) := g.Check(nowMs, []);
            && t.word == after.rlState && t.sampleCount == after.sampleCount
            && |t.calls| == |s.calls| && (forall k :: 0 <= k < |s.calls| && k != i ==> t.calls[k] == s.calls[k])
            && (if admitted then t.calls[i].Passed? || t.calls[i].Unlimited?
                else t.calls[i].Sampled? || t.calls[i].Rejected?)
  {
    hide Run, Window, Count, OpenWindow, Increment, WrapInt64, GoMod, NowWindow;
    RunThrice(c, s, i);
  }

  // -- The word and the per-window quota ---------------------------------------------

  ghost predicate CallOk(c: Setting, s: World, call: Call) {
    match call
    case Start(win) => win <= MAX_WINDOW
    case Checking(win) => win <= MAX_WINDOW && c.limit > 0
    case Loaded(win, state) =>
      win <= MAX_WINDOW && c.limit > 0 && state <= s.word && (Window(state) < win || Count(state) < c.limit)
    case Unlimited(win) => c.limit == 0
    case Passed(win, against) => c.limit > 0 && win <= against
    case Rejected(win, against) => c.limit > 0 && win <= against <= Window(s.word) && AdmittedTo(s, against) == c.limit
    case _ => true
  }

  ghost predicate QuotaOk(c: Setting, s: World, w: nat) {
    && (w == Window(s.word) ==> AdmittedTo(s, w) == Count(s.word))
    && (w > Window(s.word) ==> AdmittedTo(s, w) == 0)
    && (c.limit > 0 ==> AdmittedTo(s, w) <= c.limit)
  }

  ghost predicate QuotaInv(c: Setting, s: World) {
    && c.Valid()
    && (forall i :: 0 <= i < |s.calls| ==> CallOk(c, s, s.calls[i]))
    && (forall w: nat :: QuotaOk(c, s, w))
  }

  /** A step leaves the word alone or makes it strictly larger: no ABA. */
  lemma WordGrows(c: Setting, s: World, i: nat)
    requires QuotaInv(c, s)
    ensures var t := Step(c, s, i); if t.casOk == s.casOk then t.word == s.word else t.word > s.word
  {
    if i < |s.calls| && s.calls[i].Loaded? {
      assert CallOk(c, s, s.calls[i]);
      WordLayout(s.word, s.calls[i].win);
    }
  }

  lemma WindowGrows(a: uint64, b: uint64)
    requires a <= b
    ensures Window(a) <= Window(b)
  {
    QuotientMonotone(a, b, COUNT_BASE);
  }

  lemma AdmittedStep(c: Setting, s: World, i: nat, w: nat)
    requires i < |s.calls|
    ensures var t := Step(c, s, i);
            && |t.calls| == |s.calls|
            && AdmittedTo(t, w) == AdmittedTo(s, w) - (if PassedAgainst(w)(s.calls[i]) then 1 else 0)
                                   + (if PassedAgainst(w)(t.calls[i]) then 1 else 0)
  {
    hide Window, Count, OpenWindow, Increment, WrapInt64, GoMod, AfterSampling, PassedAgainst;
    var t := Step(c, s, i);
    if t.calls != s.calls {
      CountIfUpdate(PassedAgainst(w), s.calls, i, t.calls[i]);
    }
  }

  lemma QuotaCount(c: Setting, s: World, i: nat, w: nat)
    requires QuotaInv(c, s) && i < |s.calls|
    ensures QuotaOk(c, Step(c, s, i), w)
  {
    hide Window, Count, OpenWindow, Increment, WrapInt64, GoMod, AdmittedTo;
    assert CallOk(c, s, s.calls[i]);
    AdmittedStep(c, s, i, w);
    WordLayout(s.word, if s.calls[i].Loaded? then s.calls[i].win else 0);
    assert QuotaOk(c, s, w);
  }

  lemma QuotaCall(c: Setting, s: World, i: nat, k: nat)
    requires QuotaInv(c, s) && i < |s.calls| && k < |s.calls|
    requires forall w: nat :: QuotaOk(c, Step(c, s, i), w)
    ensures CallOk(c, Step(c, s, i), Step(c, s, i).calls[k])
  {
    hide Window, Count, OpenWindow, Increment, WrapInt64, GoMod, AdmittedTo;
    var t := Step(c, s, i);
    assert CallOk(c, s, s.calls[i]) && CallOk(c, s, s.calls[k]);
    WordGrows(c, s, i);
    WindowGrows(s.word, t.word);
    WordLayout(s.word, if s.calls[i].Loaded? then s.calls[i].win else 0);
    if t.calls[k].Rejected? {
      AdmittedStep(c, s, i, t.calls[k].against);
      assert QuotaOk(c, s, t.calls[k].against) && QuotaOk(c, t, t.calls[k].against);
    }
  }

  lemma QuotaStep(c: Setting, s: World, i: nat)
    requires QuotaInv(c, s)
    ensures QuotaInv(c, Step(c, s, i))
  {
    hide QuotaOk, CallOk;
    if i < |s.calls| {
      AdmittedStep(c, s, i, 0);
      forall w: nat
        ensures QuotaOk(c, Step(c, s, i), w)
      {
        QuotaCount(c, s, i, w);
      }
      forall k | 0 <= k < |s.calls|
        ensures CallOk(c, Step(c, s, i), Step(c, s, i).calls[k])
      {
        QuotaCall(c, s, i, k);
      }
    }
  }

  lemma QuotaFresh(c: Setting, wins: seq<nat>)
    requires c.Valid() && Windowed(wins)
    ensures QuotaInv(c, Fresh(wins))
  {
    forall w: nat
      ensures QuotaOk(c, Fresh(wins), w)
    {
      CountIfNone(PassedAgainst(w), Fresh(wins).calls);
    }
  }

  lemma {:induction false} QuotaRun(c: Setting, wins: seq<nat>, schedule: seq<nat>)
    requires c.Valid() && Windowed(wins)
    ensures QuotaInv(c, Run(c, Fresh(wins), schedule))
  {
    if schedule == [] {
      QuotaFresh(c, wins);
    } else {
      QuotaRun(c, wins, schedule[..|schedule| - 1]);
      QuotaStep(c, Run(c, Fresh(wins), schedule[..|schedule| - 1]), schedule[|schedule| - 1]);
    }
  }

  /** In every interleaving of loads and CASes, with arbitrary stale clocks, no
      window admits more than the limit (the saturated last window included),
      and a call is rejected only against a window that is already full. */
  lemma LimiterSafe(c: Setting, wins: seq<nat>, schedule: seq<nat>, w: nat)
    requires c.Valid() && c.limit > 0 && Windowed(wins)
    ensures var s := Run(c, Fresh(wins), schedule);
            && AdmittedTo(s, w) <= c.limit
            && (forall i :: 0 <= i < |s.calls| && s.calls[i].Rejected?
                  ==> s.calls[i].win <= s.calls[i].against && AdmittedTo(s, s.calls[i].against) == c.limit)
            && (forall i :: 0 <= i < |s.calls| && s.calls[i].Passed? ==> s.calls[i].win <= s.calls[i].against)
  {
    var s := Run(c, Fresh(wins), schedule);
    QuotaRun(c, wins, schedule);
    assert QuotaOk(c, s, w);
    forall i | 0 <= i < |s.calls|
      ensures CallOk(c, s, s.calls[i])
    {
    }
  }

  // -- Linearisability -----------------------------------------------------------------

  function LogWins(log: seq<Check>): (wins: seq<nat>)
    ensures |wins| == |log|
    ensures forall k :: 0 <= k < |log| ==> wins[k] == log[k].win
  {
    seq(|log|, k requires 0 <= k < |log| => log[k].win)
  }

  /** The call of a log record has finished with the recorded outcome. */
  ghost predicate Records(s: World, e: Check) {
    && e.call < |s.calls|
    && (var call := s.calls[e.call];
        if e.admitted then call.Passed? && call.win == e.win else call.Rejected? && call.win == e.win)
  }

  /** Replaying the log through the atomic limiter gives the recorded answers. */
  ghost predicate Replays(c: Setting, log: seq<Check>, word: uint64) {
    && After(0, LogWins(log), c.limit) == word
    && (forall k :: 0 <= k < |log| ==> AdmittedAt(0, LogWins(log), c.limit, k) == log[k].admitted)
  }

  ghost predicate Logged(log: seq<Check>, i: nat) {
    exists k :: 0 <= k < |log| && log[k].call == i
  }

  ghost predicate LogInv(c: Setting, s: World) {
    && Replays(c, s.log, s.word)
    && (forall k :: 0 <= k < |s.log| ==> Records(s, s.log[k]))
    && (forall j, k :: 0 <= j < k < |s.log| ==> s.log[j].call != s.log[k].call)
    && (forall i :: 0 <= i < |s.calls| && (s.calls[i].Passed? || s.calls[i].Rejected?) ==> Logged(s.log, i))
  }

  lemma ReplayExtends(c: Setting, log: seq<Check>, word: uint64, e: Check)
    requires Replays(c, log, word)
    requires e.admitted == AtomicCheck(word, e.win, c.limit).admitted
    ensures Replays(c, log + [e], AtomicCheck(word, e.win, c.limit).state)
  {
    hide AtomicCheck;
    var wins := LogWins(log + [e]);
    assert wins[..|log|] == LogWins(log);
    forall k | 0 <= k < |log + [e]|
      ensures AdmittedAt(0, wins, c.limit, k) == (log + [e])[k].admitted
    {
      if k < |log| {
        assert wins[..k] == LogWins(log)[..k];
        assert AdmittedAt(0, LogWins(log), c.limit, k) == log[k].admitted;
      }
    }
  }

  lemma StillLogged(log: seq<Check>, e: Check, i: nat)
    requires Logged(log, i) || e.call == i
    ensures Logged(log + [e], i)
  {
    var more := log + [e];
    if e.call == i {
      assert more[|log|].call == i;
    } else {
      var k :| 0 <= k < |log| && log[k].call == i;
      assert more[k].call == i;
    }
  }

  lemma LogStep(c: Setting, s: World, i: nat)
    requires QuotaInv(c, s) && LogInv(c, s)
    ensures LogInv(c, Step(c, s, i))
  {
    hide Window, Count, OpenWindow, Increment, WrapInt64, GoMod, Replays;
    var t := Step(c, s, i);
    if i < |s.calls| {
      assert CallOk(c, s, s.calls[i]);
      assert forall k :: 0 <= k < |s.log| ==> Records(s, s.log[k]);
      if t.log != s.log {
        hide LogInv, QuotaInv;
        var e := t.log[|s.log|];
        assert Replays(c, s.log, s.word) by { LogReplays(c, s); }
        ReplayExtends(c, s.log, s.word, e);
        LogExtends(c, s, t, i, e);
      } else {
        assert forall j :: 0 <= j < |s.calls| && (s.calls[j].Passed? || s.calls[j].Rejected?) ==> Logged(s.log, j);
      }
    }
  }

  lemma LogReplays(c: Setting, s: World)
    requires LogInv(c, s)
    ensures Replays(c, s.log, s.word)
  {
  }

  lemma LogExtends(c: Setting, s: World, t: World, i: nat, e: Check)
    requires LogInv(c, s) && t.log == s.log + [e] && Replays(c, t.log, t.word)
    requires i < |s.calls| == |t.calls| && !s.calls[i].Passed? && !s.calls[i].Rejected?
    requires forall k :: 0 <= k < |s.calls| && k != i ==> t.calls[k] == s.calls[k]
    requires e.call == i && Records(t, e)
    ensures LogInv(c, t)
  {
    hide Replays;
    forall k | 0 <= k < |t.log|
      ensures Records(t, t.log[k])
    {
      assert k < |s.log| ==> Records(s, s.log[k]);
    }
    forall j | 0 <= j < |t.calls| && (t.calls[j].Passed? || t.calls[j].Rejected?)
      ensures Logged(t.log, j)
    {
      StillLogged(s.log, e, j);
    }
  }

  lemma {:induction false} LogRun(c: Setting, wins: seq<nat>, schedule: seq<nat>)
    requires c.Valid() && Windowed(wins)
    ensures LogInv(c, Run(c, Fresh(wins), schedule))
  {
    if schedule != [] {
      var before := schedule[..|schedule| - 1];
      LogRun(c, wins, before);
      QuotaRun(c, wins, before);
      LogStep(c, Run(c, Fresh(wins), before), schedule[|schedule| - 1]);
    }
  }

  lemma {:induction false} LogGrows(c: Setting, s: World, schedule: seq<nat>, k: nat)
    requires k <= |schedule|
    ensures Run(c, s, schedule[..k]).log <= Run(c, s, schedule).log
  {
    if k == |schedule| {
      assert schedule[..k] == schedule;
    } else {
      hide Window, Count, OpenWindow, Increment, WrapInt64, GoMod, AfterSampling;
      LogGrows(c, s, schedule[..|schedule| - 1], k);
      assert schedule[..|schedule| - 1][..k] == schedule[..k];
    }
  }

  /** Call i has been decided by the limiter. */
  predicate Decided(s: World, i: nat) {
    i < |s.calls| && (s.calls[i].Passed? || s.calls[i].Rejected?)
  }

  /** The log respects real time: whenever at some moment of the run one call
      was decided and another was not, the first stands before the other. */
  ghost predicate RealTime(c: Setting, start: World, schedule: seq<nat>, log: seq<Check>) {
    forall k, p, q | 0 <= k <= |schedule| && 0 <= p < |log| && 0 <= q < |log|
                     && Decided(Run(c, start, schedule[..k]), log[p].call)
                     && !Decided(Run(c, start, schedule[..k]), log[q].call) :: p < q
  }

  lemma DecidedFirst(c: Setting, wins: seq<nat>, schedule: seq<nat>, k: nat, p: nat, q: nat)
    requires c.Valid() && Windowed(wins) && k <= |schedule|
    requires LogInv(c, Run(c, Fresh(wins), schedule))
    requires p < |Run(c, Fresh(wins), schedule).log| && q < |Run(c, Fresh(wins), schedule).log|
    requires Decided(Run(c, Fresh(wins), schedule[..k]), Run(c, Fresh(wins), schedule).log[p].call)
    requires !Decided(Run(c, Fresh(wins), schedule[..k]), Run(c, Fresh(wins), schedule).log[q].call)
    ensures p < |Run(c, Fresh(wins), schedule[..k]).log| <= q
  {
    hide Run, Step, Replays;
    var at, log := Run(c, Fresh(wins), schedule[..k]), Run(c, Fresh(wins), schedule).log;
    LogGrows(c, Fresh(wins), schedule, k);
    LogRun(c, wins, schedule[..k]);
    assert Logged(at.log, log[p].call);
    var m :| 0 <= m < |at.log| && at.log[m].call == log[p].call;
    assert log[m] == at.log[m];
    assert m == p;
    forall r | 0 <= r < |at.log|
      ensures Decided(at, log[r].call)
    {
      assert log[r] == at.log[r] && Records(at, at.log[r]);
    }
  }

  /** Every interleaving is equivalent to running the finished calls one at a
      time, in an order that respects real time: the log holds each finished
      call once, replaying it through the atomic limiter gives the same answers
      and the same word, and no call stands before one that was decided while
      it was not. */
  lemma Linearizable(c: Setting, wins: seq<nat>, schedule: seq<nat>)
    requires c.Valid() && c.limit > 0 && Windowed(wins)
    ensures var s := Run(c, Fresh(wins), schedule);
            && Replays(c, s.log, s.word)
            && (forall k :: 0 <= k < |s.log| ==> Records(s, s.log[k]))
            && (forall j, k :: 0 <= j < k < |s.log| ==> s.log[j].call != s.log[k].call)
            && (forall i :: 0 <= i < |s.calls| && (s.calls[i].Passed? || s.calls[i].Rejected?) ==> Logged(s.log, i))
            && RealTime(c, Fresh(wins), schedule, s.log)
  {
    LogRun(c, wins, schedule);
    var log := Run(c, Fresh(wins), schedule).log;
    forall k, p, q | 0 <= k <= |schedule| && 0 <= p < |log| && 0 <= q < |log|
                     && Decided(Run(c, Fresh(wins), schedule[..k]), log[p].call)
                     && !Decided(Run(c, Fresh(wins), schedule[..k]), log[q].call)
      ensures p < q
    {
      DecidedFirst(c, wins, schedule, k, p, q);
    }
  }

  // -- Progress ----------------------------------------------------------------------

  ghost function StaleTest(word: uint64): Call -> bool {
    (call: Call) => call.Loaded? && call.state != word
  }

  ghost function UnfinishedTest(): Call -> bool {
    (call: Call) => call.Start? || call.Checking? || call.Loaded?
  }

  /** Calls whose CAS is bound to fail. */
  ghost function Stale(s: World): nat {
    CountIf(StaleTest(s.word), s.calls)
  }

  ghost function Unfinished(s: World): nat {
    CountIf(UnfinishedTest(), s.calls)
  }

  /** (n-1) + (n-2) + ... over the first k successes. */
  ghost function FailureBudget(n: nat, k: nat): int {
    if k == 0 then 0 else FailureBudget(n, k - 1) + n - k
  }

  /** Every pending CAS was prepared from a word that was installed before and
      that admitted the call. */
  ghost predicate LoadsOk(c: Setting, s: World) {
    forall i :: 0 <= i < |s.calls| && s.calls[i].Loaded? ==> LoadOk(c, s.word, s.calls[i])
  }

  ghost predicate LoadOk(c: Setting, word: uint64, call: Call)
    requires call.Loaded?
  {
    call.win <= MAX_WINDOW && call.state <= word && (Window(call.state) < call.win || Count(call.state) < c.limit)
  }

  lemma QuotaLoads(c: Setting, s: World)
    requires QuotaInv(c, s)
    ensures LoadsOk(c, s)
  {
    forall i | 0 <= i < |s.calls| && s.calls[i].Loaded?
      ensures LoadOk(c, s.word, s.calls[i])
    {
      assert CallOk(c, s, s.calls[i]);
    }
  }

  /** The clocks of calls that are under way. */
  ghost predicate ClocksOk(s: World) {
    forall i :: 0 <= i < |s.calls| && (s.calls[i].Start? || s.calls[i].Checking?) ==> s.calls[i].win <= MAX_WINDOW
  }

  /** Progress since s0: successes use up unfinished calls, and each success
      makes at most the other unfinished calls stale. */
  ghost predicate ProgressInv(c: Setting, s0: World, s: World) {
    && LoadsOk(c, s) && ClocksOk(s)
    && s0.casOk <= s.casOk && s0.casFailed <= s.casFailed
    && s.casOk - s0.casOk + Unfinished(s) <= Unfinished(s0)
    && s.casFailed - s0.casFailed + Stale(s) <= FailureBudget(Unfinished(s0), s.casOk - s0.casOk) + Stale(s0)
  }

  lemma LoadsStep(c: Setting, s: World, i: nat)
    requires c.Valid() && LoadsOk(c, s) && ClocksOk(s)
    ensures LoadsOk(c, Step(c, s, i)) && ClocksOk(Step(c, s, i))
    ensures var t := Step(c, s, i); if t.casOk == s.casOk then t.word == s.word else t.word > s.word
  {
    hide WrapInt64, GoMod, OpenWindow, Increment, Window, Count;
    if i < |s.calls| && s.calls[i].Loaded? {
      assert LoadOk(c, s.word, s.calls[i]);
      WordLayout(s.word, s.calls[i].win);
    }
  }

  /** What one step does to the calls under way and to the stale ones. */
  lemma CountsStep(c: Setting, s: World, i: nat)
    requires c.Valid() && LoadsOk(c, s) && ClocksOk(s)
    ensures var t := Step(c, s, i);
            if t.casOk != s.casOk
            then t.casOk == s.casOk + 1 && t.casFailed == s.casFailed
                 && Unfinished(t) == Unfinished(s) - 1 && Stale(t) <= Unfinished(t)
            else Unfinished(t) <= Unfinished(s) && s.casFailed <= t.casFailed
                 && t.casFailed + Stale(t) <= s.casFailed + Stale(s)
  {
    hide LoadsOk, ClocksOk, WrapInt64, GoMod, OpenWindow, Increment, Window, Count;
    var t := Step(c, s, i);
    LoadsStep(c, s, i);
    if i < |s.calls| && t != s {
      CountIfUpdate(UnfinishedTest(), s.calls, i, t.calls[i]);
      if t.casOk == s.casOk {
        CountIfUpdate(StaleTest(s.word), s.calls, i, t.calls[i]);
      } else {
        CountIfImplied(StaleTest(t.word), UnfinishedTest(), t.calls);
      }
    }
  }

  lemma ProgressStep(c: Setting, s0: World, s: World, i: nat)
    requires c.Valid() && ProgressInv(c, s0, s)
    ensures ProgressInv(c, s0, Step(c, s, i))
  {
    hide LoadsOk, ClocksOk, Step, Unfinished, Stale;
    LoadsStep(c, s, i);
    CountsStep(c, s, i);
  }

  lemma {:induction false} ProgressRun(c: Setting, s: World, schedule: seq<nat>)
    requires c.Valid() && LoadsOk(c, s) && ClocksOk(s)
    ensures ProgressInv(c, s, Run(c, s, schedule))
  {
    if schedule != [] {
      var before := schedule[..|schedule| - 1];
      ProgressRun(c, s, before);
      ProgressStep(c, s, Run(c, s, before), schedule[|schedule| - 1]);
    }
  }

  lemma {:induction false} BudgetSum(n: nat, k: nat)
    ensures 2 * FailureBudget(n, k) == 2 * (n * k) - k * k - k
  {
    if k > 0 {
      BudgetSum(n, k - 1);
      assert n * (k - 1) == n * k - n;
      assert (k - 1) * (k - 1) == k * k - 2 * k + 1;
    }
  }

  lemma BudgetBound(n: nat, k: nat)
    requires k <= n
    ensures 2 * FailureBudget(n, k) <= n * (n - 1)
  {
    BudgetSum(n, n);
    BudgetGrows(n, k, n);
    assert n * (n - 1) == n * n - n;
  }

  lemma {:induction false} BudgetGrows(n: nat, k: nat, m: nat)
    requires k <= m <= n
    ensures FailureBudget(n, k) <= FailureBudget(n, m)
  {
    if k < m {
      BudgetGrows(n, k, m - 1);
    }
  }

  /** From any point of a run, with any word and any number of earlier calls:
      whatever the schedule, the n calls still under way perform at most n
      successful and n*(n-1)/2 failed CAS operations, plus one for each CAS that
      is bound to fail already. The loop cannot spin without others making
      progress. */
  lemma CasBound(c: Setting, s: World, schedule: seq<nat>)
    requires c.Valid() && LoadsOk(c, s) && ClocksOk(s)
    ensures var t, n := Run(c, s, schedule), Unfinished(s);
            && s.casOk <= t.casOk <= s.casOk + n
            && s.casFailed <= t.casFailed
            && 2 * (t.casFailed - s.casFailed) <= n * (n - 1) + 2 * Stale(s)
  {
    ProgressRun(c, s, schedule);
    BudgetBound(Unfinished(s), Run(c, s, schedule).casOk - s.casOk);
  }

  /** Every state that a fresh profile can reach is such a point, and with no
      call between its load and its CAS none is bound to fail. */
  lemma CasBoundReached(c: Setting, wins: seq<nat>, earlier: seq<nat>, schedule: seq<nat>)
    requires c.Valid() && Windowed(wins)
    ensures var s := Run(c, Fresh(wins), earlier);
            var t, n := Run(c, s, schedule), Unfinished(s);
            && t.casOk - s.casOk <= n
            && 2 * (t.casFailed - s.casFailed) <= n * (n - 1) + 2 * Stale(s)
            && ((forall i :: 0 <= i < |s.calls| ==> !s.calls[i].Loaded?) ==> Stale(s) == 0)
            && (earlier == [] ==> n == |wins| && Stale(s) == 0)
  {
    var s := Run(c, Fresh(wins), earlier);
    QuotaRun(c, wins, earlier);
    QuotaLoads(c, s);
    forall i | 0 <= i < |s.calls| && (s.calls[i].Start? || s.calls[i].Checking?)
      ensures s.calls[i].win <= MAX_WINDOW
    {
      assert CallOk(c, s, s.calls[i]);
    }
    CasBound(c, s, schedule);
    if forall i :: 0 <= i < |s.calls| ==> !s.calls[i].Loaded? {
      CountIfNone(StaleTest(s.word), s.calls);
    }
    if earlier == [] {
      CountIfAll(UnfinishedTest(), s.calls);
    }
  }

  // -- Exact gate counts ----------------------------------------------------------------

  ghost function StartTest(): Call -> bool {
    (call: Call) => call.Start?
  }

  ghost function SampledTest(): Call -> bool {
    (call: Call) => call.Sampled?
  }

  ghost function AdmittedTest(): Call -> bool {
    (call: Call) => call.Passed? || call.Unlimited?
  }

  ghost predicate SamplingInv(c: Setting, s: World) {
    && |s.calls| < TWO_63
    && (c.rate > 0 ==>
          && s.sampleCount == |s.calls| - CountIf(StartTest(), s.calls)
          && CountIf(SampledTest(), s.calls) == s.sampleCount - s.sampleCount / c.rate)
    && (c.rate <= 0 ==> CountIf(SampledTest(), s.calls) == 0)
  }

  lemma NextTicket(count: nat, rate: int)
    requires rate > 0
    ensures (count + 1) % rate == 0 ==> (count + 1) / rate == count / rate + 1
    ensures (count + 1) % rate != 0 ==> (count + 1) / rate == count / rate
  {
    var q, r := count / rate, count % rate;
    assert count == q * rate + r;
    if r + 1 < rate {
      QuotientRemainder(count + 1, rate, q, r + 1);
    } else {
      assert count + 1 == (q + 1) * rate;
      QuotientRemainder(count + 1, rate, q + 1, 0);
    }
  }

  lemma SamplingStep(c: Setting, s: World, i: nat)
    requires SamplingInv(c, s)
    ensures SamplingInv(c, Step(c, s, i))
  {
    var t := Step(c, s, i);
    if i < |s.calls| && t != s {
      CountIfUpdate(StartTest(), s.calls, i, t.calls[i]);
      CountIfUpdate(SampledTest(), s.calls, i, t.calls[i]);
      if s.calls[i].Start? && c.rate > 0 {
        CountIfMember(StartTest(), s.calls, i);
        NextTicket(s.sampleCount, c.rate);
      }
    }
  }

  lemma {:induction false} CallsStay(c: Setting, s: World, schedule: seq<nat>)
    ensures |Run(c, s, schedule).calls| == |s.calls|
  {
    if schedule != [] {
      CallsStay(c, s, schedule[..|schedule| - 1]);
    }
  }

  lemma {:induction false} SamplingRun(c: Setting, wins: seq<nat>, schedule: seq<nat>)
    requires c.Valid() && Windowed(wins)
    ensures SamplingInv(c, Run(c, Fresh(wins), schedule))
  {
    if schedule == [] {
      CountIfAll(StartTest(), Fresh(wins).calls);
      CountIfNone(SampledTest(), Fresh(wins).calls);
    } else {
      SamplingRun(c, wins, schedule[..|schedule| - 1]);
      SamplingStep(c, Run(c, Fresh(wins), schedule[..|schedule| - 1]), schedule[|schedule| - 1]);
    }
  }

  /** All clocks in one window: nothing is ever counted elsewhere. */
  ghost predicate OneWindow(w: nat, s: World) {
    && Window(s.word) <= w
    && (forall i :: 0 <= i < |s.calls| ==>
          match s.calls[i]
          case Sampled => true
          case Passed(win, against) => win == against == w
          case Rejected(win, against) => win == against == w
          case call => call.win == w)
  }

  lemma {:induction false} OneWindowRun(c: Setting, wins: seq<nat>, schedule: seq<nat>, w: nat)
    requires c.Valid() && Windowed(wins) && w <= MAX_WINDOW
    requires forall i :: 0 <= i < |wins| ==> wins[i] == w
    ensures OneWindow(w, Run(c, Fresh(wins), schedule))
  {
    if schedule != [] {
      var before := schedule[..|schedule| - 1];
      OneWindowRun(c, wins, before, w);
      QuotaRun(c, wins, before);
      var s := Run(c, Fresh(wins), before);
      var i := schedule[|schedule| - 1];
      if i < |s.calls| {
        assert CallOk(c, s, s.calls[i]);
        WordLayout(s.word, w);
      }
    }
  }

  ghost predicate AllDone(s: World) {
    forall i :: 0 <= i < |s.calls| ==> !UnfinishedTest()(s.calls[i])
  }

  /** How many of n calls survive sampling. */
  function Survivors(rate: int64, n: nat): nat {
    if rate > 0 then n / rate else n
  }

  /** Once n concurrent calls on a fresh profile have all returned, exactly
      floor(n/rate) of them survived sampling; and if their clocks fall in one
      window exactly min(floor(n/rate), limit) are admitted. */
  lemma GateCount(c: Setting, wins: seq<nat>, schedule: seq<nat>, w: nat)
    requires c.Valid() && Windowed(wins) && w <= MAX_WINDOW
    requires AllDone(Run(c, Fresh(wins), schedule))
    ensures var s := Run(c, Fresh(wins), schedule);
            var survivors := Survivors(c.rate, |wins|);
            && |s.calls| == |wins|
            && CountIf(SampledTest(), s.calls) == |wins| - survivors
            && ((forall i :: 0 <= i < |wins| ==> wins[i] == w) ==>
                  CountIf(AdmittedTest(), s.calls) ==
                  if c.limit == 0 || survivors < c.limit then survivors else c.limit)
  {
    var s := Run(c, Fresh(wins), schedule);
    CallsStay(c, Fresh(wins), schedule);
    SamplingRun(c, wins, schedule);
    QuotaRun(c, wins, schedule);
    CountIfNone(StartTest(), s.calls);
    if forall i :: 0 <= i < |wins| ==> wins[i] == w {
      OneWindowRun(c, wins, schedule, w);
      OneWindowCount(c, s, w);
    }
  }

  ghost function RejectedTest(): Call -> bool {
    (call: Call) => call.Rejected?
  }

  ghost function SurvivorTest(): Call -> bool {
    (call: Call) => !call.Sampled?
  }

  ghost function AnyTest(): Call -> bool {
    (call: Call) => true
  }

  lemma OneWindowCount(c: Setting, s: World, w: nat)
    requires QuotaInv(c, s) && OneWindow(w, s) && AllDone(s)
    ensures var survivors := |s.calls| - CountIf(SampledTest(), s.calls);
            CountIf(AdmittedTest(), s.calls) == if c.limit == 0 || survivors < c.limit then survivors else c.limit
  {
    CountIfSplit(AnyTest(), SampledTest(), SurvivorTest(), s.calls);
    CountIfAll(AnyTest(), s.calls);
    assert forall i :: 0 <= i < |s.calls| ==> !UnfinishedTest()(s.calls[i]);
    CountIfSplit(SurvivorTest(), AdmittedTest(), RejectedTest(), s.calls);
    assert forall i :: 0 <= i < |s.calls| ==> CallOk(c, s, s.calls[i]);
    if c.limit == 0 {
      CountIfNone(RejectedTest(), s.calls);
    } else {
      FullWhenRejected(c, s, w);
      CountIfImplied(AdmittedTest(), PassedAgainst(w), s.calls);
      CountIfImplied(PassedAgainst(w), AdmittedTest(), s.calls);
    }
  }

  lemma FullWhenRejected(c: Setting, s: World, w: nat)
    requires QuotaInv(c, s) && OneWindow(w, s) && c.limit > 0
    ensures AdmittedTo(s, w) <= c.limit
    ensures CountIf(RejectedTest(), s.calls) > 0 ==> AdmittedTo(s, w) == c.limit
  {
    assert QuotaOk(c, s, w);
    if forall i :: 0 <= i < |s.calls| ==> !s.calls[i].Rejected? {
      CountIfNone(RejectedTest(), s.calls);
    } else {
      var i :| 0 <= i < |s.calls| && s.calls[i].Rejected?;
      assert CallOk(c, s, s.calls[i]);
    }
  }

  // -- One profile, call after call -----------------------------------------------------

  /** A profile's gates after calls at these times, one after the other. */
  function GateAfter(g: Gate, times: seq<int64>): Gate {
    if times == [] then g else GateAfter(g, times[..|times| - 1]).Check(times[|times| - 1], []).1
  }

  /** How many of the calls with a timestamp in [from, to) pass the gates. */
  function PassedIn(g: Gate, times: seq<int64>, from: int, to: int): nat {
    if times == [] then 0
    else
      var n := |times| - 1;
      PassedIn(g, times[..n], from, to)
      + (if from <= times[n] < to && GateAfter(g, times[..n]).Check(times[n], []).0 then 1 else 0)
  }

  /** Whether sampling keeps the n-th call. */
  predicate Keeps(rate: int64, n: nat) {
    rate <= 0 || n % rate == 0
  }

  /** Every rate-th call; all calls without sampling. */
  function Kept(rate: int64, times: seq<int64>): seq<int64> {
    if times == [] then []
    else
      Kept(rate, times[..|times| - 1])
      + (if Keeps(rate, |times|) then [times[|times| - 1]] else [])
  }

  ghost predicate NewGate(g: Gate) {
    g.rlState == 0 && g.sampleCount == 0
  }

  lemma KeptAppend(rate: int64, times: seq<int64>)
    requires times != []
    ensures var n := |times| - 1;
            Kept(rate, times) == Kept(rate, times[..n]) + (if Keeps(rate, n + 1) then [times[n]] else [])
  {
  }

  lemma {:induction false} KeptClock(rate: int64, times: seq<int64>)
    requires Clock(times)
    ensures Clock(Kept(rate, times))
    ensures forall t :: t in Kept(rate, times) ==> t in times
  {
    if times != [] {
      var n := |times| - 1;
      KeptClock(rate, times[..n]);
      KeptAppend(rate, times);
      var kept := Kept(rate, times[..n]);
      hide Kept, Keeps;
      forall i | 0 <= i < |kept|
        ensures kept[i] <= times[n]
      {
        assert kept[i] in times[..n];
      }
      ClockAppend(kept, times[n]);
      assert kept + [] == kept;
    }
  }

  lemma ClockAppend(times: seq<int64>, t: int64)
    requires Clock(times) && t >= 0 && forall i :: 0 <= i < |times| ==> times[i] <= t
    ensures Clock(times + [t])
  {
  }

  /** One call: sampling, then the limiter. */
  lemma CheckNext(g: Gate, count: nat, word: uint64, t: int64)
    requires count + 1 < TWO_63
    ensures var h := g.(sampleCount := if g.sampleRate > 0 then count else 0, rlState := word);
            var next := h.(sampleCount := if g.sampleRate > 0 then count + 1 else 0);
            h.Check(t, []) ==
            if !Keeps(g.sampleRate, count + 1) then (false, next)
            else if g.rlLimit <= 0 then (true, next)
            else
              var d := AtomicCheck(word, NowWindow(g.rlStartMs, g.rlWindowMs, t), EffectiveLimit(g.rlLimit));
              (d.admitted, next.(rlState := d.state))
  {
    hide AtomicCheck, NowWindow, EffectiveLimit;
  }

  lemma AfterNext(wins: seq<nat>, win: nat, limit: nat)
    ensures After(0, wins + [win], limit) == AtomicCheck(After(0, wins, limit), win, limit).state
  {
    hide AtomicCheck;
    assert (wins + [win])[..|wins|] == wins;
  }

  lemma WindowsNext(startMs: int64, windowMs: int64, times: seq<int64>, t: int64)
    ensures Windows(startMs, windowMs, times + [t]) ==
            Windows(startMs, windowMs, times) + [NowWindow(startMs, windowMs, t)]
  {
    hide NowWindow;
  }

  /** The word and the ticket counter after the calls. */
  lemma {:induction false} GateState(g: Gate, times: seq<int64>)
    requires NewGate(g) && g.rlLimit > 0 && |times| < TWO_63
    ensures GateAfter(g, times) ==
            g.(sampleCount := if g.sampleRate > 0 then |times| else 0,
               rlState := After(0, Windows(g.rlStartMs, g.rlWindowMs, Kept(g.sampleRate, times)),
                                EffectiveLimit(g.rlLimit)))
  {
    hide AtomicCheck, NowWindow, EffectiveLimit, Keeps, Kept, After;
    if times == [] {
      KeptNothing(g.sampleRate, EffectiveLimit(g.rlLimit));
      assert Windows(g.rlStartMs, g.rlWindowMs, []) == [];
    } else {
      var n := |times| - 1;
      GateState(g, times[..n]);
      KeptAppend(g.sampleRate, times);
      var kept := Kept(g.sampleRate, times[..n]);
      var wins := Windows(g.rlStartMs, g.rlWindowMs, kept);
      CheckNext(g, n, After(0, wins, EffectiveLimit(g.rlLimit)), times[n]);
      assert kept + [] == kept;
      WindowsNext(g.rlStartMs, g.rlWindowMs, kept, times[n]);
      AfterNext(wins, NowWindow(g.rlStartMs, g.rlWindowMs, times[n]), EffectiveLimit(g.rlLimit));
      hide Gate.Check;
    }
  }

  lemma KeptNothing(rate: int64, limit: nat)
    ensures Kept(rate, []) == [] && After(0, [], limit) == 0
  {
  }

  lemma BetweenNext(startMs: int64, windowMs: int64, limit: nat, times: seq<int64>, t: int64, from: int, to: int)
    ensures AdmittedBetween(startMs, windowMs, limit, times + [t], from, to) ==
            AdmittedBetween(startMs, windowMs, limit, times, from, to)
            + (if from <= t < to
                  && AtomicCheck(After(0, Windows(startMs, windowMs, times), limit),
                                 NowWindow(startMs, windowMs, t), limit).admitted then 1 else 0)
  {
    hide AtomicCheck, NowWindow, After, Windows;
    assert (times + [t])[..|times|] == times;
  }

  lemma {:induction false} PassedIsAdmitted(g: Gate, times: seq<int64>, from: int, to: int)
    requires NewGate(g) && g.rlLimit > 0 && |times| < TWO_63
    ensures PassedIn(g, times, from, to) ==
            AdmittedBetween(g.rlStartMs, g.rlWindowMs, EffectiveLimit(g.rlLimit), Kept(g.sampleRate, times), from, to)
  {
    hide AtomicCheck, NowWindow, EffectiveLimit, GateAfter, Keeps, Kept, After;
    if times == [] {
      KeptNothing(g.sampleRate, EffectiveLimit(g.rlLimit));
    } else {
      var n := |times| - 1;
      PassedIsAdmitted(g, times[..n], from, to);
      GateState(g, times[..n]);
      KeptAppend(g.sampleRate, times);
      var kept := Kept(g.sampleRate, times[..n]);
      var word := After(0, Windows(g.rlStartMs, g.rlWindowMs, kept), EffectiveLimit(g.rlLimit));
      CheckNext(g, n, word, times[n]);
      assert kept + [] == kept;
      BetweenNext(g.rlStartMs, g.rlWindowMs, EffectiveLimit(g.rlLimit), kept, times[n], from, to);
      hide Gate.Check, AdmittedBetween;
    }
  }

  /** A new profile with a rate limit, called at non-decreasing times: of the
      calls that sampling keeps, every rate-th one, exactly min(calls, limit)
      pass in each window [start + k*size, start + (k+1)*size), with the limit
      capped at 2^24 - 1. */
  lemma GateWindow(g: Gate, times: seq<int64>, k: nat)
    requires NewGate(g) && g.rlLimit > 0 && |times| < TWO_63 && Clock(times) && k <= 0xFF_FFFF_FFFF
    ensures var from, to := WindowFrom(g.rlStartMs, g.rlWindowMs, k), WindowTo(g.rlStartMs, g.rlWindowMs, k);
            var calls := TimesIn(Kept(g.sampleRate, times), from, to);
            var limit := if g.rlLimit < 0x100_0000 then g.rlLimit else 0xFF_FFFF;
            PassedIn(g, times, from, to) == (if calls < limit then calls else limit)
  {
    KeptClock(g.sampleRate, times);
    PassedIsAdmitted(g, times, WindowFrom(g.rlStartMs, g.rlWindowMs, k), WindowTo(g.rlStartMs, g.rlWindowMs, k));
    WindowCount(g.rlStartMs, g.rlWindowMs, EffectiveLimit(g.rlLimit), Kept(g.sampleRate, times), k);
    hide PassedIn, Kept, WindowFrom, WindowTo;
  }

  /** Any half-open span of k window lengths lets at most (k+1)*limit calls pass,
      wherever it starts. */
  lemma GateInterval(g: Gate, times: seq<int64>, from: int64, k: nat)
    requires NewGate(g) && g.rlLimit > 0 && |times| < TWO_63 && Clock(times) && from >= 0
    ensures var size := if g.rlWindowMs <= 0 then 1000 else g.rlWindowMs;
            var limit := if g.rlLimit < 0x100_0000 then g.rlLimit else 0xFF_FFFF;
            PassedIn(g, times, from, from + k * size) <= (k + 1) * limit
  {
    var size := if g.rlWindowMs <= 0 then 1000 else g.rlWindowMs;
    KeptClock(g.sampleRate, times);
    PassedIsAdmitted(g, times, from, from + k * size);
    IntervalBound(g.rlStartMs, g.rlWindowMs, EffectiveLimit(g.rlLimit), Kept(g.sampleRate, times), from, k);
    hide PassedIn, Kept, AdmittedBetween;
  }

  /** Without a rate limit exactly every rate-th call passes. */
  lemma {:induction false} GateSampling(g: Gate, times: seq<int64>, from: int, to: int)
    requires NewGate(g) && g.rlLimit <= 0 && |times| < TWO_63
    ensures PassedIn(g, times, from, to) == TimesIn(Kept(g.sampleRate, times), from, to)
    ensures GateAfter(g, times) == g.(sampleCount := if g.sampleRate > 0 then |times| else 0)
  {
    hide Keeps, Kept;
    if times == [] {
      KeptNothing(g.sampleRate, 1);
    } else {
      var n := |times| - 1;
      GateSampling(g, times[..n], from, to);
      KeptAppend(g.sampleRate, times);
      CheckNext(g, n, 0, times[n]);
      TimesNext(Kept(g.sampleRate, times[..n]), times[n], from, to);
      assert Kept(g.sampleRate, times[..n]) + [] == Kept(g.sampleRate, times[..n]);
      hide Gate.Check, TimesIn;
    }
  }

  lemma TimesNext(times: seq<int64>, t: int64, from: int, to: int)
    ensures TimesIn(times + [t], from, to) == TimesIn(times, from, to) + (if from <= t < to then 1 else 0)
  {
    assert (times + [t])[..|times|] == times;
  }
}
