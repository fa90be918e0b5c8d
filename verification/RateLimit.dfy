/** The packed rate-limit word of ratelimit.go: its layout, one atomic check on
    it, and what a sequence of checks with non-decreasing clocks admits. */
module RateLimit {
  import opened Basics

  const COUNT_BASE: int := 0x100_0000          // 1 << rlCountBits
  const COUNT_MASK: int := COUNT_BASE - 1      // also rlMaxExactLimit
  const MAX_WINDOW: int := 0x100_0000_0000 - 1 // (1 << 40) - 1
  const FALLBACK_EPOCH_MS: int64 := 1

  // -- Word layout -----------------------------------------------------------

  /** state >> 24 */
  function Window(state: uint64): nat {
    state / COUNT_BASE
  }

  /** state & rlCountMask */
  function Count(state: uint64): nat {
    state % COUNT_BASE
  }

  /** (win << 24) | 1: the low 24 bits of a shifted value are zero, so the
      disjunction is an addition. Bits shifted past 63 are lost. */
  function OpenWindow(win: nat): uint64 {
    (win * COUNT_BASE) % TWO_64 + 1
  }

  /** state + 1 in uint64 arithmetic. */
  function Increment(state: uint64): uint64 {
    (state + 1) % TWO_64
  }

  /** Opening a window and counting inside a window never disturb the other
      part of the word, and both make the word strictly larger. */
  lemma WordLayout(state: uint64, win: nat)
    ensures Window(state) <= MAX_WINDOW && Count(state) <= COUNT_MASK
    ensures Window(state) < win <= MAX_WINDOW ==>
              Window(OpenWindow(win)) == win && Count(OpenWindow(win)) == 1 && OpenWindow(win) > state
    ensures Count(state) < COUNT_MASK ==>
              Window(Increment(state)) == Window(state) && Count(Increment(state)) == Count(state) + 1
              && Increment(state) > state
  {
    assert state == Window(state) * COUNT_BASE + Count(state);
    if Count(state) < COUNT_MASK {
      DivModOf(Window(state), Count(state) + 1);
    }
    if Window(state) < win <= MAX_WINDOW {
      DivModOf(win, 1);
      assert win * COUNT_BASE >= (Window(state) + 1) * COUNT_BASE;
    }
  }

  lemma DivModOf(win: nat, cnt: nat)
    requires cnt <= COUNT_MASK
    ensures (win * COUNT_BASE + cnt) / COUNT_BASE == win
    ensures (win * COUNT_BASE + cnt) % COUNT_BASE == cnt
  {
  }

  // -- The window a timestamp falls in ------------------------------------------

  /** Milliseconds since the profile's start, never negative. The subtraction
      is int64 arithmetic. */
  function Elapsed(startMs: int64, nowMs: int64): (elapsed: nat)
    ensures 0 <= nowMs ==> elapsed == (if nowMs < Start(startMs) then 0 else nowMs - Start(startMs))
  {
    var diff := WrapInt64(nowMs - Start(startMs));
    if diff < 0 then 0 else diff
  }

  function Start(startMs: int64): (start: int64)
    ensures start >= 1
  {
    if startMs <= 0 then FALLBACK_EPOCH_MS else startMs
  }

  function WindowSize(windowMs: int64): (size: int)
    ensures size >= 1
  {
    if windowMs <= 0 then 1000 else windowMs
  }

  /** The saturating, profile-relative window index of nowMs. */
  function NowWindow(startMs: int64, windowMs: int64, nowMs: int64): (w: nat)
    ensures w <= MAX_WINDOW
  {
    var win := Quotient(Elapsed(startMs, nowMs), WindowSize(windowMs));
    if win > MAX_WINDOW then MAX_WINDOW else win
  }

  /** What window a timestamp falls in, for every profile and clock: window k is
      [start + k*size, start + (k+1)*size), where an unset start is 1 and an unset
      size 1000 ms; earlier timestamps fall in window 0, and the last window is
      open-ended. A difference below the int64 range wraps around. */
  lemma NowWindowExact(startMs: int64, windowMs: int64, nowMs: int64)
    ensures var start := if startMs <= 0 then 1 else startMs;
            var size := if windowMs <= 0 then 1000 else windowMs;
            var now := if nowMs - start < -TWO_63 then nowMs + TWO_64 else nowMs;
            var k := NowWindow(startMs, windowMs, nowMs);
            if now < start then k == 0
            else start + k * size <= now
                 && (if k < 0xFF_FFFF_FFFF then now < start + (k + 1) * size else k == 0xFF_FFFF_FFFF)
  {
    hide Quotient;
    var elapsed, size := Elapsed(startMs, nowMs), WindowSize(windowMs);
    QuotientSpan(elapsed, size);
    var q, k := Quotient(elapsed, size), NowWindow(startMs, windowMs, nowMs);
    assert (k + 1) * size == k * size + size;
    if q > k {
      MulMonotone(k, q, size);
    }
    if elapsed == 0 {
      LessByProduct(q, 0, size);
    }
  }

  /** The timestamps of window k, for a clock that is never negative. */
  function WindowFrom(startMs: int64, windowMs: int64, k: nat): int {
    if k == 0 then 0
    else (if startMs <= 0 then 1 else startMs) + k * (if windowMs <= 0 then 1000 else windowMs)
  }

  function WindowTo(startMs: int64, windowMs: int64, k: nat): int {
    if k == 0xFF_FFFF_FFFF then TWO_63
    else (if startMs <= 0 then 1 else startMs) + (k + 1) * (if windowMs <= 0 then 1000 else windowMs)
  }

  /** A timestamp falls in window k exactly if it lies between its bounds. */
  lemma InWindow(startMs: int64, windowMs: int64, nowMs: int64, k: nat)
    requires nowMs >= 0 && k <= 0xFF_FFFF_FFFF
    ensures NowWindow(startMs, windowMs, nowMs) == k <==>
            WindowFrom(startMs, windowMs, k) <= nowMs < WindowTo(startMs, windowMs, k)
  {
    NowWindowExact(startMs, windowMs, nowMs);
    hide NowWindow;
    var start := if startMs <= 0 then 1 else startMs;
    var size := if windowMs <= 0 then 1000 else windowMs;
    var w := NowWindow(startMs, windowMs, nowMs);
    assert (w + 1) * size == w * size + size && (k + 1) * size == k * size + size;
    if w < k {
      MulMonotone(w + 1, k, size);
    } else if w > k {
      MulMonotone(k + 1, w, size);
    }
  }

  /** The limit the packed count can represent. */
  function EffectiveLimit(rlLimit: int64): (limit: nat)
    requires rlLimit > 0
    ensures 1 <= limit <= COUNT_MASK
  {
    if rlLimit > COUNT_MASK then COUNT_MASK else rlLimit
  }

  // -- One check ------------------------------------------------------------------

  datatype Decision = Decision(admitted: bool, state: uint64)

  /** What checkAtomicRateLimitAt does to the word when nobody interferes. */
  function AtomicCheck(state: uint64, nowWin: nat, limit: nat): Decision {
    if Window(state) < nowWin then Decision(true, OpenWindow(nowWin))
    else if Count(state) >= limit then Decision(false, state)
    else Decision(true, Increment(state))
  }

  /** The unpacked limiter the word implements. */
  datatype Limiter = Limiter(window: nat, count: nat) {
    function Check(nowWin: nat, limit: nat): (bool, Limiter) {
      if window < nowWin then (true, Limiter(nowWin, 1))
      else if count < limit then (true, Limiter(window, count + 1))
      else (false, this)
    }
  }

  function Unpack(state: uint64): Limiter {
    Limiter(Window(state), Count(state))
  }

  /** The packed check refines the unpacked one, and the word never decreases. */
  lemma AtomicCheckRefines(state: uint64, nowWin: nat, limit: nat)
    requires nowWin <= MAX_WINDOW && 1 <= limit <= COUNT_MASK
    ensures var d := AtomicCheck(state, nowWin, limit);
            && Unpack(state).Check(nowWin, limit) == (d.admitted, Unpack(d.state))
            && (d.admitted ==> d.state > state)
            && (!d.admitted ==> d.state == state)
  {
    WordLayout(state, nowWin);
  }

  // -- A sequence of checks -------------------------------------------------------

  /** The word after checking the windows `wins` in order from `state`. */
  function After(state: uint64, wins: seq<nat>, limit: nat): uint64 {
    if wins == [] then state
    else AtomicCheck(After(state, wins[..|wins| - 1], limit), wins[|wins| - 1], limit).state
  }

  /** Whether the k-th check of the sequence is admitted. */
  predicate AdmittedAt(state: uint64, wins: seq<nat>, limit: nat, k: nat)
    requires k < |wins|
  {
    AtomicCheck(After(state, wins[..k], limit), wins[k], limit).admitted
  }

  /** How many of the checks whose own window lies in lo..hi are admitted. */
  function AdmittedIn(state: uint64, wins: seq<nat>, limit: nat, lo: int, hi: int): nat {
    if wins == [] then 0
    else
      var n := |wins| - 1;
      AdmittedIn(state, wins[..n], limit, lo, hi)
      + (if lo <= wins[n] <= hi && AtomicCheck(After(state, wins[..n], limit), wins[n], limit).admitted then 1 else 0)
  }

  function CallsIn(wins: seq<nat>, lo: int, hi: int): nat {
    if wins == [] then 0
    else CallsIn(wins[..|wins| - 1], lo, hi) + (if lo <= wins[|wins| - 1] <= hi then 1 else 0)
  }

  ghost predicate Sorted(wins: seq<nat>) {
    && (forall i, j :: 0 <= i < j < |wins| ==> wins[i] <= wins[j])
    && (forall i :: 0 <= i < |wins| ==> wins[i] <= MAX_WINDOW)
  }

  /** With non-decreasing clocks every window admits exactly min(calls, limit),
      and the word holds the last window and how many it admitted. */
  lemma {:induction false} WindowExact(wins: seq<nat>, limit: nat, w: nat)
    requires Sorted(wins) && 1 <= limit <= COUNT_MASK
    ensures var calls := CallsIn(wins, w, w);
            AdmittedIn(0, wins, limit, w, w) == (if calls < limit then calls else limit)
    ensures wins == [] ==> After(0, wins, limit) == 0
    ensures wins != [] ==> Window(After(0, wins, limit)) == wins[|wins| - 1]
    ensures Window(After(0, wins, limit)) == w ==> Count(After(0, wins, limit)) == AdmittedIn(0, wins, limit, w, w)
    ensures Window(After(0, wins, limit)) < w ==> CallsIn(wins, w, w) == 0
  {
    if wins != [] {
      var n := |wins| - 1;
      WindowExact(wins[..n], limit, w);
      AtomicCheckRefines(After(0, wins[..n], limit), wins[n], limit);
      WordLayout(After(0, wins[..n], limit), wins[n]);
    }
  }

  /** Any run of k+1 consecutive windows admits at most (k+1)*limit. */
  lemma {:induction false} WindowRunBound(wins: seq<nat>, limit: nat, lo: nat, k: nat)
    requires Sorted(wins) && 1 <= limit <= COUNT_MASK
    ensures AdmittedIn(0, wins, limit, lo, lo + k) <= (k + 1) * limit
  {
    WindowExact(wins, limit, lo + k);
    if k > 0 {
      WindowRunBound(wins, limit, lo, k - 1);
      AdmittedSplit(wins, limit, lo, lo + k);
      calc {
        AdmittedIn(0, wins, limit, lo, lo + k);
      <= k * limit + limit;
      == (k + 1) * limit;
      }
    }
  }

  lemma {:induction false} AdmittedSplit(wins: seq<nat>, limit: nat, lo: int, hi: int)
    requires lo < hi
    ensures AdmittedIn(0, wins, limit, lo, hi) ==
            AdmittedIn(0, wins, limit, lo, hi - 1) + AdmittedIn(0, wins, limit, hi, hi)
  {
    if wins != [] {
      AdmittedSplit(wins[..|wins| - 1], limit, lo, hi);
    }
  }

  // -- Timestamps -----------------------------------------------------------------

  /** The windows of a sequence of timestamps under one profile. */
  function Windows(startMs: int64, windowMs: int64, times: seq<int64>): (wins: seq<nat>)
    ensures |wins| == |times|
    ensures forall i :: 0 <= i < |wins| ==> wins[i] == NowWindow(startMs, windowMs, times[i])
  {
    seq(|times|, i requires 0 <= i < |times| => NowWindow(startMs, windowMs, times[i]))
  }

  /** How many checks with a timestamp in [from, to) are admitted. */
  function AdmittedBetween(startMs: int64, windowMs: int64, limit: nat, times: seq<int64>, from: int, to: int): nat {
    if times == [] then 0
    else
      var n := |times| - 1;
      AdmittedBetween(startMs, windowMs, limit, times[..n], from, to)
      + (if from <= times[n] < to
            && AtomicCheck(After(0, Windows(startMs, windowMs, times[..n]), limit),
                           NowWindow(startMs, windowMs, times[n]), limit).admitted then 1 else 0)
  }

  ghost predicate Clock(times: seq<int64>) {
    && (forall i :: 0 <= i < |times| ==> times[i] >= 0)
    && (forall i, j :: 0 <= i < j < |times| ==> times[i] <= times[j])
  }

  lemma NowWindowMonotone(startMs: int64, windowMs: int64, a: int64, b: int64)
    requires 0 <= a <= b
    ensures NowWindow(startMs, windowMs, a) <= NowWindow(startMs, windowMs, b)
  {
    hide Elapsed, Quotient;
    QuotientMonotone(Elapsed(startMs, a), Elapsed(startMs, b), WindowSize(windowMs));
  }

  lemma QuotientShift(x: nat, y: nat, k: nat, d: int)
    requires d >= 1 && y <= x + k * d
    ensures Quotient(y, d) <= Quotient(x, d) + k
  {
    hide Quotient;
    QuotientSpan(y, d);
    QuotientSpan(x, d);
    assert (Quotient(x, d) + k) * d == Quotient(x, d) * d + k * d;
    LessByProduct(Quotient(y, d), Quotient(x, d) + k, d);
  }

  /** Timestamps less than k window lengths apart are at most k windows apart. */
  lemma NowWindowSpan(startMs: int64, windowMs: int64, a: int64, b: int64, k: nat)
    requires 0 <= a <= b < a + k * WindowSize(windowMs)
    ensures NowWindow(startMs, windowMs, b) <= NowWindow(startMs, windowMs, a) + k
  {
    hide Elapsed, Quotient, WindowSize;
    QuotientShift(Elapsed(startMs, a), Elapsed(startMs, b), k, WindowSize(windowMs));
  }

  lemma {:induction false} BetweenWithinWindows(startMs: int64, windowMs: int64, limit: nat, times: seq<int64>,
                                                from: int64, k: nat)
    requires Clock(times) && from >= 0
    ensures var lo := NowWindow(startMs, windowMs, from);
            AdmittedBetween(startMs, windowMs, limit, times, from, from + k * WindowSize(windowMs))
            <= AdmittedIn(0, Windows(startMs, windowMs, times), limit, lo, lo + k)
  {
    if times != [] {
      var n := |times| - 1;
      hide NowWindow, AtomicCheck, WindowSize;
      BetweenWithinWindows(startMs, windowMs, limit, times[..n], from, k);
      assert Windows(startMs, windowMs, times)[..n] == Windows(startMs, windowMs, times[..n]);
      if from <= times[n] < from + k * WindowSize(windowMs) {
        NowWindowMonotone(startMs, windowMs, from, times[n]);
        NowWindowSpan(startMs, windowMs, from, times[n], k);
      }
    }
  }

  /** Any half-open span of k window lengths admits at most (k+1)*limit entries,
      wherever it starts; one window length admits at most 2*limit. */
  lemma IntervalBound(startMs: int64, windowMs: int64, limit: nat, times: seq<int64>, from: int64, k: nat)
    requires Clock(times) && from >= 0 && 1 <= limit <= COUNT_MASK
    ensures var size := if windowMs <= 0 then 1000 else windowMs;
            AdmittedBetween(startMs, windowMs, limit, times, from, from + k * size) <= (k + 1) * limit
  {
    hide NowWindow;
    WindowsSorted(startMs, windowMs, times);
    BetweenWithinWindows(startMs, windowMs, limit, times, from, k);
    WindowRunBound(Windows(startMs, windowMs, times), limit, NowWindow(startMs, windowMs, from), k);
  }

  lemma WindowsSorted(startMs: int64, windowMs: int64, times: seq<int64>)
    requires Clock(times)
    ensures Sorted(Windows(startMs, windowMs, times))
  {
    hide NowWindow;
    var wins := Windows(startMs, windowMs, times);
    forall i, j | 0 <= i < j < |wins|
      ensures wins[i] <= wins[j]
    {
      NowWindowMonotone(startMs, windowMs, times[i], times[j]);
    }
  }

  /** How many timestamps lie in [from, to). */
  function TimesIn(times: seq<int64>, from: int, to: int): nat {
    if times == [] then 0
    else TimesIn(times[..|times| - 1], from, to) + (if from <= times[|times| - 1] < to then 1 else 0)
  }

  lemma {:induction false} WindowTimes(startMs: int64, windowMs: int64, limit: nat, times: seq<int64>, k: nat)
    requires Clock(times) && k <= 0xFF_FFFF_FFFF
    ensures var from, to, wins := WindowFrom(startMs, windowMs, k), WindowTo(startMs, windowMs, k),
                                  Windows(startMs, windowMs, times);
            && TimesIn(times, from, to) == CallsIn(wins, k, k)
            && AdmittedBetween(startMs, windowMs, limit, times, from, to) == AdmittedIn(0, wins, limit, k, k)
  {
    hide NowWindow, AtomicCheck, WindowFrom, WindowTo;
    if times != [] {
      var n := |times| - 1;
      WindowTimes(startMs, windowMs, limit, times[..n], k);
      assert Windows(startMs, windowMs, times)[..n] == Windows(startMs, windowMs, times[..n]);
      InWindow(startMs, windowMs, times[n], k);
    }
  }

  /** With non-decreasing clocks window k, from start + k*size to
      start + (k+1)*size, admits exactly min(calls, limit). */
  lemma WindowCount(startMs: int64, windowMs: int64, limit: nat, times: seq<int64>, k: nat)
    requires Clock(times) && 1 <= limit <= COUNT_MASK && k <= 0xFF_FFFF_FFFF
    ensures var from, to := WindowFrom(startMs, windowMs, k), WindowTo(startMs, windowMs, k);
            var calls := TimesIn(times, from, to);
            AdmittedBetween(startMs, windowMs, limit, times, from, to) == (if calls < limit then calls else limit)
  {
    hide NowWindow;
    WindowsSorted(startMs, windowMs, times);
    WindowTimes(startMs, windowMs, limit, times, k);
    WindowExact(Windows(startMs, windowMs, times), limit, k);
  }
}
