/** The duration printer of format.go and a parser in the style of
    time.ParseDuration. */
module Duration {
  import opened Basics
  import opened Decimal

  const MICROSECOND: nat := 1_000
  const MILLISECOND: nat := 1_000_000
  const SECOND: nat := 1_000_000_000
  const MINUTE: nat := 60 * SECOND
  const HOUR: nat := 3600 * SECOND

  /** "\u00b5s": the micro sign in UTF-8, then s. */
  const MICROSECONDS: bytes := ['\U{C2}', '\U{B5}', 's']

  // -- Printing -------------------------------------------------------------------------

  function Padded3(ms: nat): bytes
    requires ms < 1000
  {
    [Digit(ms / 100), Digit(ms / 10 % 10), Digit(ms % 10)]
  }

  function SecondsText(ns: nat): bytes {
    var ms := ns % SECOND / MILLISECOND;
    Digits(ns / SECOND) + (if ms > 0 then ['.'] + Padded3(ms) else []) + "s"
  }

  function Component(value: nat, unit: bytes): bytes {
    if value > 0 then Digits(value) + unit else []
  }

  function LongText(ns: nat): bytes {
    Component(ns / HOUR, "h") + (Component(ns % HOUR / MINUTE, "m") + Component(ns % MINUTE / SECOND, "s"))
  }

  /** The text of a magnitude in nanoseconds. */
  function AbsText(ns: nat): bytes {
    if ns == 0 then "0s"
    else if ns < MICROSECOND then Digits(ns) + "ns"
    else if ns < MILLISECOND then Digits(ns / MICROSECOND) + MICROSECONDS
    else if ns < SECOND then Digits(ns / MILLISECOND) + "ms"
    else if ns < MINUTE then SecondsText(ns)
    else LongText(ns)
  }

  function Abs(d: int): nat {
    if d < 0 then -d else d
  }

  function Text(d: int64): bytes {
    if d < 0 then "-" + AbsText(Abs(d)) else AbsText(d)
  }

  /** appendDurationAbs. */
  method AppendDurationAbs(buf: bytes, ns: uint64) returns (r: bytes)
    ensures r == buf + AbsText(ns)
  {
    hide Digits;
    if ns == 0 {
      return buf + "0s";
    }
    if ns < MICROSECOND {
      r := buf + Digits(ns);
      r := r + "ns";
      return;
    }
    if ns < MILLISECOND {
      r := buf + Digits(ns / MICROSECOND);
      r := r + MICROSECONDS;
      return;
    }
    if ns < SECOND {
      r := buf + Digits(ns / MILLISECOND);
      r := r + "ms";
      return;
    }
    if ns < MINUTE {
      var sec := ns / SECOND;
      var ms := ns % SECOND / MILLISECOND;
      r := buf + Digits(sec);
      if ms > 0 {
        r := r + ['.', Digit(ms / 100), Digit(ms / 10 % 10), Digit(ms % 10)];
      }
      r := r + "s";
      assert r == buf + SecondsText(ns);
      return;
    }
    r := AppendLong(buf, ns);
  }

  /** The part of appendDurationAbs from one minute up: zero components are
      omitted. */
  method AppendLong(buf: bytes, ns: uint64) returns (r: bytes)
    ensures r == buf + LongText(ns)
  {
    hide Digits;
    var hours := ns / HOUR;
    var mins := ns % HOUR / MINUTE;
    var secs := ns % MINUTE / SECOND;
    r := buf;
    if hours > 0 {
      r := r + Digits(hours);
      r := r + "h";
    }
    assert r == buf + Component(hours, "h");
    ghost var one := r;
    if mins > 0 {
      r := r + Digits(mins);
      r := r + "m";
    }
    assert r == one + Component(mins, "m");
    ghost var two := r;
    if secs > 0 {
      r := r + Digits(secs);
      r := r + "s";
    }
    assert r == two + Component(secs, "s");
    Assoc(one, Component(mins, "m"), Component(secs, "s"));
    Assoc(buf, Component(hours, "h"), Component(mins, "m") + Component(secs, "s"));
  }

  /** appendDuration. The magnitude of a negative value is computed as
      -(d+1) + 1 in uint64, so that the minimum int64 does not overflow. */
  method AppendDuration(buf: bytes, d: int64) returns (r: bytes)
    ensures r == buf + Text(d)
  {
    hide AbsText;
    if d < 0 {
      r := buf + ['-'];
      var negated: int64 := -(d + 1);
      var ns: uint64 := (negated + 1) % TWO_64;
      r := AppendDurationAbs(r, ns);
      Assoc(buf, ['-'], AbsText(ns));
    } else {
      r := AppendDurationAbs(buf, d);
    }
  }

  // -- The form of the text ---------------------------------------------------------------

  /** q whole units in ns, printed with the unit's name. */
  ghost predicate InUnits(ns: nat, text: bytes, unit: nat, name: bytes, q: nat) {
    q * unit <= ns < (q + 1) * unit && text == Digits(q) + name
  }

  /** Seconds with milliseconds, which have three digits and are omitted when
      they are zero. */
  ghost predicate InSeconds(ns: nat, text: bytes, sec: nat, ms: nat, digits: bytes) {
    && ms < 1000 && (sec * 1000 + ms) * 1_000_000 <= ns < (sec * 1000 + ms + 1) * 1_000_000
    && |digits| == 3 && AllDigits(digits) && Value(digits) == ms
    && text == (if ms == 0 then Digits(sec) + "s" else Digits(sec) + "." + digits + "s")
  }

  /** Hours, minutes below 60 and seconds below 60; what is zero is omitted. */
  ghost predicate InHours(ns: nat, text: bytes, h: nat, m: nat, s: nat) {
    && m < 60 && s < 60
    && (h * 3600 + m * 60 + s) * 1_000_000_000 <= ns < (h * 3600 + m * 60 + s + 1) * 1_000_000_000
    && text == (if h == 0 then [] else Digits(h) + "h") + (if m == 0 then [] else Digits(m) + "m")
               + (if s == 0 then [] else Digits(s) + "s")
  }

  /** The one way to write a magnitude. */
  ghost predicate Canonical(ns: nat, text: bytes) {
    if ns == 0 then text == "0s"
    else if ns < 1_000 then text == Digits(ns) + "ns"
    else if ns < 1_000_000 then exists q :: InUnits(ns, text, 1_000, ['\U{C2}', '\U{B5}', 's'], q)
    else if ns < 1_000_000_000 then exists q :: InUnits(ns, text, 1_000_000, "ms", q)
    else if ns < 60_000_000_000 then exists sec, ms, digits :: InSeconds(ns, text, sec, ms, digits)
    else exists h, m, s :: InHours(ns, text, h, m, s)
  }

  lemma SecondsForm(ns: nat)
    ensures InSeconds(ns, SecondsText(ns), ns / SECOND, ns % SECOND / MILLISECOND,
                      Padded3(ns % SECOND / MILLISECOND))
  {
    hide Digits;
    PaddedValue(ns % SECOND / MILLISECOND);
    hide AllDigits, Value, Padded3;
    assert Digits(ns / SECOND) + [] == Digits(ns / SECOND);
    assert ns / SECOND * 1000 + ns % SECOND / MILLISECOND == ns / MILLISECOND;
  }

  lemma HoursForm(ns: nat)
    ensures InHours(ns, LongText(ns), ns / HOUR, ns % HOUR / MINUTE, ns % MINUTE / SECOND)
  {
    hide Digits;
    SplitTime(ns);
    var h, m, s := ns / HOUR, ns % HOUR / MINUTE, ns % MINUTE / SECOND;
    Assoc(Component(h, "h"), Component(m, "m"), Component(s, "s"));
  }

  /** Every magnitude is written in that way: in the largest unit below one
      second, as seconds below one minute, else in hours, minutes and seconds. */
  lemma TextCanonical(ns: nat)
    ensures Canonical(ns, AbsText(ns))
  {
    hide Digits, LongText, SecondsText, InSeconds, InHours;
    SecondsForm(ns);
    HoursForm(ns);
    if 1_000 <= ns < 1_000_000 {
      assert InUnits(ns, AbsText(ns), 1_000, ['\U{C2}', '\U{B5}', 's'], ns / MICROSECOND);
    } else if 1_000_000 <= ns < 1_000_000_000 {
      assert InUnits(ns, AbsText(ns), 1_000_000, "ms", ns / MILLISECOND);
    }
  }

  // -- Parsing --------------------------------------------------------------------------

  function Unit(name: bytes): Option<nat> {
    if name == "ns" then Some(1)
    else if name == "us" || name == MICROSECONDS || name == ['\U{CE}', '\U{BC}', 's'] then Some(MICROSECOND)
    else if name == "ms" then Some(MILLISECOND)
    else if name == "s" then Some(SECOND)
    else if name == "m" then Some(MINUTE)
    else if name == "h" then Some(HOUR)
    else None
  }

  /** The number of leading bytes that are neither digits nor a dot. */
  function UnitRun(s: bytes): (n: nat)
    ensures n <= |s|
  {
    if s == [] || IsDigit(s[0]) || s[0] == '.' then 0 else 1 + UnitRun(s[1..])
  }

  function Pow10(n: nat): (p: nat)
    ensures p > 0
  {
    if n == 0 then 1 else 10 * Pow10(n - 1)
  }

  /** A decimal number with an optional fraction: digits before and after the
      dot, and its length; at least one digit is required. */
  datatype Number = Number(whole: bytes, fraction: bytes, size: nat)

  function ReadNumber(s: bytes): (n: Option<Number>)
    ensures n.Some? ==> 0 < n.value.size <= |s|
    ensures n.Some? ==> AllDigits(n.value.whole) && AllDigits(n.value.fraction)
  {
    var i := DigitRun(s);
    var j := if i < |s| && s[i] == '.' then DigitRun(s[i + 1..]) else 0;
    var size := if i < |s| && s[i] == '.' then i + 1 + j else i;
    DigitRunIsDigits(s);
    if i < |s| && s[i] == '.' then
      DigitRunIsDigits(s[i + 1..]);
      if i == 0 && j == 0 then None else Some(Number(s[..i], s[i + 1..][..j], size))
    else if i == 0 then None
    else Some(Number(s[..i], [], size))
  }

  /** The nanoseconds of a number with a unit; the fraction is truncated. */
  function Amount(n: Number, unit: nat): nat
    requires AllDigits(n.whole) && AllDigits(n.fraction)
  {
    Value(n.whole) * unit + Quotient(Value(n.fraction) * unit, Pow10(|n.fraction|))
  }

  /** A sequence of numbers with units; magnitudes above 2^63 are rejected. */
  function ParseAbs(s: bytes): Option<nat>
    decreases |s|
  {
    if s == [] then Some(0)
    else
      var n := ReadNumber(s);
      if n.None? then None
      else
        var rest := s[n.value.size..];
        var k := UnitRun(rest);
        var unit := Unit(rest[..k]);
        if unit.None? then None
        else Add(Amount(n.value, unit.value), ParseAbs(rest[k..]))
  }

  function Add(amount: nat, more: Option<nat>): Option<nat> {
    if more.None? || amount + more.value > TWO_63 then None else Some(amount + more.value)
  }

  function Parse(s: bytes): Option<int> {
    var neg := s != [] && s[0] == '-';
    var t := if s != [] && (s[0] == '-' || s[0] == '+') then s[1..] else s;
    if t == "0" then Some(0)
    else if t == [] then None
    else
      var d := ParseAbs(t);
      if d.None? then None
      else if neg then Some(0 - d.value)
      else if d.value >= TWO_63 then None
      else Some(d.value)
  }

  // -- Round trip -------------------------------------------------------------------------

  /** What the text keeps of a magnitude. */
  function Granularity(ns: nat): (g: nat)
    ensures g > 0
  {
    if ns < MICROSECOND then 1
    else if ns < MILLISECOND then MICROSECOND
    else if ns < MINUTE then MILLISECOND
    else SECOND
  }

  function Truncate(ns: nat): (t: nat) {
    ns / Granularity(ns) * Granularity(ns)
  }

  predicate UnitName(name: bytes) {
    && name != [] && Unit(name).Some?
    && (forall k :: 0 <= k < |name| ==> !IsDigit(name[k]) && name[k] != '.')
  }

  predicate StartsNumber(s: bytes) {
    s == [] || IsDigit(s[0])
  }

  lemma {:induction false} UnitRunOf(name: bytes, rest: bytes)
    requires forall k :: 0 <= k < |name| ==> !IsDigit(name[k]) && name[k] != '.'
    requires StartsNumber(rest)
    ensures UnitRun(name + rest) == |name|
  {
    if name == [] {
      assert name + rest == rest;
    } else {
      UnitRunOf(name[1..], rest);
      assert (name + rest)[1..] == name[1..] + rest;
    }
  }

  /** One round of the parser's loop. */
  lemma ParseOne(s: bytes, n: Number, name: bytes, rest: bytes)
    requires ReadNumber(s) == Some(n) && s[n.size..] == name + rest
    requires UnitRun(name + rest) == |name| && Unit(name).Some?
    ensures ParseAbs(s) == Add(Amount(n, Unit(name).value), ParseAbs(rest))
  {
    hide Unit, ReadNumber, UnitRun, Amount, Add, AllDigits;
    assert (name + rest)[..|name|] == name && (name + rest)[|name|..] == rest;
  }

  /** A component at the front of a duration contributes value * unit. */
  lemma ParseComponent(value: nat, name: bytes, rest: bytes)
    requires UnitName(name) && StartsNumber(rest)
    ensures ParseAbs(Digits(value) + name + rest) == Add(value * Unit(name).value, ParseAbs(rest))
  {
    hide Digits, Unit, ReadNumber, UnitRun, Amount, AllDigits, ParseAbs;
    var digits := Digits(value);
    var s := digits + name + rest;
    ReadWhole(value, name, rest);
    Assoc(digits, name, rest);
    assert (digits + (name + rest))[|digits|..] == name + rest;
    UnitRunOf(name, rest);
    WholeAmount(value, Unit(name).value);
    ParseOne(s, Number(digits, [], |digits|), name, rest);
  }

  lemma ReadWhole(value: nat, name: bytes, rest: bytes)
    requires UnitName(name)
    ensures AllDigits(Digits(value))
    ensures ReadNumber(Digits(value) + name + rest) == Some(Number(Digits(value), [], |Digits(value)|))
  {
    hide Digits, Unit;
    var s := Digits(value) + name + rest;
    DigitsAreDigits(value);
    Assoc(Digits(value), name, rest);
    DigitRunOf(Digits(value), name + rest);
    assert s[..|Digits(value)|] == Digits(value) && s[|Digits(value)|] == name[0];
  }

  lemma WholeAmount(value: nat, unit: nat)
    requires AllDigits(Digits(value))
    ensures Amount(Number(Digits(value), [], |Digits(value)|), unit) == value * unit
  {
    DigitsValue(value);
    assert Value([]) == 0 && Pow10(0) == 1;
  }

  lemma ReadFraction(whole: bytes, fraction: bytes)
    requires whole != [] && AllDigits(whole) && AllDigits(fraction)
    ensures ReadNumber(whole + (['.'] + (fraction + "s"))) ==
            Some(Number(whole, fraction, |whole| + 1 + |fraction|))
  {
    hide AllDigits;
    var tail := ['.'] + (fraction + "s");
    var s := whole + tail;
    DigitRunOf(whole, tail);
    DigitRunOf(fraction, "s");
    assert tail[1..] == fraction + "s" && s[|whole|..] == tail && s[..|whole|] == whole;
    assert s[|whole| + 1..] == fraction + "s" && (fraction + "s")[..|fraction|] == fraction;
  }

  lemma ParseFraction(sec: nat, ms: nat)
    requires 0 < ms < 1000 && sec * SECOND + ms * MILLISECOND <= TWO_63
    ensures ParseAbs(Digits(sec) + (['.'] + Padded3(ms)) + "s") == Some(sec * SECOND + ms * MILLISECOND)
  {
    hide Digits, ReadNumber, ParseAbs;
    var whole, fraction := Digits(sec), Padded3(ms);
    var number := Number(whole, fraction, |whole| + 4);
    DigitsAreDigits(sec);
    DigitsValue(sec);
    PaddedValue(ms);
    hide Padded3, AllDigits, Value;
    ReadFraction(whole, fraction);
    var s := whole + (['.'] + (fraction + "s"));
    assert s == whole + (['.'] + fraction) + "s";
    assert s[|whole| + 4..] == "s" + [] && UnitRun("s" + []) == 1;
    ParseOne(s, number, "s", []);
    ParseNothing();
    PowThree();
    assert Quotient(ms * SECOND, Pow10(3)) == ms * MILLISECOND;
  }

  lemma PowThree()
    ensures Pow10(3) == 1000
  {
    assert Pow10(3) == 10 * (10 * (10 * Pow10(0)));
  }

  lemma PaddedValue(ms: nat)
    requires ms < 1000
    ensures AllDigits(Padded3(ms)) && Value(Padded3(ms)) == ms
  {
    var s := Padded3(ms);
    assert s[..2][..1][..0] == [];
    assert Value(s[..2][..1]) == ms / 100;
    assert Value(s[..2]) == ms / 10;
  }

  lemma ParseOptional(value: nat, name: bytes, rest: bytes, more: nat)
    requires UnitName(name) && StartsNumber(rest)
    requires ParseAbs(rest) == Some(more) && value * Unit(name).value + more <= TWO_63
    ensures ParseAbs(Component(value, name) + rest) == Some(value * Unit(name).value + more)
    ensures StartsNumber(Component(value, name) + rest)
  {
    hide Digits, Unit, ParseAbs;
    if value > 0 {
      ParseComponent(value, name, rest);
      DigitsAreDigits(value);
      assert (Digits(value) + name + rest)[0] == Digits(value)[0];
    } else {
      assert Component(value, name) + rest == rest;
    }
  }

  lemma SplitTime(ns: nat)
    ensures ns / HOUR * HOUR + ns % HOUR / MINUTE * MINUTE + ns % MINUTE / SECOND * SECOND == ns / SECOND * SECOND
  {
    TimeParts(ns);
    SplitSeconds(ns / SECOND);
  }

  lemma SplitSeconds(t: nat)
    ensures t == t / 3600 * 3600 + t % 3600 / 60 * 60 + t % 60
  {
  }

  lemma ParseLong(ns: nat)
    requires MINUTE <= ns <= TWO_63
    ensures ParseAbs(LongText(ns)) == Some(Truncate(ns)) && StartsNumber(LongText(ns)) && LongText(ns) != []
  {
    hide ParseAbs, Component;
    SplitTime(ns);
    var h, m, s := ns / HOUR, ns % HOUR / MINUTE, ns % MINUTE / SECOND;
    assert ParseAbs([]) == Some(0) by { ParseNothing(); }
    UnitNames();
    ParseOptional(s, "s", [], 0);
    assert Component(s, "s") + [] == Component(s, "s");
    ParseOptional(m, "m", Component(s, "s"), s * SECOND);
    ParseOptional(h, "h", Component(m, "m") + Component(s, "s"), m * MINUTE + s * SECOND);
  }

  lemma ParseNothing()
    ensures ParseAbs([]) == Some(0)
  {
  }

  lemma UnitNames()
    ensures UnitName("ns") && Unit("ns") == Some(1)
    ensures UnitName(MICROSECONDS) && Unit(MICROSECONDS) == Some(MICROSECOND)
    ensures UnitName("ms") && Unit("ms") == Some(MILLISECOND)
    ensures UnitName("s") && Unit("s") == Some(SECOND)
    ensures UnitName("m") && Unit("m") == Some(MINUTE)
    ensures UnitName("h") && Unit("h") == Some(HOUR)
  {
  }

  lemma ParseSingle(value: nat, name: bytes)
    requires UnitName(name) && value * Unit(name).value <= TWO_63
    ensures ParseAbs(Digits(value) + name) == Some(value * Unit(name).value)
  {
    hide Digits, Unit, ParseAbs;
    ParseNothing();
    ParseComponent(value, name, []);
    assert Digits(value) + name + [] == Digits(value) + name;
  }

  lemma ParseAbsText(ns: nat)
    requires ns <= TWO_63
    ensures ParseAbs(AbsText(ns)) == Some(Truncate(ns))
  {
    hide ParseAbs, Digits, LongText, SecondsText, Unit, UnitName;
    UnitNames();
    if ns == 0 {
      ParseSingle(0, "s");
      assert Digits(0) + "s" == "0s" by { DigitsZero(); }
    } else if ns < MICROSECOND {
      ParseSingle(ns, "ns");
    } else if ns < MILLISECOND {
      ParseSingle(ns / MICROSECOND, MICROSECONDS);
    } else if ns < SECOND {
      ParseSingle(ns / MILLISECOND, "ms");
    } else if ns < MINUTE {
      ParseSeconds(ns);
    } else {
      ParseLong(ns);
    }
  }

  lemma ParseSeconds(ns: nat)
    requires SECOND <= ns < MINUTE
    ensures ParseAbs(SecondsText(ns)) == Some(Truncate(ns))
  {
    hide ParseAbs, Digits, Unit, UnitName, Padded3;
    UnitNames();
    var sec, ms := ns / SECOND, ns % SECOND / MILLISECOND;
    assert sec * SECOND + ms * MILLISECOND == ns / MILLISECOND * MILLISECOND;
    if ms > 0 {
      ParseFraction(sec, ms);
    } else {
      ParseSingle(sec, "s");
      assert Digits(sec) + [] == Digits(sec);
    }
  }

  /** The text is never "0" or empty and starts with a digit, so the parser
      reads it as a number with units. */
  lemma AbsTextShape(ns: nat)
    requires ns <= TWO_63
    ensures AbsText(ns) != [] && AbsText(ns) != "0" && IsDigit(AbsText(ns)[0])
  {
    hide Digits, LongText;
    var text := AbsText(ns);
    DigitsAreDigits(ns);
    DigitsAreDigits(ns / MICROSECOND);
    DigitsAreDigits(ns / MILLISECOND);
    DigitsAreDigits(ns / SECOND);
    if ns < MINUTE {
      assert |text| >= 2;
    } else {
      ParseLong(ns);
      ParseZeroAlone();
    }
  }

  lemma ParseZeroAlone()
    ensures ParseAbs("0") == None
  {
    assert DigitRun("0") == 1 by { DigitRunOf("0", []); assert "0" + [] == "0"; }
    assert "0"[1..] == [];
  }

  /** For every int64, the minimum included, the printed text parses to the
      value with its magnitude truncated to the granularity of its band. */
  lemma PrintParse(d: int64)
    ensures Parse(Text(d)) == Some(if d < 0 then 0 - Truncate(Abs(d)) else Truncate(d))
  {
    hide ParseAbs, AbsText;
    ParseAbsText(Abs(d));
    AbsTextShape(Abs(d));
    TruncateError(Abs(d));
    if d < 0 {
      assert Text(d)[1..] == AbsText(Abs(d));
    }
  }

  /** Truncation loses less than the granularity, never the sign: only zero
      becomes zero. */
  lemma TruncateError(ns: nat)
    ensures 0 <= ns - Truncate(ns) < Granularity(ns)
    ensures Truncate(ns) == 0 <==> ns == 0
    ensures Granularity(Truncate(ns)) == Granularity(ns) && Truncate(Truncate(ns)) == Truncate(ns)
  {
  }

  /** Printing is monotone through the parser. */
  lemma PrintMonotone(a: int64, b: int64)
    requires 0 <= a <= b
    ensures Parse(Text(a)).Some? && Parse(Text(b)).Some? && Parse(Text(a)).value <= Parse(Text(b)).value
  {
    hide Text, Parse;
    PrintParse(a);
    PrintParse(b);
    TruncateMonotone(a, b);
  }

  lemma TruncateMonotone(a: nat, b: nat)
    requires a <= b
    ensures Truncate(a) <= Truncate(b)
  {
  }

  lemma TruncateKeepsSeconds(ns: nat)
    requires SECOND <= ns < MINUTE
    ensures Truncate(ns) / SECOND == ns / SECOND
    ensures Truncate(ns) % SECOND / MILLISECOND == ns % SECOND / MILLISECOND
  {
    var q := ns / MILLISECOND;
    assert Truncate(ns) == q * MILLISECOND;
    assert ns / SECOND == q / 1000 && ns % SECOND / MILLISECOND == q % 1000;
    assert q * MILLISECOND / SECOND == q / 1000 && q * MILLISECOND % SECOND / MILLISECOND == q % 1000;
  }

  lemma TruncateKeepsLong(ns: nat)
    requires MINUTE <= ns
    ensures var t := Truncate(ns);
            && t / HOUR == ns / HOUR && t % HOUR / MINUTE == ns % HOUR / MINUTE
            && t % MINUTE / SECOND == ns % MINUTE / SECOND
  {
    var q := ns / SECOND;
    assert Truncate(ns) == q * SECOND;
    TimeParts(ns);
    TimeParts(q * SECOND);
  }

  lemma TimeParts(ns: nat)
    ensures ns / HOUR == ns / SECOND / 3600
    ensures ns % HOUR / MINUTE == ns / SECOND % 3600 / 60
    ensures ns % MINUTE / SECOND == ns / SECOND % 60
  {
    HourPart(ns);
    MinutePart(ns % HOUR);
    SecondPart(ns);
  }

  lemma HourPart(ns: nat)
    ensures ns / HOUR == ns / SECOND / 3600 && ns % HOUR / SECOND == ns / SECOND % 3600
  {
    var h, r := ns / HOUR, ns % HOUR;
    assert ns / SECOND == h * 3600 + r / SECOND;
  }

  lemma MinutePart(ns: nat)
    requires ns < HOUR
    ensures ns / MINUTE == ns / SECOND / 60
  {
  }

  lemma SecondPart(ns: nat)
    ensures ns % MINUTE / SECOND == ns / SECOND % 60
  {
    var m, r := ns / MINUTE, ns % MINUTE;
    assert ns / SECOND == m * 60 + r / SECOND;
  }

  lemma TruncateKeepsText(ns: nat)
    ensures AbsText(Truncate(ns)) == AbsText(ns)
  {
    hide Digits, Padded3, Component, Truncate;
    var t := Truncate(ns);
    TruncateBands(ns);
    if ns < MICROSECOND {
    } else if ns < SECOND {
    } else if ns < MINUTE {
      TruncateKeepsSeconds(ns);
    } else {
      TruncateKeepsLong(ns);
    }
  }

  lemma TruncateBands(ns: nat)
    ensures var t := Truncate(ns);
            && (ns < MICROSECOND ==> t == ns)
            && (MICROSECOND <= ns < MILLISECOND ==>
                  MICROSECOND <= t < MILLISECOND && t / MICROSECOND == ns / MICROSECOND)
            && (MILLISECOND <= ns < SECOND ==> MILLISECOND <= t < SECOND && t / MILLISECOND == ns / MILLISECOND)
            && (SECOND <= ns < MINUTE ==> SECOND <= t < MINUTE)
            && (MINUTE <= ns ==> MINUTE <= t)
  {
  }

  /** Printing what was parsed gives the same text again. */
  lemma PrintStable(d: int64)
    ensures var p := Parse(Text(d));
            p.Some? && -TWO_63 <= p.value < TWO_63 && Text(p.value) == Text(d)
  {
    hide Parse, AbsText;
    PrintParse(d);
    TruncateError(Abs(d));
    TruncateKeepsText(Abs(d));
  }
}
