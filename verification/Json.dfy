/** JSON values, how the formatter writes them, and a parser for what it writes
    (sections 4 to 7 of RFC 8259, without insignificant white space and
    arrays, neither of which the formatter produces). */
module Json {
  import opened Basics
  import opened Decimal
  import opened Utf8
  import opened JsonString

  datatype Value =
    | String(text: bytes)
    | Number(token: bytes)
    | Bool(b: bool)
    | Null
    | Object(members: seq<Member>)

  datatype Member = Member(key: bytes, value: Value)

  // -- Writing ------------------------------------------------------------------------

  function Emit(v: Value): bytes
    decreases v, 1
  {
    match v
    case String(text) => Quote(text)
    case Number(token) => token
    case Bool(b) => if b then "true" else "false"
    case Null => "null"
    case Object(members) => "{" + EmitList(members) + "}"
  }

  function EmitMember(m: Member): bytes
    decreases m, 2
  {
    Quote(m.key) + ":" + Emit(m.value)
  }

  function EmitList(members: seq<Member>): bytes
    decreases members, 0
  {
    if members == [] then []
    else
      EmitMember(members[0]) + EmitTail(members[1..])
  }

  /** Every member preceded by a comma. */
  function EmitTail(members: seq<Member>): bytes
    decreases members, 0
  {
    if members == [] then []
    else
      "," + EmitMember(members[0]) + EmitTail(members[1..])
  }

  lemma {:induction false} EmitTailConcat(a: seq<Member>, b: seq<Member>)
    ensures EmitTail(a + b) == EmitTail(a) + EmitTail(b)
  {
    hide EmitMember;
    if a == [] {
      assert a + b == b;
    } else {
      EmitTailConcat(a[1..], b);
      assert (a + b)[1..] == a[1..] + b;
      Assoc("," + EmitMember(a[0]), EmitTail(a[1..]), EmitTail(b));
    }
  }

  lemma EmitListConcat(a: seq<Member>, b: seq<Member>)
    requires a != []
    ensures EmitList(a + b) == EmitList(a) + EmitTail(b)
  {
    hide EmitMember, EmitTail;
    assert (a + b)[1..] == a[1..] + b;
    EmitTailConcat(a[1..], b);
    Assoc(EmitMember(a[0]), EmitTail(a[1..]), EmitTail(b));
  }

  lemma EmitTailOne(m: Member)
    ensures EmitTail([m]) == "," + EmitMember(m)
  {
    hide EmitMember;
    assert [m][1..] == [] && EmitTail([]) == [];
  }

  // -- Numbers -------------------------------------------------------------------------

  predicate Exponent(s: bytes) {
    s == []
    || ((s[0] == 'e' || s[0] == 'E')
        && var t := if |s| > 1 && (s[1] == '+' || s[1] == '-') then s[2..] else s[1..];
           t != [] && DigitRun(t) == |t|)
  }

  predicate FractionAndExponent(s: bytes) {
    if s != [] && s[0] == '.'
    then var n := DigitRun(s[1..]); n > 0 && Exponent(s[1..][n..])
    else Exponent(s)
  }

  /** The number grammar of section 6 of RFC 8259. */
  predicate IsNumber(s: bytes) {
    var t := if s != [] && s[0] == '-' then s[1..] else s;
    var n := DigitRun(t);
    n > 0 && (t[0] == '0' ==> n == 1) && FractionAndExponent(t[n..])
  }

  predicate NumberChar(c: byte) {
    IsDigit(c) || c == '-' || c == '+' || c == '.' || c == 'e' || c == 'E'
  }

  predicate AllNumberChars(s: bytes) {
    forall k :: 0 <= k < |s| ==> NumberChar(s[k])
  }

  function NumberRun(s: bytes): (n: nat)
    ensures n <= |s|
  {
    if s == [] || !NumberChar(s[0]) then 0 else 1 + NumberRun(s[1..])
  }

  lemma {:induction false} NumberRunOf(token: bytes, rest: bytes)
    requires AllNumberChars(token) && (rest == [] || !NumberChar(rest[0]))
    ensures NumberRun(token + rest) == |token|
  {
    if token == [] {
      assert token + rest == rest;
    } else {
      NumberRunOf(token[1..], rest);
      assert (token + rest)[1..] == token[1..] + rest;
    }
  }

  lemma DigitsThen(s: bytes)
    requires AllNumberChars(s[DigitRun(s)..])
    ensures AllNumberChars(s)
  {
    DigitRunIsDigits(s);
    var n := DigitRun(s);
    forall k | 0 <= k < |s|
      ensures NumberChar(s[k])
    {
      assert s[k] == if k < n then s[..n][k] else s[n..][k - n];
    }
  }

  lemma FractionChars(s: bytes)
    requires FractionAndExponent(s)
    ensures AllNumberChars(s)
  {
    hide Exponent, DigitRun;
    if s != [] && s[0] == '.' {
      ExponentChars(s[1..][DigitRun(s[1..])..]);
      DigitsThen(s[1..]);
    } else {
      ExponentChars(s);
    }
  }

  lemma NumberCharsOf(s: bytes)
    requires IsNumber(s)
    ensures AllNumberChars(s) && s != [] && (s[0] == '-' || IsDigit(s[0]))
  {
    hide FractionAndExponent;
    var t := if s != [] && s[0] == '-' then s[1..] else s;
    FractionChars(t[DigitRun(t)..]);
    DigitsThen(t);
  }

  lemma ExponentChars(s: bytes)
    requires Exponent(s)
    ensures AllNumberChars(s)
  {
    if s != [] {
      var k := if |s| > 1 && (s[1] == '+' || s[1] == '-') then 2 else 1;
      DigitRunIsDigits(s[k..]);
      assert forall j :: k <= j < |s| ==> s[j] == s[k..][..DigitRun(s[k..])][j - k];
    }
  }

  lemma DigitsAreNumber(n: nat)
    ensures IsNumber(Digits(n)) && IsNumber(['-'] + Digits(n))
  {
    var s := Digits(n);
    DigitsAreDigits(n);
    DigitRunOf(s, []);
    assert s + [] == s && s[|s|..] == [];
    assert (['-'] + s)[1..] == s;
    assert s[0] != '-';
  }

  lemma IntIsNumber(n: int)
    ensures IsNumber(IntText(n))
  {
    DigitsAreNumber(if n < 0 then -n else n);
  }

  // -- Parsing --------------------------------------------------------------------------

  function Expect(s: bytes, literal: bytes): Option<bytes>
  {
    if |literal| <= |s| && s[..|literal|] == literal then Some(s[|literal|..]) else None
  }

  /** A value at the start of s, and what follows it. */
  function ParseValue(s: bytes): (r: Option<(Value, bytes)>)
    ensures r.Some? ==> |r.value.1| < |s|
    decreases |s|, 2
  {
    if s == [] then None
    else if s[0] == '"' then
      var t := DecodeString(s);
      if t.None? then None else Some((String(t.value.0), t.value.1))
    else if s[0] == '{' then
      if |s| > 1 && s[1] == '}' then Some((Object([]), s[2..]))
      else
        var m := ParseMember(s[1..]);
        if m.None? then None
        else
          var more := ParseTail(m.value.1);
          if more.None? then None else Some((Object([m.value.0] + more.value.0), more.value.1))
    else if Expect(s, "true").Some? then Some((Bool(true), s[4..]))
    else if Expect(s, "false").Some? then Some((Bool(false), s[5..]))
    else if Expect(s, "null").Some? then Some((Null, s[4..]))
    else
      var n := NumberRun(s);
      if n > 0 && IsNumber(s[..n]) then Some((Number(s[..n]), s[n..])) else None
  }

  function ParseMember(s: bytes): (r: Option<(Member, bytes)>)
    ensures r.Some? ==> |r.value.1| < |s|
    decreases |s|, 1
  {
    var k := DecodeString(s);
    if k.None? || k.value.1 == [] || k.value.1[0] != ':' then None
    else
      var v := ParseValue(k.value.1[1..]);
      if v.None? then None else Some((Member(k.value.0, v.value.0), v.value.1))
  }

  /** The rest of an object: comma-separated members up to the brace. */
  function ParseTail(s: bytes): (r: Option<(seq<Member>, bytes)>)
    ensures r.Some? ==> |r.value.1| < |s|
    decreases |s|, 0
  {
    if s == [] then None
    else if s[0] == '}' then Some(([], s[1..]))
    else if s[0] != ',' then None
    else
      var m := ParseMember(s[1..]);
      if m.None? then None
      else
        var more := ParseTail(m.value.1);
        if more.None? then None else Some(([m.value.0] + more.value.0, more.value.1))
  }

  // -- Round trip -------------------------------------------------------------------------

  /** Number tokens are numbers. */
  predicate WellFormed(v: Value)
    decreases v, 1
  {
    match v
    case Number(token) => IsNumber(token)
    case Object(members) => AllWellFormed(members)
    case _ => true
  }

  predicate AllWellFormed(members: seq<Member>)
    decreases members, 0
  {
    members == []
    || (WellFormed(members[0].value) && AllWellFormed(members[1..]))
  }

  /** v with every string and key as the decoder returns it. */
  function Clean(v: Value): Value
    decreases v, 1
  {
    match v
    case String(text) => String(Sanitize(text))
    case Object(members) => Object(CleanAll(members))
    case _ => v
  }

  function CleanAll(members: seq<Member>): (r: seq<Member>)
    ensures |r| == |members|
    decreases members, 0
  {
    if members == [] then []
    else
      [Member(Sanitize(members[0].key), Clean(members[0].value))] + CleanAll(members[1..])
  }

  /** A value is followed by something that cannot extend a number. */
  predicate Delimited(rest: bytes) {
    rest == [] || !NumberChar(rest[0])
  }

  /** Parsing inverts writing, whatever follows. */
  lemma {:induction false} ParseEmit(v: Value, rest: bytes)
    requires WellFormed(v) && Delimited(rest)
    ensures ParseValue(Emit(v) + rest) == Some((Clean(v), rest))
    decreases v, 1
  {
    var s := Emit(v) + rest;
    match v {
      case String(text) =>
        hide Quote, DecodeString;
        RoundTrip(text, rest);
        assert s[0] == '"' by { QuoteOpens(text, rest); }
      case Number(token) => ParseNumber(token, rest);
      case Bool(b) =>
        if b {
          assert s[..4] == "true" && s[4..] == rest;
        } else {
          assert s[..5] == "false" && s[5..] == rest && s[..4] != "true" by { assert s[0] == 'f'; }
        }
      case Null =>
        assert s[..4] == "null" && s[4..] == rest && s[0] == 'n';
      case Object(members) =>
        ParseObject(members, rest);
    }
  }

  lemma QuoteOpens(text: bytes, rest: bytes)
    ensures Quote(text) != [] && (Quote(text) + rest)[0] == '"'
  {
  }

  lemma ParseNumber(token: bytes, rest: bytes)
    requires IsNumber(token) && Delimited(rest)
    ensures ParseValue(token + rest) == Some((Number(token), rest))
  {
    hide IsNumber;
    NumberCharsOf(token);
    NumberRunOf(token, rest);
    var s := token + rest;
    assert s[0] == token[0] && s[..|token|] == token && s[|token|..] == rest;
    assert Expect(s, "true").None? && Expect(s, "false").None? && Expect(s, "null").None? by {
      if |s| >= 4 {
        assert s[..4][0] == s[0];
      }
      if |s| >= 5 {
        assert s[..5][0] == s[0];
      }
    }
  }

  lemma {:induction false} ParseEmitMember(m: Member, rest: bytes)
    requires WellFormed(m.value) && Delimited(rest)
    ensures ParseMember(EmitMember(m) + rest) == Some((Member(Sanitize(m.key), Clean(m.value)), rest))
    decreases m, 2
  {
    hide Quote, DecodeString, ParseValue, Emit, Clean;
    var tail := ":" + (Emit(m.value) + rest);
    RoundTrip(m.key, tail);
    assert EmitMember(m) + rest == Quote(m.key) + tail;
    assert tail[1..] == Emit(m.value) + rest;
    ParseEmit(m.value, rest);
  }

  lemma {:induction false} ParseEmitTail(members: seq<Member>, rest: bytes)
    requires AllWellFormed(members)
    ensures ParseTail(EmitTail(members) + ("}" + rest)) == Some((CleanAll(members), rest))
    decreases members, 0
  {
    var close := "}" + rest;
    if members == [] {
      assert EmitTail(members) + close == close && close[1..] == rest;
    } else {
      hide EmitMember, ParseMember, ParseTail, WellFormed, Clean, Delimited;
      var tail := EmitTail(members[1..]) + close;
      TailDelimited(members[1..], rest);
      ParseEmitMember(members[0], tail);
      ParseEmitTail(members[1..], rest);
      TailOpens(members, close);
      ParseTailStep(members[0], members[1..], tail, rest);
    }
  }

  lemma TailOpens(members: seq<Member>, close: bytes)
    requires members != []
    ensures EmitTail(members) + close == "," + (EmitMember(members[0]) + (EmitTail(members[1..]) + close))
  {
    hide EmitMember;
    Assoc("," + EmitMember(members[0]), EmitTail(members[1..]), close);
    Assoc(",", EmitMember(members[0]), EmitTail(members[1..]) + close);
  }

  lemma ParseTailStep(m: Member, more: seq<Member>, tail: bytes, rest: bytes)
    requires ParseMember(EmitMember(m) + tail) == Some((Member(Sanitize(m.key), Clean(m.value)), tail))
    requires ParseTail(tail) == Some((CleanAll(more), rest))
    ensures ParseTail("," + (EmitMember(m) + tail)) ==
            Some(([Member(Sanitize(m.key), Clean(m.value))] + CleanAll(more), rest))
  {
    hide EmitMember, ParseMember, Clean, CleanAll;
    var s := "," + (EmitMember(m) + tail);
    assert s[0] == ',' && s[1..] == EmitMember(m) + tail;
  }

  lemma TailDelimited(members: seq<Member>, rest: bytes)
    ensures Delimited(EmitTail(members) + ("}" + rest))
  {
    hide EmitMember;
    var s := EmitTail(members) + ("}" + rest);
    if members != [] {
      assert s[0] == (("," + EmitMember(members[0])) + EmitTail(members[1..]))[0] == ',';
    }
  }

  lemma {:induction false} ParseObject(members: seq<Member>, rest: bytes)
    requires AllWellFormed(members)
    ensures ParseValue(Emit(Object(members)) + rest) == Some((Object(CleanAll(members)), rest))
    decreases members, 1
  {
    var s := Emit(Object(members)) + rest;
    if members == [] {
      assert EmitList(members) == [];
      assert s == "{}" + rest;
      assert s[2..] == rest;
    } else {
      hide EmitMember, EmitTail, ParseMember, WellFormed, Clean, ParseTail;
      var tail := EmitTail(members[1..]) + ("}" + rest);
      ObjectOpens(members, rest);
      assert s[1..] == EmitMember(members[0]) + tail;
      assert s[1] == '"' by { MemberOpens(members[0], tail); }
      TailDelimited(members[1..], rest);
      ParseEmitMember(members[0], tail);
      ParseEmitTail(members[1..], rest);
    }
  }

  lemma ObjectOpens(members: seq<Member>, rest: bytes)
    requires members != []
    ensures Emit(Object(members)) + rest == "{" + (EmitMember(members[0]) + (EmitTail(members[1..]) + ("}" + rest)))
  {
    hide EmitMember, EmitTail;
    var head, more := EmitMember(members[0]), EmitTail(members[1..]);
    assert Emit(Object(members)) == "{" + (head + more) + "}";
    Assoc(head, more, "}" + rest);
    assert "{" + (head + more) + "}" + rest == "{" + ((head + more) + ("}" + rest));
  }

  lemma MemberOpens(m: Member, rest: bytes)
    ensures EmitMember(m) != [] && (EmitMember(m) + rest)[0] == '"'
  {
    hide Quote, Emit;
    QuoteOpens(m.key, ":" + Emit(m.value));
    assert EmitMember(m) == Quote(m.key) + (":" + Emit(m.value));
  }

  // -- No control characters ------------------------------------------------------------------

  lemma {:induction false} EmitClean(v: Value)
    requires WellFormed(v)
    ensures NoControls(Emit(v))
    decreases v, 1
  {
    match v {
      case String(text) => QuoteClean(text);
      case Number(token) => NumberCharsOf(token);
      case Object(members) =>
        hide Quote, EmitMember, EmitTail;
        if members != [] {
          EmitMemberClean(members[0]);
          EmitTailClean(members[1..]);
          assert Emit(v) == "{" + (EmitMember(members[0]) + EmitTail(members[1..])) + "}";
        }
      case _ =>
    }
  }

  lemma {:induction false} EmitMemberClean(m: Member)
    requires WellFormed(m.value)
    ensures NoControls(EmitMember(m))
    decreases m, 2
  {
    hide Quote, Emit, WellFormed;
    QuoteClean(m.key);
    EmitClean(m.value);
  }

  lemma {:induction false} EmitTailClean(members: seq<Member>)
    requires AllWellFormed(members)
    ensures NoControls(EmitTail(members))
    decreases members, 0
  {
    if members != [] {
      hide EmitMember;
      EmitMemberClean(members[0]);
      EmitTailClean(members[1..]);
    }
  }
}
