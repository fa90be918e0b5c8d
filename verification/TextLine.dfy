/** The text format: its control-character escaper and formatText. */
module TextLine {
  import opened Basics
  import opened Decimal
  import Duration
  import opened Records

  /** The textSafe table. */
  predicate TextSafe(c: byte) {
    (c as int >= 0x20 && c as int != 0x7F) || c == '\t'
  }

  function Hex(n: int): (c: byte)
    requires 0 <= n < 16
    ensures TextSafe(c)
  {
    "0123456789abcdef"[n]
  }

  function EscapeByte(c: byte): bytes {
    if TextSafe(c) then [c]
    else if c == '\n' then "\\n"
    else if c == '\r' then "\\r"
    else ['\\', 'x', Hex(c as int / 16), Hex(c as int % 16)]
  }

  /** Every byte on its own. */
  function Escape(s: bytes): bytes {
    if s == [] then [] else EscapeByte(s[0]) + Escape(s[1..])
  }

  lemma {:induction false} EscapeConcat(a: bytes, b: bytes)
    ensures Escape(a + b) == Escape(a) + Escape(b)
  {
    hide EscapeByte;
    if a == [] {
      assert a + b == b;
    } else {
      EscapeConcat(a[1..], b);
      assert (a + b)[1..] == a[1..] + b;
      Assoc(EscapeByte(a[0]), Escape(a[1..]), Escape(b));
    }
  }

  ghost predicate AllSafe(s: bytes) {
    forall k :: 0 <= k < |s| ==> TextSafe(s[k])
  }

  lemma {:induction false} EscapeIsSafe(s: bytes)
    ensures AllSafe(Escape(s))
  {
    if s != [] {
      EscapeIsSafe(s[1..]);
    }
  }

  lemma {:induction false} EscapeSafe(s: bytes)
    requires AllSafe(s)
    ensures Escape(s) == s
  {
    if s != [] {
      EscapeSafe(s[1..]);
      assert s == [s[0]] + s[1..];
    }
  }

  /** Escaping twice changes nothing: the output holds no control character. */
  lemma EscapeIdempotent(s: bytes)
    ensures AllSafe(Escape(s)) && Escape(Escape(s)) == Escape(s)
  {
    EscapeIsSafe(s);
    EscapeSafe(Escape(s));
  }

  /** appendTextBytes: safe runs are copied in one piece. */
  method AppendText(buf: bytes, s: bytes) returns (r: bytes)
    ensures r == buf + Escape(s)
  {
    hide Escape, EscapeByte;
    r := buf;
    var start := 0;
    assert s[..0] == [] && Escape([]) == [] by { EscapeNothing(); }
    for i := 0 to |s|
      invariant 0 <= start <= i
      invariant AllSafe(s[start..i])
      invariant r == buf + Escape(s[..start])
    {
      var c := s[i];
      if TextSafe(c) {
        assert s[start..i + 1] == s[start..i] + [c];
        continue;
      }
      EscapeRun(s, start, i);
      Assoc(buf, Escape(s[..start]), s[start..i]);
      if start < i {
        r := r + s[start..i];
      } else {
        assert r + s[start..i] == r;
      }
      EscapeOne(s, i);
      Assoc(buf, Escape(s[..i]), EscapeByte(c));
      r := AppendEscaped(r, c);
      start := i + 1;
    }
    EscapeRun(s, start, |s|);
    Assoc(buf, Escape(s[..start]), s[start..]);
    assert s[start..|s|] == s[start..] && s[..|s|] == s;
    if start < |s| {
      r := r + s[start..];
    } else {
      assert r + s[start..] == r;
    }
  }

  method AppendEscaped(buf: bytes, c: byte) returns (r: bytes)
    requires !TextSafe(c)
    ensures r == buf + EscapeByte(c)
  {
    match c {
      case '\n' => r := buf + ['\\', 'n'];
      case '\r' => r := buf + ['\\', 'r'];
      case _ => r := buf + ['\\', 'x', Hex(c as int / 16), Hex(c as int % 16)];
    }
  }

  lemma EscapeNothing()
    ensures Escape([]) == []
  {
  }

  lemma EscapeRun(s: bytes, start: nat, i: nat)
    requires start <= i <= |s| && AllSafe(s[start..i])
    ensures Escape(s[..i]) == Escape(s[..start]) + s[start..i]
  {
    hide Escape;
    assert s[..i] == s[..start] + s[start..i];
    EscapeConcat(s[..start], s[start..i]);
    EscapeSafe(s[start..i]);
  }

  lemma EscapeOne(s: bytes, i: nat)
    requires i < |s|
    ensures Escape(s[..i + 1]) == Escape(s[..i]) + EscapeByte(s[i])
  {
    hide EscapeByte;
    assert s[..i + 1] == s[..i] + [s[i]];
    EscapeConcat(s[..i], [s[i]]);
    assert [s[i]][1..] == [];
    assert EscapeByte(s[i]) + [] == EscapeByte(s[i]);
  }

  // -- The line ------------------------------------------------------------------------

  function FieldText(c: Format, f: Field): bytes {
    match f.kind
    case StringType => Escape(f.str)
    case Int64Type => IntText(AsInt64(f.num))
    case Uint64Type => Digits(f.num)
    case Float64Type => c.floatText(f.num)
    case BoolType => if f.num == 1 then "true" else "false"
    case DurationType => Duration.Text(AsInt64(f.num))
    case ErrorType => Escape(f.str)
    case UnknownType => "null"
  }

  /** " key=value" for every field that is not zero. */
  function TypedText(c: Format, fields: seq<Field>): bytes {
    if fields == [] then []
    else (if IsZero(fields[0]) then [] else " " + fields[0].key + "=" + FieldText(c, fields[0]))
         + TypedText(c, fields[1..])
  }

  /** "key=value" for the pair at i; a missing last value is empty. */
  function PairText(fields: seq<bytes>, i: nat): bytes
    requires i < |fields|
  {
    fields[i] + "=" + Escape(if i + 1 < |fields| then fields[i + 1] else [])
  }

  /** " key=value" for every pair. */
  function StringText(fields: seq<bytes>): bytes
    decreases |fields|
  {
    if fields == [] then []
    else " " + PairText(fields, 0) + StringText(if |fields| > 1 then fields[2..] else [])
  }

  function CallerText(e: Record): bytes {
    if e.file != [] then e.file + ":" + IntText(e.line) + " " else []
  }

  function FieldsText(c: Format, e: Record): bytes {
    if e.fieldsV != [] then TypedText(c, e.fieldsV) else StringText(e.fields)
  }

  function HeadText(e: Record, ts: bytes): bytes {
    "[" + ts + "] " + LevelName(e.level) + " [" + e.logType + "] "
  }

  function Line(c: Format, e: Record, ts: bytes): bytes {
    HeadText(e, ts) + CallerText(e) + e.textPrefix + Escape(e.msg) + FieldsText(c, e) + "\n"
  }

  lemma StringTextNext(fields: seq<bytes>, i: nat)
    requires i < |fields|
    ensures StringText(From(fields, i)) ==
            " " + PairText(fields, i) + StringText(From(fields, i + 2))
  {
    hide Escape;
    var rest := From(fields, i);
    assert |rest| > 1 ==> rest[2..] == From(fields, i + 2) && rest[1] == fields[i + 1];
  }

  /** "key=value" for the pair at i. */
  method AppendPair(buf: bytes, fields: seq<bytes>, i: nat) returns (r: bytes)
    requires i < |fields|
    ensures r == buf + PairText(fields, i)
  {
    hide Escape;
    r := buf + fields[i];
    r := r + ['='];
    if i + 1 < |fields| {
      r := AppendText(r, fields[i + 1]);
    } else {
      EscapeNothing();
    }
  }

  /** appendFieldsText, after the space its caller writes. */
  method AppendFieldsText(buf: bytes, fields: seq<bytes>) returns (r: bytes)
    requires fields != []
    ensures r == buf + StringText(fields)[1..]
  {
    hide StringText, PairText;
    r := buf;
    var i := 0;
    assert From(fields, 0) == fields;
    StringTextNext(fields, 0);
    while i < |fields|
      invariant i == 0 ==> r == buf
      invariant i > 0 ==> r + StringText(From(fields, i)) == buf + StringText(fields)[1..]
    {
      StringTextNext(fields, i);
      ghost var pair, rest := PairText(fields, i), StringText(From(fields, i + 2));
      ghost var before := r;
      if i > 0 {
        r := r + [' '];
        Assoc(before, " ", pair);
        Assoc(before, " " + pair, rest);
      } else {
        Assoc(" ", pair, rest);
        assert (" " + (pair + rest))[1..] == pair + rest;
        Assoc(buf, pair, rest);
      }
      r := AppendPair(r, fields, i);
      i := i + 2;
    }
    StringTextNothing();
    assert r + [] == r;
  }

  lemma StringTextNothing()
    ensures StringText([]) == []
  {
  }

  /** appendFieldValueText. */
  method AppendFieldValueText(buf: bytes, c: Format, f: Field) returns (r: bytes)
    ensures r == buf + FieldText(c, f)
  {
    hide Escape, IntText, Digits, Duration.Text;
    match f.kind {
      case StringType => r := AppendText(buf, f.str);
      case Int64Type => r := buf + IntText(AsInt64(f.num));
      case Uint64Type => r := buf + Digits(f.num);
      case Float64Type => r := buf + c.floatText(f.num);
      case BoolType => r := buf + (if f.num == 1 then "true" else "false");
      case DurationType => r := Duration.AppendDuration(buf, AsInt64(f.num));
      case ErrorType => r := AppendText(buf, f.str);
      case UnknownType => r := buf + "null";
    }
  }

  /** appendTypedFieldsText, after the space its caller writes. */
  method AppendTypedFieldsText(buf: bytes, c: Format, fields: seq<Field>) returns (r: bytes)
    ensures r == buf + (if TypedText(c, fields) == [] then [] else TypedText(c, fields)[1..])
  {
    hide TypedText, FieldText;
    r := buf;
    var first := true;
    assert fields[0..] == fields;
    for i := 0 to |fields|
      invariant first ==> r == buf && TypedText(c, fields[i..]) == TypedText(c, fields)
      invariant !first ==> TypedText(c, fields) != []
                           && r + TypedText(c, fields[i..]) == buf + TypedText(c, fields)[1..]
    {
      var f := fields[i];
      TypedTextNext(c, fields, i);
      ghost var rest := TypedText(c, fields[i + 1..]);
      if f.key == [] && f.kind.StringType? && f.str == [] {
        assert [] + rest == rest;
        continue;
      }
      ghost var before := r;
      ghost var wasFirst := first;
      if !first {
        r := r + [' '];
      }
      first := false;
      ghost var space := r;
      r := r + f.key;
      r := r + ['='];
      r := AppendFieldValueText(r, c, f);
      ghost var pair := f.key + "=" + FieldText(c, f);
      assert r == space + pair;
      assert TypedText(c, fields[i..]) == " " + pair + rest;
      if wasFirst {
        assert TypedText(c, fields) == " " + (pair + rest);
        assert TypedText(c, fields)[1..] == pair + rest;
        Assoc(buf, pair, rest);
      } else {
        assert r == before + (" " + pair);
        Assoc(before, " " + pair, rest);
      }
    }
    assert fields[|fields|..] == [];
    TypedTextNothing(c);
    assert r + [] == r && buf + [] == buf;
  }

  lemma TypedTextNothing(c: Format)
    ensures TypedText(c, []) == []
  {
  }

  lemma TypedTextNext(c: Format, fields: seq<Field>, i: nat)
    requires i < |fields|
    ensures TypedText(c, fields[i..]) ==
            (if IsZero(fields[i]) then [] else " " + fields[i].key + "=" + FieldText(c, fields[i]))
            + TypedText(c, fields[i + 1..])
  {
    hide FieldText, IsZero;
    assert fields[i..][1..] == fields[i + 1..];
  }

  lemma {:induction false} TypedTextOpens(c: Format, fields: seq<Field>)
    ensures TypedText(c, fields) != [] ==> TypedText(c, fields)[0] == ' ' && |TypedText(c, fields)| > 1
  {
    if fields != [] {
      hide FieldText, IsZero;
      TypedTextOpens(c, fields[1..]);
      if !IsZero(fields[0]) {
        var pair := fields[0].key + "=" + FieldText(c, fields[0]);
        assert TypedText(c, fields) == " " + (pair + TypedText(c, fields[1..]));
      }
    }
  }

  /** The fields part of formatText: a stray space is taken back when every
      typed field is zero. */
  method AppendFields(buf: bytes, c: Format, e: Record) returns (r: bytes)
    ensures r == buf + FieldsText(c, e)
  {
    hide TypedText, StringText;
    r := buf;
    if |e.fieldsV| > 0 {
      var fieldsStart := |r|;
      r := r + [' '];
      r := AppendTypedFieldsText(r, c, e.fieldsV);
      TypedTextOpens(c, e.fieldsV);
      ghost var text := TypedText(c, e.fieldsV);
      if |r| == fieldsStart + 1 {
        assert |text| == 0;
        r := r[..fieldsStart];
        assert r == buf && text == [] && buf + [] == buf;
      } else {
        assert text == " " + text[1..];
        Assoc(buf, " ", text[1..]);
      }
    } else if |e.fields| > 0 {
      r := r + [' '];
      StringTextOpens(e.fields);
      r := AppendFieldsText(r, e.fields);
      Assoc(buf, " ", StringText(e.fields)[1..]);
    } else {
      StringTextNothing();
      assert buf + [] == buf;
    }
  }

  lemma StringTextOpens(fields: seq<bytes>)
    requires fields != []
    ensures StringText(fields) != [] && StringText(fields) == " " + StringText(fields)[1..]
  {
    hide Escape;
    var value := Escape(if |fields| > 1 then fields[1] else []);
    var rest := StringText(if |fields| > 1 then fields[2..] else []);
    assert StringText(fields) == " " + (fields[0] + "=" + value + rest);
  }

  /** The part of formatText up to the log type. */
  method AppendHead(buf: bytes, e: Record, ts: bytes) returns (r: bytes)
    ensures r == buf + HeadText(e, ts)
  {
    hide LevelName;
    r := buf + ['['];
    r := r + ts;
    r := r + "] ";
    r := r + LevelName(e.level);
    r := r + " [";
    r := r + e.logType;
    r := r + "] ";
  }

  /** formatText. */
  method FormatText(buf: bytes, c: Format, e: Record, ts: bytes) returns (r: bytes)
    ensures r == buf + Line(c, e, ts)
  {
    hide Escape, FieldsText, IntText, HeadText;
    r := AppendHead(buf, e, ts);
    ghost var head := HeadText(e, ts);
    if e.file != [] {
      r := r + e.file;
      r := r + [':'];
      r := r + IntText(e.line);
      r := r + [' '];
    }
    head := head + CallerText(e);
    assert r == buf + head;
    if |e.textPrefix| > 0 {
      r := r + e.textPrefix;
    }
    head := head + e.textPrefix;
    assert r == buf + head;
    r := AppendText(r, e.msg);
    Assoc(buf, head, Escape(e.msg));
    head := head + Escape(e.msg);
    r := AppendFields(r, c, e);
    Assoc(buf, head, FieldsText(c, e));
    head := head + FieldsText(c, e);
    r := r + ['\n'];
    Assoc(buf, head, "\n");
  }

  // -- One line per entry --------------------------------------------------------------------

  ghost predicate NoNewline(s: bytes) {
    forall k :: 0 <= k < |s| ==> s[k] != '\n'
  }

  /** The parts the text format trusts contain no newline. */
  ghost predicate Trusted(c: Format, e: Record, ts: bytes) {
    && NoNewline(ts) && NoNewline(e.logType) && NoNewline(e.file) && NoNewline(e.textPrefix)
    && (forall k :: 0 <= k < |e.fields| && k % 2 == 0 ==> NoNewline(e.fields[k]))
    && (forall k :: 0 <= k < |e.fieldsV| ==> NoNewline(e.fieldsV[k].key))
    && (forall bits: uint64 :: NoNewline(c.floatText(bits)))
  }

  lemma DigitsNoNewline(n: nat)
    ensures NoNewline(Digits(n))
  {
    DigitsAreDigits(n);
  }

  lemma DurationNoNewline(ns: nat)
    ensures NoNewline(Duration.AbsText(ns))
  {
    hide Digits;
    DigitsNoNewline(ns);
    DigitsNoNewline(ns / Duration.MICROSECOND);
    DigitsNoNewline(ns / Duration.MILLISECOND);
    DigitsNoNewline(ns / Duration.SECOND);
    DigitsNoNewline(ns / Duration.HOUR);
    DigitsNoNewline(ns % Duration.HOUR / Duration.MINUTE);
    DigitsNoNewline(ns % Duration.MINUTE / Duration.SECOND);
  }

  lemma EscapeNoNewline(s: bytes)
    ensures NoNewline(Escape(s))
  {
    EscapeIsSafe(s);
  }

  lemma FieldTextNoNewline(c: Format, f: Field)
    requires forall bits: uint64 :: NoNewline(c.floatText(bits))
    ensures NoNewline(FieldText(c, f))
  {
    hide Escape, Digits, Duration.AbsText;
    EscapeNoNewline(f.str);
    DigitsNoNewline(f.num);
    DigitsNoNewline(if AsInt64(f.num) < 0 then -(AsInt64(f.num) as int) else 0);
    DurationNoNewline(Duration.Abs(AsInt64(f.num)));
  }

  lemma {:induction false} TypedTextNoNewline(c: Format, fields: seq<Field>)
    requires forall bits: uint64 :: NoNewline(c.floatText(bits))
    requires forall k :: 0 <= k < |fields| ==> NoNewline(fields[k].key)
    ensures NoNewline(TypedText(c, fields))
  {
    if fields != [] {
      hide FieldText, IsZero;
      FieldTextNoNewline(c, fields[0]);
      TypedTextNoNewline(c, fields[1..]);
    }
  }

  lemma {:induction false} StringTextNoNewline(fields: seq<bytes>)
    requires forall k :: 0 <= k < |fields| && k % 2 == 0 ==> NoNewline(fields[k])
    ensures NoNewline(StringText(fields))
    decreases |fields|
  {
    if fields != [] {
      hide Escape;
      EscapeNoNewline(if |fields| > 1 then fields[1] else []);
      var rest := if |fields| > 1 then fields[2..] else [];
      forall k | 0 <= k < |rest| && k % 2 == 0
        ensures NoNewline(rest[k])
      {
        assert rest[k] == fields[k + 2];
      }
      StringTextNoNewline(rest);
    }
  }

  /** A message or value cannot start a new line: if the trusted parts contain
      no newline, the line has exactly one, at its end. */
  lemma OneNewline(c: Format, e: Record, ts: bytes)
    requires Trusted(c, e, ts)
    ensures var line := Line(c, e, ts);
            line != [] && line[|line| - 1] == '\n' && NoNewline(line[..|line| - 1])
  {
    hide Escape, TypedText, StringText, Digits;
    EscapeNoNewline(e.msg);
    TypedTextNoNewline(c, e.fieldsV);
    StringTextNoNewline(e.fields);
    DigitsNoNewline(if e.line < 0 then -(e.line as int) else e.line);
    HeadNoNewline(c, e, ts);
    assert NoNewline(CallerText(e)) && NoNewline(FieldsText(c, e));
    hide HeadText, CallerText, FieldsText, NoNewline;
    var body := HeadText(e, ts) + CallerText(e) + e.textPrefix + Escape(e.msg) + FieldsText(c, e);
    FiveParts(HeadText(e, ts), CallerText(e), e.textPrefix, Escape(e.msg), FieldsText(c, e));
    assert Line(c, e, ts) == body + "\n";
    assert (body + "\n")[..|body|] == body;
  }

  lemma HeadNoNewline(c: Format, e: Record, ts: bytes)
    requires Trusted(c, e, ts)
    ensures NoNewline(HeadText(e, ts))
  {
    assert NoNewline(LevelName(e.level));
    hide LevelName;
  }

  lemma FiveParts(a: bytes, b: bytes, c: bytes, d: bytes, e: bytes)
    requires NoNewline(a) && NoNewline(b) && NoNewline(c) && NoNewline(d) && NoNewline(e)
    ensures NoNewline(a + b + c + d + e)
  {
  }

  // -- The baked prefix --------------------------------------------------------------------

  /** "key=value " for every pair. */
  function PrefixText(fields: seq<bytes>): bytes
    decreases |fields|
  {
    if fields == [] then []
    else fields[0] + "=" + Escape(if |fields| > 1 then fields[1] else []) + " "
         + PrefixText(if |fields| > 1 then fields[2..] else [])
  }

  lemma PrefixTextNext(fields: seq<bytes>, i: nat)
    requires i < |fields|
    ensures PrefixText(From(fields, i)) ==
            fields[i] + "=" + Escape(if i + 1 < |fields| then fields[i + 1] else []) + " "
            + PrefixText(From(fields, i + 2))
  {
    hide Escape;
    var rest := From(fields, i);
    assert |rest| > 1 ==> rest[2..] == From(fields, i + 2) && rest[1] == fields[i + 1];
  }

  /** buildTextPrefix. */
  method BuildTextPrefix(fields: seq<bytes>) returns (r: bytes)
    ensures r == PrefixText(fields)
  {
    hide PrefixText, Escape;
    r := [];
    var i := 0;
    assert From(fields, 0) == fields;
    assert r + PrefixText(fields) == PrefixText(fields);
    while i < |fields|
      invariant r + PrefixText(From(fields, i)) == PrefixText(fields)
    {
      PrefixTextNext(fields, i);
      ghost var value := Escape(if i + 1 < |fields| then fields[i + 1] else []);
      ghost var before := r;
      r := r + fields[i];
      r := r + ['='];
      if i + 1 < |fields| {
        r := AppendText(r, fields[i + 1]);
      } else {
        EscapeNothing();
        assert r + [] == r;
      }
      r := r + [' '];
      assert r == before + (fields[i] + "=" + value + " ");
      Assoc(before, fields[i] + "=" + value + " ", PrefixText(From(fields, i + 2)));
      i := i + 2;
    }
    assert PrefixText([]) == [] by { PrefixTextNothing(); }
    assert r + [] == r;
  }

  lemma PrefixTextNothing()
    ensures PrefixText([]) == []
  {
  }

  /** A baked prefix has no newline when its keys have none. */
  lemma {:induction false} PrefixNoNewline(fields: seq<bytes>)
    requires forall k :: 0 <= k < |fields| && k % 2 == 0 ==> NoNewline(fields[k])
    ensures NoNewline(PrefixText(fields))
    decreases |fields|
  {
    if fields != [] {
      hide Escape;
      EscapeNoNewline(if |fields| > 1 then fields[1] else []);
      var rest := if |fields| > 1 then fields[2..] else [];
      forall k | 0 <= k < |rest| && k % 2 == 0
        ensures NoNewline(rest[k])
      {
        assert rest[k] == fields[k + 2];
      }
      PrefixNoNewline(rest);
    }
  }
}
