/** What a reader finds in a line: every member and field in terms of the data
    that was logged. */
module Reading {
  import opened Basics
  import opened Decimal
  import opened Json
  import JsonString
  import opened Records
  import opened Utf8
  import Duration
  import JsonLine
  import TextLine

  /** The integer that a token without fraction and exponent stands for. */
  function Integer(token: bytes): Option<int> {
    var digits := if token != [] && token[0] == '-' then token[1..] else token;
    if digits == [] || !AllDigits(digits) then None
    else Some(if token[0] == '-' then 0 - Decimal.Value(digits) else Decimal.Value(digits))
  }

  lemma IntegerOf(n: int)
    ensures Integer(IntText(n)) == Some(n)
  {
    hide Digits, AllDigits, Decimal.Value;
    var abs: nat := if n < 0 then -n else n;
    DigitsValue(abs);
    DigitsAreDigits(abs);
    assert IsDigit(Digits(abs)[0]) by { FirstDigit(Digits(abs)); }
    assert (['-'] + Digits(abs))[1..] == Digits(abs);
  }

  lemma FirstDigit(s: bytes)
    requires s != [] && AllDigits(s)
    ensures IsDigit(s[0])
  {
  }

  // -- JSON -----------------------------------------------------------------------------

  /** v shows the value of f. Bits of a float64: 1 sign, 11 exponent, 52
      mantissa. */
  ghost predicate ShowsValue(c: Format, f: Field, v: Json.Value) {
    var signed: int := if f.num < 0x8000_0000_0000_0000 then f.num else f.num - 0x1_0000_0000_0000_0000;
    match f.kind
    case StringType => v == String(Sanitize(f.str))
    case ErrorType => v == String(Sanitize(f.str))
    case Int64Type => v.Number? && Integer(v.token) == Some(signed)
    case Uint64Type => v.Number? && Integer(v.token) == Some(f.num)
    case BoolType => v == Bool(f.num == 1)
    case Float64Type =>
      var exponent, mantissa := f.num / 0x10_0000_0000_0000 % 0x800, f.num % 0x10_0000_0000_0000;
      if exponent != 0x7FF then v == Number(c.floatText(f.num))
      else if mantissa != 0 then v == String("NaN")
      else v == String(if f.num < 0x8000_0000_0000_0000 then "+Inf" else "-Inf")
    case DurationType =>
      if c.durationUnit <= 0 then v.String? && ShowsDuration(signed, v.text)
      else if signed % c.durationUnit != 0 then v == Number(c.fractionText(signed, c.durationUnit))
      else v.Number? && Integer(v.token).Some? && Integer(v.token).value * c.durationUnit == signed
    case UnknownType => v == Null
  }

  ghost predicate ShowsDuration(d: int, text: bytes) {
    if d < 0 then text != [] && text[0] == '-' && Duration.Canonical(-d, text[1..]) else Duration.Canonical(d, text)
  }

  lemma DurationShows(d: int64)
    ensures ShowsDuration(d, Duration.Text(d)) && Sanitize(Duration.Text(d)) == Duration.Text(d)
  {
    hide Duration.AbsText, Duration.Canonical, JsonString.Escape;
    Duration.TextCanonical(Duration.Abs(d));
    assert ("-" + Duration.AbsText(Duration.Abs(d)))[1..] == Duration.AbsText(Duration.Abs(d));
    JsonLine.DurationTextIsRaw(d);
    var text := Duration.Text(d);
    assert (['"'] + JsonString.Escape(text) + ['"'])[1..][..|JsonString.Escape(text)|] == JsonString.Escape(text);
    assert (['"'] + text + ['"'])[1..][..|text|] == text;
    JsonString.UnescapedValid(text);
  }

  lemma SanitizeWords()
    ensures Sanitize("NaN") == "NaN" && Sanitize("+Inf") == "+Inf" && Sanitize("-Inf") == "-Inf"
  {
  }

  /** The value of every field, as it is read back, shows the field. */
  lemma FieldShows(c: Format, f: Field)
    ensures ShowsValue(c, f, Clean(JsonLine.FieldValue(c, f)))
  {
    hide Integer, ShowsDuration, Sanitize, IntText, Duration.Text;
    var d := AsInt64(f.num);
    match f.kind {
      case Int64Type => IntegerOf(d);
      case Uint64Type => IntegerOf(f.num);
        assert IntText(f.num) == Digits(f.num) by { UnsignedText(f.num); }
      case Float64Type => SanitizeWords();
      case DurationType =>
        if c.durationUnit > 0 {
          IntegerOf(d / c.durationUnit);
          WholeUnits(d, c.durationUnit);
        } else {
          DurationShows(d);
        }
      case _ =>
    }
  }

  lemma UnsignedText(n: nat)
    ensures IntText(n) == Digits(n)
  {
  }

  lemma WholeUnits(d: int, unit: int)
    requires unit > 0
    ensures d % unit == 0 ==> d / unit * unit == d
  {
  }

  /** The value written for a field reads back as showing it, whatever follows. */
  lemma ValueReads(c: Format, f: Field, rest: bytes) returns (v: Json.Value)
    requires c.Valid() && Delimited(rest)
    ensures ParseValue(Emit(JsonLine.FieldValue(c, f)) + rest) == Some((v, rest)) && ShowsValue(c, f, v)
  {
    hide Json.Emit, ParseValue, ShowsValue, Clean, WellFormed, JsonLine.FieldValue;
    JsonLine.FieldValueOk(c, f);
    ParseEmit(JsonLine.FieldValue(c, f), rest);
    FieldShows(c, f);
    v := Clean(JsonLine.FieldValue(c, f));
  }

  // -- Members --------------------------------------------------------------------------

  /** The members show an alternating list of keys and values. */
  ghost predicate ShowsPairs(fields: seq<bytes>, ms: seq<Member>) {
    && |ms| == (|fields| + 1) / 2
    && forall i :: 0 <= i < |ms| ==>
         && ms[i].key == Sanitize(fields[2 * i])
         && ms[i].value == String(Sanitize(if 2 * i + 1 < |fields| then fields[2 * i + 1] else []))
  }

  lemma CleanNext(m: Member, rest: seq<Member>)
    ensures CleanAll([m] + rest) == [Member(Sanitize(m.key), Clean(m.value))] + CleanAll(rest)
  {
    hide Clean, Sanitize;
    assert ([m] + rest)[1..] == rest;
  }

  lemma {:induction false} PairsShow(fields: seq<bytes>)
    ensures ShowsPairs(fields, CleanAll(JsonLine.StringMembers(fields)))
    decreases |fields|
  {
    if fields != [] {
      var value := if |fields| > 1 then fields[1] else [];
      var more := if |fields| > 1 then fields[2..] else [];
      PairsShow(more);
      CleanNext(Member(fields[0], String(value)), JsonLine.StringMembers(more));
      hide Sanitize;
      assert JsonLine.StringMembers(fields) == [Member(fields[0], String(value))] + JsonLine.StringMembers(more);
      hide JsonLine.StringMembers, CleanAll;
      PairsNext(fields, value, more, CleanAll(JsonLine.StringMembers(more)));
    }
  }

  lemma PairsNext(fields: seq<bytes>, value: bytes, more: seq<bytes>, rest: seq<Member>)
    requires fields != [] && ShowsPairs(more, rest)
    requires if |fields| > 1 then value == fields[1] && more == fields[2..] else value == [] && more == []
    ensures ShowsPairs(fields, [Member(Sanitize(fields[0]), String(Sanitize(value)))] + rest)
  {
    hide Sanitize;
    var ms := [Member(Sanitize(fields[0]), String(Sanitize(value)))] + rest;
    forall i | 1 <= i < |ms|
      ensures ms[i].key == Sanitize(fields[2 * i])
      ensures ms[i].value == String(Sanitize(if 2 * i + 1 < |fields| then fields[2 * i + 1] else []))
    {
      assert ms[i] == rest[i - 1];
      assert 2 * i + 1 < |fields| ==> more[2 * (i - 1) + 1] == fields[2 * i + 1];
    }
  }

  /** The members show the typed fields, those that Err(nil) returns left out. */
  ghost predicate ShowsFields(c: Format, fields: seq<Field>, ms: seq<Member>) {
    if fields == [] then ms == []
    else if fields[0].key == [] && fields[0].kind == StringType && fields[0].str == [] then
      ShowsFields(c, fields[1..], ms)
    else
      && ms != [] && ms[0].key == Sanitize(fields[0].key) && ShowsValue(c, fields[0], ms[0].value)
      && ShowsFields(c, fields[1..], ms[1..])
  }

  lemma {:induction false} FieldsShow(c: Format, fields: seq<Field>)
    ensures ShowsFields(c, fields, CleanAll(JsonLine.TypedMembers(c, fields)))
  {
    hide ShowsValue, JsonLine.FieldValue, Sanitize, Clean;
    if fields != [] {
      FieldsShow(c, fields[1..]);
      FieldShows(c, fields[0]);
      var ms := JsonLine.TypedMembers(c, fields);
      if !IsZero(fields[0]) {
        assert ms[1..] == JsonLine.TypedMembers(c, fields[1..]);
        assert CleanAll(ms)[1..] == CleanAll(ms[1..]);
      }
    }
  }

  // -- The line -------------------------------------------------------------------------

  /** The "fields" member: nothing when no field is left. */
  ghost predicate ShowsFieldsMember(c: Format, e: Record, rest: seq<Member>) {
    if e.fieldsV != [] then
      exists ms :: ShowsFields(c, e.fieldsV, ms) && rest == if ms == [] then [] else [Member("fields", Object(ms))]
    else if e.fields != [] then
      exists ms :: ShowsPairs(e.fields, ms) && rest == [Member("fields", Object(ms))]
    else rest == []
  }

  /** The members up to the profile's own. */
  ghost predicate ShowsHead(c: Format, e: Record, ts: bytes, ms: seq<Member>) {
    && |ms| == (if e.file == [] then 3 else 5)
    && ms[0] == Member("ts", if c.timestamped then String(ts) else Number(ts))
    && ms[1] == Member("level", String(if e.level == 0 then "DEBUG" else if e.level == 1 then "INFO"
                                       else if e.level == 2 then "WARN" else if e.level == 3 then "ERROR"
                                       else "UNKNOWN"))
    && ms[2] == Member("type", String(Sanitize(e.logType)))
    && (e.file != [] ==>
          && ms[3] == Member("file", String(Sanitize(e.file)))
          && ms[4].key == "line" && ms[4].value.Number? && Integer(ms[4].value.token) == Some(e.line))
  }

  /** What a reader finds in the JSON object of a log call: ts, level, type, the
      caller if known, the profile's own fields, msg and fields, in this order. */
  ghost predicate ShowsRecord(c: Format, e: Record, ts: bytes, baked: seq<bytes>, ms: seq<Member>) {
    var own := if e.file == [] then 3 else 5;
    var msg := own + (|baked| + 1) / 2;
    && |ms| > msg && ShowsHead(c, e, ts, ms[..own])
    && ShowsPairs(baked, ms[own..msg])
    && ms[msg] == Member("msg", String(Sanitize(e.msg)))
    && ShowsFieldsMember(c, e, ms[msg + 1..])
  }

  lemma SafeStays(s: bytes)
    requires JsonString.AllSafe(s)
    ensures Sanitize(s) == s
  {
    hide JsonString.Escape;
    JsonString.EscapeSafePrefix(s, []);
    JsonString.EscapeNothing();
    assert s + [] == s;
    JsonString.UnescapedValid(s);
  }

  lemma CleanCaller(e: Record)
    ensures CleanAll(JsonLine.Caller(e)) ==
            if e.file == [] then []
            else [Member("file", String(Sanitize(e.file))), Member("line", Number(IntText(e.line)))]
  {
    hide Sanitize, IntText;
    if e.file != [] {
      var m4, m5 := Member("file", String(e.file)), Member("line", Number(IntText(e.line)));
      assert CleanAll([]) == [];
      CleanNext(m5, []);
      CleanNext(m4, [m5]);
      SafeStays("file");
      SafeStays("line");
      assert [m5] + [] == [m5] && [m4] + [m5] == JsonLine.Caller(e);
    }
  }

  lemma HeadShows(c: Format, e: Record, ts: bytes)
    requires JsonLine.TimestampOk(c, ts)
    ensures ShowsHead(c, e, ts, CleanAll(JsonLine.Head(c, e, ts)))
  {
    hide Sanitize, IntText, Integer, JsonLine.Caller, CleanAll, JsonString.AllSafe, JsonString.Escape;
    var m1, m2 := Member("ts", JsonLine.Timestamp(c, ts)), Member("level", String(LevelName(e.level)));
    var m3 := Member("type", String(e.logType));
    CleanCaller(e);
    CleanNext(m3, JsonLine.Caller(e));
    CleanNext(m2, [m3] + JsonLine.Caller(e));
    CleanNext(m1, [m2] + ([m3] + JsonLine.Caller(e)));
    assert JsonLine.Head(c, e, ts) == [m1] + ([m2] + ([m3] + JsonLine.Caller(e)));
    JsonLine.ReservedSafe("ts");
    JsonLine.ReservedSafe("level");
    JsonLine.ReservedSafe("type");
    SafeStays("ts");
    SafeStays("level");
    SafeStays("type");
    JsonLine.LevelSafe(e.level);
    SafeStays(LevelName(e.level));
    IntegerOf(e.line);
    if c.timestamped {
      JsonString.UnescapedValid(ts);
    }
  }

  lemma FieldsMemberShows(c: Format, e: Record)
    ensures ShowsFieldsMember(c, e, CleanAll(JsonLine.FieldsMember(c, e)))
  {
    hide ShowsFields, ShowsPairs, JsonLine.TypedMembers, JsonLine.StringMembers, Sanitize;
    FieldsShow(c, e.fieldsV);
    PairsShow(e.fields);
    JsonLine.ReservedSafe("fields");
    SafeStays("fields");
    var typed, strings := JsonLine.TypedMembers(c, e.fieldsV), JsonLine.StringMembers(e.fields);
    CleanNext(Member("fields", Object(typed)), []);
    CleanNext(Member("fields", Object(strings)), []);
    assert CleanAll([]) == [];
    hide CleanAll;
    assert [Member("fields", Object(typed))] + [] == [Member("fields", Object(typed))];
    assert [Member("fields", Object(strings))] + [] == [Member("fields", Object(strings))];
    assert CleanAll(typed) == [] <==> typed == [];
  }

  /** Every line reads back as an object that shows the record, and a newline;
      there is no other control character. */
  lemma LineReads(c: Format, e: Record, ts: bytes, baked: seq<bytes>) returns (ms: seq<Member>)
    requires c.Valid() && JsonLine.TimestampOk(c, ts)
    ensures ParseValue(JsonLine.Line(c, e, ts, baked)) == Some((Object(ms), "\n"))
    ensures ShowsRecord(c, e, ts, baked, ms)
    ensures JsonString.NoControls(JsonLine.Line(c, e, ts, baked)[..|JsonLine.Line(c, e, ts, baked)| - 1])
  {
    hide JsonLine.Head, JsonLine.StringMembers, JsonLine.FieldsMember, CleanAll, ParseValue, JsonLine.Line, Sanitize;
    JsonLine.LineParses(c, e, ts, baked);
    ms := CleanAll(JsonLine.Expected(c, e, ts, baked));
    HeadShows(c, e, ts);
    PairsShow(baked);
    FieldsMemberShows(c, e);
    var head, own, fields := JsonLine.Head(c, e, ts), JsonLine.StringMembers(baked), JsonLine.FieldsMember(c, e);
    var msg := Member("msg", String(e.msg));
    JsonLine.CleanConcat(head + own + [msg], fields);
    JsonLine.CleanConcat(head + own, [msg]);
    JsonLine.CleanConcat(head, own);
    CleanNext(msg, []);
    assert [msg] + [] == [msg];
    JsonLine.ReservedSafe("msg");
    SafeStays("msg");
    assert CleanAll([]) == [] by { NothingToClean(); }
    RecordShows(c, e, ts, baked, CleanAll(head), CleanAll(own), CleanAll(fields), ms);
  }

  lemma NothingToClean()
    ensures CleanAll([]) == []
  {
  }

  lemma RecordShows(c: Format, e: Record, ts: bytes, baked: seq<bytes>, head: seq<Member>, own: seq<Member>,
                    fields: seq<Member>, ms: seq<Member>)
    requires ShowsHead(c, e, ts, head) && ShowsPairs(baked, own) && ShowsFieldsMember(c, e, fields)
    requires ms == head + own + [Member("msg", String(Sanitize(e.msg)))] + fields
    ensures ShowsRecord(c, e, ts, baked, ms)
  {
    hide Integer, Sanitize, ShowsFieldsMember;
    assert |own| == (|baked| + 1) / 2;
    hide ShowsPairs;
    ThreeParts(head, own, Member("msg", String(Sanitize(e.msg))), fields);
  }

  lemma ThreeParts<T>(a: seq<T>, b: seq<T>, x: T, d: seq<T>)
    ensures var all := a + b + [x] + d;
            && all[..|a|] == a && all[|a|..|a| + |b|] == b && all[|a| + |b|] == x && all[|a| + |b| + 1..] == d
  {
  }

  // -- Text -----------------------------------------------------------------------------

  /** The value of a lower-case hexadecimal digit. */
  function LowerHex(c: byte): int {
    if '0' <= c <= '9' then c as int - 0x30 else if 'a' <= c <= 'f' then c as int - 0x57 else -1
  }

  /** The text shows the bytes of s: newline and carriage return as two
      characters, other control characters but the tab, and DEL, as \xNN, all
      other bytes as they are. */
  ghost predicate ShowsBytes(s: bytes, text: bytes) {
    if s == [] then text == []
    else
      var c := s[0] as int;
      if c == 0x0A then |text| >= 2 && text[..2] == ['\\', 'n'] && ShowsBytes(s[1..], text[2..])
      else if c == 0x0D then |text| >= 2 && text[..2] == ['\\', 'r'] && ShowsBytes(s[1..], text[2..])
      else if (c < 0x20 && c != 0x09) || c == 0x7F then
        && |text| >= 4 && text[..2] == ['\\', 'x']
        && 0 <= LowerHex(text[2]) && 0 <= LowerHex(text[3]) && LowerHex(text[2]) * 16 + LowerHex(text[3]) == c
        && ShowsBytes(s[1..], text[4..])
      else text != [] && text[0] == s[0] && ShowsBytes(s[1..], text[1..])
  }

  lemma {:induction false} BytesShow(s: bytes)
    ensures ShowsBytes(s, TextLine.Escape(s))
  {
    if s != [] {
      BytesShow(s[1..]);
      var first, rest := TextLine.EscapeByte(s[0]), TextLine.Escape(s[1..]);
      assert TextLine.Escape(s) == first + rest;
      assert (first + rest)[|first|..] == rest && (first + rest)[..|first|] == first;
      FirstShows(s[0], first);
      hide TextLine.Escape, TextLine.EscapeByte;
      assert |first| >= 2 ==> (first + rest)[..2] == first[..2];
    }
  }

  lemma FirstShows(b: byte, first: bytes)
    requires first == TextLine.EscapeByte(b)
    ensures var c := b as int;
            if c == 0x0A then first == ['\\', 'n']
            else if c == 0x0D then first == ['\\', 'r']
            else if (c < 0x20 && c != 0x09) || c == 0x7F then
              && |first| == 4 && first[..2] == ['\\', 'x'] && 0 <= LowerHex(first[2]) && 0 <= LowerHex(first[3])
              && LowerHex(first[2]) * 16 + LowerHex(first[3]) == c
            else first == [b]
  {
    HexValue(b as int / 16);
    HexValue(b as int % 16);
    hide TextLine.Hex;
  }

  lemma HexValue(n: int)
    requires 0 <= n < 16
    ensures LowerHex(TextLine.Hex(n)) == n
  {
  }

  /** The text shows the value of f. */
  ghost predicate ShowsText(c: Format, f: Field, text: bytes) {
    var signed: int := if f.num < 0x8000_0000_0000_0000 then f.num else f.num - 0x1_0000_0000_0000_0000;
    match f.kind
    case StringType => ShowsBytes(f.str, text)
    case ErrorType => ShowsBytes(f.str, text)
    case Int64Type => Integer(text) == Some(signed)
    case Uint64Type => Integer(text) == Some(f.num)
    case Float64Type => text == c.floatText(f.num)
    case BoolType => text == if f.num == 1 then "true" else "false"
    case DurationType => ShowsDuration(signed, text)
    case UnknownType => text == "null"
  }

  lemma TextShows(c: Format, f: Field)
    ensures ShowsText(c, f, TextLine.FieldText(c, f))
  {
    hide TextLine.Escape, Digits, Integer, ShowsDuration, ShowsBytes, Duration.Text;
    BytesShow(f.str);
    IntegerOf(AsInt64(f.num));
    IntegerOf(f.num);
    UnsignedText(f.num);
    DurationShows(AsInt64(f.num));
  }

  /** The text shows the typed fields, each as " key=value". */
  ghost predicate ShowsTextFields(c: Format, fields: seq<Field>, text: bytes) {
    if fields == [] then text == []
    else if fields[0].key == [] && fields[0].kind == StringType && fields[0].str == [] then
      ShowsTextFields(c, fields[1..], text)
    else
      exists value, more ::
        && ShowsText(c, fields[0], value) && ShowsTextFields(c, fields[1..], more)
        && text == " " + fields[0].key + "=" + value + more
  }

  lemma {:induction false} TextFieldsShow(c: Format, fields: seq<Field>)
    ensures ShowsTextFields(c, fields, TextLine.TypedText(c, fields))
  {
    hide ShowsText, TextLine.FieldText;
    if fields != [] {
      TextFieldsShow(c, fields[1..]);
      TextShows(c, fields[0]);
      var more := TextLine.TypedText(c, fields[1..]);
      if IsZero(fields[0]) {
        assert [] + more == more;
      } else {
        assert TextLine.TypedText(c, fields) ==
               " " + fields[0].key + "=" + TextLine.FieldText(c, fields[0]) + more;
      }
    }
  }

  /** The text shows an alternating list of keys and values, each pair between
      `before` and `after`. */
  ghost predicate ShowsTextPairs(fields: seq<bytes>, before: bytes, after: bytes, text: bytes)
    decreases |fields|
  {
    if fields == [] then text == []
    else
      exists value, more ::
        && ShowsBytes(if |fields| > 1 then fields[1] else [], value)
        && ShowsTextPairs(if |fields| > 1 then fields[2..] else [], before, after, more)
        && text == before + fields[0] + "=" + value + after + more
  }

  lemma {:induction false} TextPairsShow(fields: seq<bytes>)
    ensures ShowsTextPairs(fields, " ", [], TextLine.StringText(fields))
    decreases |fields|
  {
    hide ShowsBytes, TextLine.Escape;
    if fields != [] {
      var value := if |fields| > 1 then fields[1] else [];
      var more := if |fields| > 1 then fields[2..] else [];
      BytesShow(value);
      TextPairsShow(more);
      StringTextFirst(fields, value, more);
      hide TextLine.StringText;
    }
  }

  lemma StringTextFirst(fields: seq<bytes>, value: bytes, more: seq<bytes>)
    requires fields != [] && value == (if |fields| > 1 then fields[1] else [])
    requires more == if |fields| > 1 then fields[2..] else []
    ensures TextLine.StringText(fields) ==
            " " + fields[0] + "=" + TextLine.Escape(value) + [] + TextLine.StringText(more)
  {
    hide TextLine.Escape;
    var pair, rest := TextLine.PairText(fields, 0), TextLine.StringText(more);
    assert TextLine.StringText(fields) == " " + pair + rest;
    hide TextLine.StringText;
    Assoc(" ", fields[0], "=");
    Assoc(" ", fields[0] + "=", TextLine.Escape(value));
    Nothing(" " + fields[0] + "=" + TextLine.Escape(value));
  }

  lemma Nothing(text: bytes)
    ensures text + [] == text
  {
  }

  lemma {:induction false} PrefixShows(fields: seq<bytes>)
    ensures ShowsTextPairs(fields, [], " ", TextLine.PrefixText(fields))
    decreases |fields|
  {
    hide ShowsBytes, TextLine.Escape;
    if fields != [] {
      var value := if |fields| > 1 then fields[1] else [];
      var more := if |fields| > 1 then fields[2..] else [];
      BytesShow(value);
      PrefixShows(more);
      assert TextLine.PrefixText(fields) ==
             [] + fields[0] + "=" + TextLine.Escape(value) + " " + TextLine.PrefixText(more);
    }
  }

  /** The variable parts of a text line. */
  datatype TextParts = TextParts(number: bytes, prefix: bytes, msg: bytes, fields: bytes)

  /** What a reader finds in the text line of a log call. */
  ghost predicate ShowsTextLine(c: Format, e: Record, ts: bytes, baked: seq<bytes>, line: bytes, p: TextParts) {
    && (e.file != [] ==> Integer(p.number) == Some(e.line))
    && ShowsTextPairs(baked, [], " ", p.prefix)
    && ShowsBytes(e.msg, p.msg)
    && (if e.fieldsV != [] then ShowsTextFields(c, e.fieldsV, p.fields)
        else ShowsTextPairs(e.fields, " ", [], p.fields))
    && line == "[" + ts + "] "
               + (if e.level == 0 then "DEBUG" else if e.level == 1 then "INFO" else if e.level == 2 then "WARN"
                  else if e.level == 3 then "ERROR" else "UNKNOWN")
               + " [" + e.logType + "] " + (if e.file == [] then [] else e.file + ":" + p.number + " ")
               + p.prefix + p.msg + p.fields + "\n"
  }

  /** Every text line shows the record. */
  lemma TextLineReads(c: Format, e: Record, ts: bytes, baked: seq<bytes>) returns (p: TextParts)
    requires e.textPrefix == TextLine.PrefixText(baked)
    ensures ShowsTextLine(c, e, ts, baked, TextLine.Line(c, e, ts), p)
  {
    hide TextLine.PrefixText, TextLine.Escape, TextLine.TypedText, TextLine.StringText, IntText, Integer;
    hide ShowsTextPairs, ShowsTextFields, ShowsBytes;
    IntegerOf(e.line);
    PrefixShows(baked);
    BytesShow(e.msg);
    TextFieldsShow(c, e.fieldsV);
    TextPairsShow(e.fields);
    p := TextParts(IntText(e.line), e.textPrefix, TextLine.Escape(e.msg), TextLine.FieldsText(c, e));
  }
}
