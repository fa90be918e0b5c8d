/** formatJSON: every line is one JSON object with the expected members. */
module JsonLine {
  import opened Basics
  import opened Decimal
  import Duration
  import opened JsonString
  import opened Json
  import opened Records
  import opened Utf8

  // -- The expected members ------------------------------------------------------------

  /** Alternating keys and values; a missing last value is empty. */
  function StringMembers(fields: seq<bytes>): seq<Member> {
    if fields == [] then []
    else if |fields| == 1 then [Member(fields[0], String([]))]
    else [Member(fields[0], String(fields[1]))] + StringMembers(fields[2..])
  }

  function DurationNumber(c: Format, d: int64): bytes
    requires c.durationUnit > 0
  {
    if d % c.durationUnit == 0 then IntText(d / c.durationUnit) else c.fractionText(d, c.durationUnit)
  }

  function FieldValue(c: Format, f: Field): Value {
    match f.kind
    case StringType => String(f.str)
    case Int64Type => Number(IntText(AsInt64(f.num)))
    case Uint64Type => Number(Digits(f.num))
    case Float64Type =>
      if IsNaN(f.num) then String("NaN")
      else if f.num == PLUS_INF then String("+Inf")
      else if f.num == MINUS_INF then String("-Inf")
      else Number(c.floatText(f.num))
    case BoolType => Bool(f.num == 1)
    case DurationType =>
      if c.durationUnit > 0 then Number(DurationNumber(c, AsInt64(f.num)))
      else String(Duration.Text(AsInt64(f.num)))
    case ErrorType => String(f.str)
    case UnknownType => Null
  }

  function TypedMembers(c: Format, fields: seq<Field>): seq<Member> {
    if fields == [] then []
    else if IsZero(fields[0]) then TypedMembers(c, fields[1..])
    else [Member(fields[0].key, FieldValue(c, fields[0]))] + TypedMembers(c, fields[1..])
  }

  function Timestamp(c: Format, ts: bytes): Value {
    if c.timestamped then String(ts) else Number(ts)
  }

  function Caller(e: Record): seq<Member> {
    if e.file != [] then [Member("file", String(e.file)), Member("line", Number(IntText(e.line)))] else []
  }

  function Head(c: Format, e: Record, ts: bytes): seq<Member> {
    [Member("ts", Timestamp(c, ts)), Member("level", String(LevelName(e.level))), Member("type", String(e.logType))]
    + Caller(e)
  }

  function FieldsMember(c: Format, e: Record): seq<Member> {
    if e.fieldsV != [] then
      (if TypedMembers(c, e.fieldsV) == [] then [] else [Member("fields", Object(TypedMembers(c, e.fieldsV)))])
    else if e.fields != [] then [Member("fields", Object(StringMembers(e.fields)))]
    else []
  }

  /** The members of the line of e, in order; `baked` are the profile's fields. */
  function Expected(c: Format, e: Record, ts: bytes, baked: seq<bytes>): seq<Member> {
    Head(c, e, ts) + StringMembers(baked) + [Member("msg", String(e.msg))] + FieldsMember(c, e)
  }

  // -- Baked prefixes ---------------------------------------------------------------------

  predicate IsReserved(key: bytes) {
    key == "ts" || key == "level" || key == "type" || key == "msg" || key == "file" || key == "line" || key == "fields"
  }

  /** fields without the pairs whose key is reserved. */
  function Filter(fields: seq<bytes>): seq<bytes> {
    if fields == [] then []
    else
      var n := if |fields| == 1 then 1 else 2;
      (if IsReserved(fields[0]) then [] else fields[..n]) + Filter(fields[n..])
  }

  lemma FilterNext(fields: seq<bytes>, i: nat)
    requires i < |fields|
    ensures var n := if i + 1 < |fields| then i + 2 else i + 1;
            Filter(From(fields, i)) ==
            (if IsReserved(fields[i]) then [] else fields[i..n]) + Filter(From(fields, i + 2))
  {
    FromNext(fields, i);
    hide IsReserved;
    var n := if i + 1 < |fields| then i + 2 else i + 1;
    var rest := From(fields, i);
    assert rest[..n - i] == fields[i..n];
    assert rest[n - i..] == From(fields, i + 2);
  }

  /** filterReservedFields: the given list is returned when nothing is removed. */
  method FilterReservedFields(fields: seq<bytes>) returns (r: seq<bytes>)
    ensures r == Filter(fields)
  {
    hide Filter, IsReserved;
    var out: Option<seq<bytes>> := None;
    var i := 0;
    assert From(fields, 0) == fields;
    while i < |fields|
      invariant out.None? ==> fields[..if i < |fields| then i else |fields|] + Filter(From(fields, i)) == Filter(fields)
      invariant out.Some? ==> out.value + Filter(From(fields, i)) == Filter(fields)
    {
      FilterNext(fields, i);
      if IsReserved(fields[i]) {
        if out.None? {
          out := Some(fields[..i]);
        }
        assert [] + Filter(From(fields, i + 2)) == Filter(From(fields, i + 2));
      } else {
        ghost var n := if i + 1 < |fields| then i + 2 else i + 1;
        ghost var before := if out.Some? then out.value else fields[..i];
        Assoc(before, fields[i..n], Filter(From(fields, i + 2)));
        if out.Some? {
          var o := out.value + [fields[i]];
          if i + 1 < |fields| {
            o := o + [fields[i + 1]];
          }
          assert o == before + fields[i..n];
          out := Some(o);
        } else {
          assert fields[..n] == fields[..i] + fields[i..n];
        }
      }
      i := i + 2;
    }
    FilterNothing();
    if out.None? {
      assert fields[..|fields|] + [] == fields;
      return fields;
    }
    assert out.value + [] == out.value;
    return out.value;
  }

  lemma FilterNothing()
    ensures Filter([]) == []
  {
  }

  lemma StringMembersNext(fields: seq<bytes>, i: nat)
    requires i < |fields|
    ensures var m := Member(fields[i], String(if i + 1 < |fields| then fields[i + 1] else []));
            && StringMembers(From(fields, i)) == [m] + StringMembers(From(fields, i + 2))
            && EmitMember(m) == Quote(m.key) + ":" + Quote(m.value.text)
  {
    hide Quote;
    FromNext(fields, i);
    var m := Member(fields[i], String(if i + 1 < |fields| then fields[i + 1] else []));
    assert [m] + [] == [m];
  }

  lemma EmptyQuote()
    ensures Quote([]) == "\"\""
  {
    QuoteSafe([]);
  }

  /** buildJSONPrefix: each pair as a member preceded by a comma. */
  method BuildJSONPrefix(fields: seq<bytes>) returns (r: bytes)
    ensures r == EmitTail(StringMembers(fields))
  {
    hide StringMembers, EmitMember, Quote, EmitTail;
    r := [];
    var i := 0;
    assert From(fields, 0) == fields;
    assert r + EmitTail(StringMembers(fields)) == EmitTail(StringMembers(fields));
    while i < |fields|
      invariant r + EmitTail(StringMembers(From(fields, i))) == EmitTail(StringMembers(fields))
    {
      StringMembersNext(fields, i);
      ghost var m := StringMembers(From(fields, i))[0];
      ghost var rest := StringMembers(From(fields, i + 2));
      ghost var before := r;
      EmitTailFirst(m, rest);
      r := r + [','];
      r := AppendJSONString(r, fields[i]);
      r := r + [':'];
      if i + 1 < |fields| {
        r := AppendJSONString(r, fields[i + 1]);
      } else {
        EmptyQuote();
        r := r + "\"\"";
      }
      assert r == before + ("," + EmitMember(m));
      Assoc(before, "," + EmitMember(m), EmitTail(rest));
      i := i + 2;
    }
    assert StringMembers([]) == [] && EmitTail([]) == [] by { NoMembers(); }
    assert r + [] == r;
  }

  lemma NoMembers()
    ensures StringMembers([]) == [] && EmitTail([]) == [] && EmitList([]) == []
  {
  }

  lemma EmitTailFirst(m: Member, rest: seq<Member>)
    ensures EmitTail([m] + rest) == "," + EmitMember(m) + EmitTail(rest)
    ensures EmitList([m] + rest) == EmitMember(m) + EmitTail(rest)
  {
    hide EmitMember;
    assert ([m] + rest)[1..] == rest;
  }

  /** appendFieldsJSON. */
  method AppendFieldsJSON(buf: bytes, fields: seq<bytes>) returns (r: bytes)
    ensures r == buf + EmitList(StringMembers(fields))
  {
    hide StringMembers, EmitMember, Quote, EmitTail, EmitList;
    r := buf;
    var i := 0;
    assert From(fields, 0) == fields;
    while i < |fields|
      invariant i == 0 ==> r == buf
      invariant i > 0 ==> r + EmitTail(StringMembers(From(fields, i))) == buf + EmitList(StringMembers(fields))
    {
      StringMembersNext(fields, i);
      ghost var m := StringMembers(From(fields, i))[0];
      ghost var rest := StringMembers(From(fields, i + 2));
      ghost var before := r;
      EmitTailFirst(m, rest);
      if i > 0 {
        r := r + [','];
      }
      ghost var comma := r;
      r := AppendJSONString(r, fields[i]);
      r := r + [':'];
      if i + 1 < |fields| {
        r := AppendJSONString(r, fields[i + 1]);
      } else {
        EmptyQuote();
        r := r + "\"\"";
      }
      assert r == comma + EmitMember(m);
      if i > 0 {
        assert r == before + ("," + EmitMember(m));
        Assoc(before, "," + EmitMember(m), EmitTail(rest));
      } else {
        Assoc(buf, EmitMember(m), EmitTail(rest));
      }
      i := i + 2;
    }
    NoMembers();
    assert |r| == 0 ==> r == [];
    assert r + [] == r && buf + [] == buf;
  }

  // -- Typed values -------------------------------------------------------------------------

  lemma DurationTextIsRaw(d: int64)
    ensures Quote(Duration.Text(d)) == ['"'] + Duration.Text(d) + ['"']
  {
    hide Duration.AbsText;
    var text := Duration.AbsText(Duration.Abs(d));
    DurationAbsRaw(Duration.Abs(d));
    if d < 0 {
      assert AllSafe("-");
      EscapeSafePrefix("-", text);
    }
  }

  lemma DigitsSafe(n: nat)
    ensures AllSafe(Digits(n))
  {
    DigitsAreDigits(n);
  }

  lemma DurationAbsRaw(ns: nat)
    ensures Escape(Duration.AbsText(ns)) == Duration.AbsText(ns)
  {
    hide Escape;
    if Duration.MICROSECOND <= ns < Duration.MILLISECOND {
      DigitsSafe(ns / Duration.MICROSECOND);
      EscapeSafePrefix(Digits(ns / Duration.MICROSECOND), Duration.MICROSECONDS);
      MicroRaw();
    } else {
      DurationAbsSafe(ns);
      EscapeSafePrefix(Duration.AbsText(ns), []);
      assert Duration.AbsText(ns) + [] == Duration.AbsText(ns);
      EscapeNothing();
    }
  }

  lemma MicroRaw()
    ensures Escape(Duration.MICROSECONDS) == Duration.MICROSECONDS
  {
    var s := Duration.MICROSECONDS;
    assert SequenceLength(s) == 2 && s[2..] == "s" && s[..2] + "s" == s;
    assert "s"[1..] == [] && Escape("s") == EscapeAscii('s') + [] == "s";
  }

  lemma DurationAbsSafe(ns: nat)
    requires ns < Duration.MICROSECOND || ns >= Duration.MILLISECOND
    ensures AllSafe(Duration.AbsText(ns))
  {
    hide Digits, Duration.LongText;
    if ns < Duration.SECOND {
      DigitsSafe(ns);
      DigitsSafe(ns / Duration.MILLISECOND);
    } else if ns < Duration.MINUTE {
      DigitsSafe(ns / Duration.SECOND);
    } else {
      LongTextSafe(ns);
    }
  }

  lemma LongTextSafe(ns: nat)
    ensures AllSafe(Duration.LongText(ns))
  {
    hide Duration.Component;
    ComponentSafe(ns / Duration.HOUR, 'h');
    ComponentSafe(ns % Duration.HOUR / Duration.MINUTE, 'm');
    ComponentSafe(ns % Duration.MINUTE / Duration.SECOND, 's');
  }

  lemma ComponentSafe(value: nat, unit: byte)
    requires JsonSafe(unit)
    ensures AllSafe(Duration.Component(value, [unit]))
  {
    hide Digits;
    DigitsSafe(value);
  }

  /** appendDurationNumber. */
  method AppendDurationNumber(buf: bytes, c: Format, d: int64) returns (r: bytes)
    requires c.durationUnit > 0
    ensures r == buf + DurationNumber(c, d)
  {
    if d % c.durationUnit == 0 {
      return buf + IntText(d / c.durationUnit);
    }
    return buf + c.fractionText(d, c.durationUnit);
  }

  /** appendFieldValueJSON. */
  method AppendFieldValueJSON(buf: bytes, c: Format, f: Field) returns (r: bytes)
    ensures r == buf + Emit(FieldValue(c, f))
  {
    hide Quote, IntText, Digits, Duration.Text;
    match f.kind {
      case StringType => r := AppendJSONString(buf, f.str);
      case Int64Type => r := buf + IntText(AsInt64(f.num));
      case Uint64Type => r := buf + Digits(f.num);
      case Float64Type =>
        QuoteSafe("NaN");
        QuoteSafe("+Inf");
        QuoteSafe("-Inf");
        if IsNaN(f.num) {
          r := buf + "\"NaN\"";
        } else if f.num == PLUS_INF {
          r := buf + "\"+Inf\"";
        } else if f.num == MINUS_INF {
          r := buf + "\"-Inf\"";
        } else {
          r := buf + c.floatText(f.num);
        }
      case BoolType =>
        if f.num == 1 {
          r := buf + "true";
        } else {
          r := buf + "false";
        }
      case DurationType =>
        if c.durationUnit > 0 {
          r := AppendDurationNumber(buf, c, AsInt64(f.num));
        } else {
          DurationTextIsRaw(AsInt64(f.num));
          r := buf + ['"'];
          r := Duration.AppendDuration(r, AsInt64(f.num));
          r := r + ['"'];
        }
      case ErrorType => r := AppendJSONString(buf, f.str);
      case UnknownType => r := buf + "null";
    }
  }

  lemma TypedNext(c: Format, fields: seq<Field>, i: nat)
    requires i < |fields|
    ensures TypedMembers(c, fields[i..]) ==
            (if IsZero(fields[i]) then [] else [Member(fields[i].key, FieldValue(c, fields[i]))])
            + TypedMembers(c, fields[i + 1..])
  {
    hide IsZero, FieldValue;
    assert fields[i..][1..] == fields[i + 1..];
  }

  /** appendTypedFieldsJSONUnit: zero fields are skipped, and no comma is left
      behind by them. */
  method AppendTypedFieldsJSON(buf: bytes, c: Format, fields: seq<Field>) returns (r: bytes)
    ensures r == buf + EmitList(TypedMembers(c, fields))
  {
    hide TypedMembers, EmitMember, Quote, EmitTail, EmitList, FieldValue;
    r := buf;
    var first := true;
    assert fields[0..] == fields;
    for i := 0 to |fields|
      invariant first ==> r == buf && TypedMembers(c, fields[i..]) == TypedMembers(c, fields)
      invariant !first ==> r + EmitTail(TypedMembers(c, fields[i..])) == buf + EmitList(TypedMembers(c, fields))
    {
      TypedNext(c, fields, i);
      var f := fields[i];
      ghost var rest := TypedMembers(c, fields[i + 1..]);
      if f.key == [] && f.kind.StringType? && f.str == [] {
        assert [] + rest == rest;
        continue;
      }
      ghost var m := Member(f.key, FieldValue(c, f));
      ghost var before := r;
      ghost var wasFirst := first;
      EmitTailFirst(m, rest);
      if !first {
        r := r + [','];
      }
      first := false;
      ghost var comma := r;
      r := AppendJSONString(r, f.key);
      r := r + [':'];
      r := AppendFieldValueJSON(r, c, f);
      assert r == comma + EmitMember(m) by { MemberText(m); }
      if wasFirst {
        Assoc(buf, EmitMember(m), EmitTail(rest));
      } else {
        assert r == before + ("," + EmitMember(m));
        Assoc(before, "," + EmitMember(m), EmitTail(rest));
      }
    }
    assert fields[|fields|..] == [];
    NoTyped(c);
    NoMembers();
    assert r + [] == r && buf + [] == buf;
  }

  lemma NoTyped(c: Format)
    ensures TypedMembers(c, []) == []
  {
  }

  lemma MemberText(m: Member)
    ensures EmitMember(m) == Quote(m.key) + ":" + Emit(m.value)
  {
  }

  // -- The line -----------------------------------------------------------------------------

  /** The line of e. */
  function Line(c: Format, e: Record, ts: bytes, baked: seq<bytes>): bytes {
    Emit(Object(Expected(c, e, ts, baked))) + "\n"
  }

  /** An object whose closing brace is still to come. */
  function Opened(members: seq<Member>): bytes {
    "{" + EmitList(members)
  }

  lemma OpenedMore(members: seq<Member>, more: seq<Member>)
    requires members != []
    ensures Opened(members + more) == Opened(members) + EmitTail(more)
  {
    hide EmitList, EmitTail;
    EmitListConcat(members, more);
    Assoc("{", EmitList(members), EmitTail(more));
  }

  /** Appending `,"key":` and a value appends one member. */
  lemma OpenedMember(buf: bytes, members: seq<Member>, key: bytes, value: Value)
    requires members != [] && AllSafe(key)
    ensures buf + Opened(members) + (",\"" + key + "\":") + Emit(value) == buf + Opened(members + [Member(key, value)])
  {
    hide EmitList, EmitTail, Emit, Opened;
    var m := Member(key, value);
    OpenedMore(members, [m]);
    EmitTailOne(m);
    MemberText(m);
    QuoteSafe(key);
    hide Quote, EmitMember;
    assert (",\"" + key + "\":") + Emit(value) == "," + EmitMember(m);
    Assoc(buf, Opened(members), "," + EmitMember(m));
    Assoc(buf + Opened(members), ",\"" + key + "\":", Emit(value));
  }

  lemma OpenedFirst(buf: bytes, value: Value)
    ensures buf + "{\"ts\":" + Emit(value) == buf + Opened([Member("ts", value)])
  {
    var m := Member("ts", value);
    EmitTailFirst(m, []);
    assert [m] + [] == [m];
    QuoteSafe("ts");
    MemberText(m);
    NoMembers();
    hide Emit, Quote, EmitMember, EmitList, EmitTail;
    assert EmitMember(m) + [] == EmitMember(m);
    assert "{\"ts\":" + Emit(value) == "{" + EmitMember(m);
    Assoc(buf, "{\"ts\":", Emit(value));
  }

  /** A timestamp the formatter may copy as it is: text that needs no escaping,
      or a number. */
  predicate TimestampOk(c: Format, ts: bytes) {
    if c.timestamped then Escape(ts) == ts else IsNumber(ts)
  }

  /** The opening brace and "ts". */
  method AppendTimestamp(buf: bytes, c: Format, ts: bytes) returns (r: bytes)
    requires TimestampOk(c, ts)
    ensures r == buf + Opened([Member("ts", Timestamp(c, ts))])
  {
    hide Opened, Quote, IsNumber;
    r := buf + "{\"ts\":";
    OpenedFirst(buf, Timestamp(c, ts));
    if c.timestamped {
      QuoteUnescaped(ts);
      r := r + ['"'];
      r := r + ts;
      r := r + ['"'];
      assert r == buf + "{\"ts\":" + (['"'] + ts + ['"']);
    } else {
      r := r + ts;
    }
  }

  /** "file" and "line", when the caller is known. */
  method AppendCaller(buf: bytes, e: Record, ghost members: seq<Member>, ghost start: bytes) returns (r: bytes)
    requires members != [] && buf == start + Opened(members)
    ensures r == start + Opened(members + Caller(e))
  {
    hide Opened, Quote, IntText;
    r := buf;
    if e.file != [] {
      ghost var ms := members;
      OpenedMember(start, ms, "file", String(e.file));
      r := r + ",\"file\":";
      r := AppendJSONString(r, e.file);
      ms := ms + [Member("file", String(e.file))];
      OpenedMember(start, ms, "line", Number(IntText(e.line)));
      r := r + ",\"line\":";
      r := r + IntText(e.line);
      assert ms + [Member("line", Number(IntText(e.line)))] == members + Caller(e);
    } else {
      assert members + [] == members;
    }
  }

  /** The members up to "type" and the caller. */
  method AppendHead(buf: bytes, c: Format, e: Record, ts: bytes) returns (r: bytes)
    requires TimestampOk(c, ts)
    ensures r == buf + Opened(Head(c, e, ts))
  {
    hide Opened, Quote, Caller, Timestamp, LevelName;
    r := AppendTimestamp(buf, c, ts);
    ghost var ms := [Member("ts", Timestamp(c, ts))];
    var name := LevelName(e.level);
    OpenedMember(buf, ms, "level", String(name));
    LevelSafe(e.level);
    QuoteSafe(name);
    ghost var before := r;
    r := r + ",\"level\":\"";
    r := r + name;
    r := r + ['"'];
    LevelFragment(before, name);
    ms := ms + [Member("level", String(name))];
    OpenedMember(buf, ms, "type", String(e.logType));
    r := r + ",\"type\":";
    r := AppendJSONString(r, e.logType);
    ms := ms + [Member("type", String(e.logType))];
    r := AppendCaller(r, e, ms, buf);
    assert ms + Caller(e) == Head(c, e, ts);
  }

  lemma LevelSafe(level: nat)
    ensures AllSafe(LevelName(level))
  {
  }

  lemma LevelFragment(before: bytes, name: bytes)
    ensures before + ",\"level\":\"" + name + ['"'] ==
            before + (",\"" + "level" + "\":") + (['"'] + name + ['"'])
  {
    assert ",\"" + "level" + "\":" == ",\"level\":";
    assert ",\"level\":\"" == ",\"level\":" + ['"'];
  }

  /** The "fields" member, or nothing when every typed field is zero. */
  method AppendFieldsMember(buf: bytes, c: Format, e: Record, ghost members: seq<Member>, ghost start: bytes)
    returns (r: bytes)
    requires members != [] && buf == start + Opened(members)
    ensures r == start + Opened(members + FieldsMember(c, e))
  {
    hide Opened, TypedMembers, StringMembers, EmitList;
    r := buf;
    if |e.fieldsV| > 0 {
      var fieldsStart := |r|;
      ghost var typed := TypedMembers(c, e.fieldsV);
      OpenedMember(start, members, "fields", Object(typed));
      r := r + ",\"fields\":{";
      r := AppendTypedFieldsJSON(r, c, e.fieldsV);
      EmptyList(typed);
      if |r| == fieldsStart + |",\"fields\":{"| {
        r := r[..fieldsStart];
        assert r == buf && members + [] == members;
      } else {
        r := r + ['}'];
        FieldsFragment(buf, EmitList(typed));
      }
    } else if |e.fields| > 0 {
      OpenedMember(start, members, "fields", Object(StringMembers(e.fields)));
      r := r + ",\"fields\":{";
      r := AppendFieldsJSON(r, e.fields);
      r := r + ['}'];
      FieldsFragment(buf, EmitList(StringMembers(e.fields)));
    } else {
      assert members + [] == members;
    }
  }

  lemma EmptyList(members: seq<Member>)
    ensures EmitList(members) == [] <==> members == []
  {
    if members != [] {
      MemberOpens(members[0], []);
    }
  }

  lemma FieldsFragment(buf: bytes, list: bytes)
    ensures buf + ",\"fields\":{" + list + ['}'] == buf + (",\"" + "fields" + "\":") + ("{" + list + "}")
  {
    assert ",\"" + "fields" + "\":" == ",\"fields\":";
    assert ",\"fields\":{" == ",\"fields\":" + "{";
  }

  /** formatJSON: for every entry, prefix, field list and buffer, the line
      appended is the expected object and a newline. */
  method FormatJSON(buf: bytes, c: Format, e: Record, ts: bytes, ghost baked: seq<bytes>) returns (r: bytes)
    requires TimestampOk(c, ts) && e.jsonPrefix == EmitTail(StringMembers(baked))
    ensures r == buf + Line(c, e, ts, baked)
  {
    hide Opened, Quote, EmitTail, StringMembers, Head, FieldsMember, EmitList;
    r := AppendHead(buf, c, e, ts);
    ghost var head := Head(c, e, ts);
    assert head != [] by { HeadNotEmpty(c, e, ts); }
    ghost var own := StringMembers(baked);
    ghost var before := r;
    if |e.jsonPrefix| > 0 {
      r := r + e.jsonPrefix;
    } else {
      assert r + e.jsonPrefix == r;
    }
    OpenedMore(head, own);
    Assoc(buf, Opened(head), e.jsonPrefix);
    ghost var ms := head + own;
    OpenedMember(buf, ms, "msg", String(e.msg));
    r := r + ",\"msg\":";
    r := AppendJSONString(r, e.msg);
    ms := ms + [Member("msg", String(e.msg))];
    r := AppendFieldsMember(r, c, e, ms, buf);
    ms := ms + FieldsMember(c, e);
    assert ms == Expected(c, e, ts, baked);
    r := r + "}\n";
    CloseObject(buf, ms);
  }

  lemma HeadNotEmpty(c: Format, e: Record, ts: bytes)
    ensures Head(c, e, ts) != []
  {
  }

  lemma CloseObject(buf: bytes, members: seq<Member>)
    ensures buf + Opened(members) + "}\n" == buf + (Emit(Object(members)) + "\n")
  {
    hide EmitList;
    assert Emit(Object(members)) + "\n" == Opened(members) + "}\n";
    Assoc(buf, Opened(members), "}\n");
  }

  // -- The line is well formed ------------------------------------------------------------------

  lemma {:induction false} StringMembersOk(fields: seq<bytes>)
    ensures AllWellFormed(StringMembers(fields))
  {
    if |fields| == 1 {
      WellFormedOne(StringMembers(fields)[0]);
    } else if |fields| > 1 {
      StringMembersOk(fields[2..]);
      assert StringMembers(fields)[1..] == StringMembers(fields[2..]);
    }
  }

  lemma FieldValueOk(c: Format, f: Field)
    requires c.Valid()
    ensures WellFormed(FieldValue(c, f))
  {
    hide IsNumber, IntText, Digits;
    DigitsAreNumber(f.num);
    IntIsNumber(AsInt64(f.num));
    if c.durationUnit > 0 {
      IntIsNumber(AsInt64(f.num) / c.durationUnit);
    }
  }

  lemma {:induction false} TypedMembersOk(c: Format, fields: seq<Field>)
    requires c.Valid()
    ensures AllWellFormed(TypedMembers(c, fields))
  {
    if fields != [] {
      TypedMembersOk(c, fields[1..]);
      FieldValueOk(c, fields[0]);
      hide WellFormed, FieldValue;
      if !IsZero(fields[0]) {
        assert TypedMembers(c, fields)[1..] == TypedMembers(c, fields[1..]);
      }
    }
  }

  lemma {:induction false} WellFormedConcat(a: seq<Member>, b: seq<Member>)
    requires AllWellFormed(a) && AllWellFormed(b)
    ensures AllWellFormed(a + b)
  {
    hide WellFormed;
    if a == [] {
      assert a + b == b;
    } else {
      WellFormedConcat(a[1..], b);
      assert (a + b)[1..] == a[1..] + b;
    }
  }

  lemma WellFormedOne(m: Member)
    requires WellFormed(m.value)
    ensures AllWellFormed([m])
  {
    assert [m][1..] == [];
  }

  lemma HeadOk(c: Format, e: Record, ts: bytes)
    requires TimestampOk(c, ts)
    ensures AllWellFormed(Head(c, e, ts))
  {
    hide IsNumber, IntText, AllWellFormed, AllSafe;
    IntIsNumber(e.line);
    var m1, m2 := Member("ts", Timestamp(c, ts)), Member("level", String(LevelName(e.level)));
    var m3, m4 := Member("type", String(e.logType)), Member("file", String(e.file));
    var m5 := Member("line", Number(IntText(e.line)));
    WellFormedOne(m1);
    WellFormedOne(m2);
    WellFormedOne(m3);
    WellFormedOne(m4);
    WellFormedOne(m5);
    WellFormedConcat([m1], [m2]);
    WellFormedConcat([m1] + [m2], [m3]);
    WellFormedConcat([m4], [m5]);
    assert [m1, m2, m3] == [m1] + [m2] + [m3] && [m4, m5] == [m4] + [m5];
    if e.file != [] {
      WellFormedConcat([m1, m2, m3], [m4, m5]);
    } else {
      assert Head(c, e, ts) == [m1, m2, m3];
    }
  }

  lemma ExpectedOk(c: Format, e: Record, ts: bytes, baked: seq<bytes>)
    requires c.Valid() && TimestampOk(c, ts)
    ensures AllWellFormed(Expected(c, e, ts, baked))
  {
    hide AllWellFormed, Head, StringMembers, TypedMembers;
    HeadOk(c, e, ts);
    StringMembersOk(baked);
    StringMembersOk(e.fields);
    TypedMembersOk(c, e.fieldsV);
    WellFormedOne(Member("msg", String(e.msg)));
    assert WellFormed(Object(StringMembers(e.fields))) && WellFormed(Object(TypedMembers(c, e.fieldsV)));
    WellFormedOne(Member("fields", Object(StringMembers(e.fields))));
    WellFormedOne(Member("fields", Object(TypedMembers(c, e.fieldsV))));
    assert AllWellFormed([]) by { NoneIllFormed(); }
    WellFormedConcat(Head(c, e, ts), StringMembers(baked));
    WellFormedConcat(Head(c, e, ts) + StringMembers(baked), [Member("msg", String(e.msg))]);
    WellFormedConcat(Head(c, e, ts) + StringMembers(baked) + [Member("msg", String(e.msg))], FieldsMember(c, e));
  }

  lemma NoneIllFormed()
    ensures AllWellFormed([])
  {
  }

  /** Every line parses back to exactly the expected members, in order, and a
      newline; strings come back with invalid UTF-8 replaced. It contains no
      other newline or control character. */
  lemma LineParses(c: Format, e: Record, ts: bytes, baked: seq<bytes>)
    requires c.Valid() && TimestampOk(c, ts)
    ensures ParseValue(Line(c, e, ts, baked)) == Some((Object(CleanAll(Expected(c, e, ts, baked))), "\n"))
    ensures var line := Line(c, e, ts, baked);
            line[|line| - 1] == '\n' && NoControls(line[..|line| - 1])
  {
    hide Expected, Emit, ParseValue, CleanAll, WellFormed;
    var v := Object(Expected(c, e, ts, baked));
    ExpectedOk(c, e, ts, baked);
    assert WellFormed(v) by { ObjectOk(Expected(c, e, ts, baked)); }
    ParseEmit(v, "\n");
    assert Clean(v) == Object(CleanAll(Expected(c, e, ts, baked)));
    EmitClean(v);
    var line := Line(c, e, ts, baked);
    assert line[..|line| - 1] == Emit(v);
  }

  lemma ObjectOk(members: seq<Member>)
    requires AllWellFormed(members)
    ensures WellFormed(Object(members))
  {
  }

  // -- Keys written once --------------------------------------------------------------------------

  /** How often a key occurs among the members. */
  function KeyCount(members: seq<Member>, key: bytes): nat {
    if members == [] then 0
    else (if members[0].key == key then 1 else 0) + KeyCount(members[1..], key)
  }

  lemma {:induction false} KeyCountConcat(a: seq<Member>, b: seq<Member>, key: bytes)
    ensures KeyCount(a + b, key) == KeyCount(a, key) + KeyCount(b, key)
  {
    if a == [] {
      assert a + b == b;
    } else {
      KeyCountConcat(a[1..], b, key);
      assert (a + b)[1..] == a[1..] + b;
    }
  }

  lemma {:induction false} CleanConcat(a: seq<Member>, b: seq<Member>)
    ensures CleanAll(a + b) == CleanAll(a) + CleanAll(b)
  {
    hide Clean;
    if a == [] {
      assert a + b == b;
    } else {
      CleanConcat(a[1..], b);
      CleanFirst(a);
      CleanFirst(a + b);
      hide CleanAll;
      assert (a + b)[..1] == a[..1] && (a + b)[1..] == a[1..] + b;
      Assoc(CleanAll(a[..1]), CleanAll(a[1..]), CleanAll(b));
    }
  }

  lemma CleanFirst(a: seq<Member>)
    requires a != []
    ensures CleanAll(a) == CleanAll(a[..1]) + CleanAll(a[1..])
  {
    hide Clean;
  }

  /** Sanitising cannot turn another key into an ASCII key. */
  lemma {:induction false} SanitizeAscii(s: bytes, key: bytes)
    requires AllSafe(key)
    ensures Sanitize(s) == key <==> s == key
  {
    if key == [] {
      assert s != [] ==> Sanitize(s) != [];
    } else if s == [] {
    } else {
      assert JsonSafe(key[0]);
      var n := SequenceLength(s);
      if n == 1 {
        SanitizeAscii(s[1..], key[1..]);
        assert Sanitize(s)[1..] == Sanitize(s[1..]);
        assert s == [s[0]] + s[1..] && key == [key[0]] + key[1..];
      } else if n == 0 {
        assert Sanitize(s)[0] == REPLACEMENT[0];
        if s[0] as int < 0x80 {
        }
        FirstInvalid(s);
      } else {
        assert Sanitize(s)[0] == s[0] && s[0] as int >= 0x80;
      }
    }
  }

  lemma FirstInvalid(s: bytes)
    requires s != [] && SequenceLength(s) == 0
    ensures s[0] as int >= 0x80
  {
  }

  lemma {:induction false} FilteredHasNone(fields: seq<bytes>, key: bytes)
    requires AllSafe(key) && IsReserved(key)
    ensures KeyCount(CleanAll(StringMembers(Filter(fields))), key) == 0
  {
    hide Sanitize, IsReserved;
    if fields != [] {
      var n := if |fields| == 1 then 1 else 2;
      FilteredHasNone(fields[n..], key);
      var rest := Filter(fields[n..]);
      if IsReserved(fields[0]) {
        assert Filter(fields) == [] + rest == rest;
      } else {
        var all := Filter(fields);
        assert all == fields[..n] + rest;
        SanitizeAscii(fields[0], key);
        if n == 2 {
          assert all[2..] == rest && all[0] == fields[0] && all[1] == fields[1];
          var m := Member(fields[0], String(fields[1]));
          assert StringMembers(all) == [m] + StringMembers(rest);
          CountFirst(m, StringMembers(rest), key);
        } else {
          assert fields[1..] == [] && rest == [] && all == [fields[0]];
          CountFirst(Member(fields[0], String([])), [], key);
          assert [Member(fields[0], String([]))] + [] == StringMembers(all);
        }
      }
    }
  }

  lemma CountFirst(m: Member, rest: seq<Member>, key: bytes)
    ensures KeyCount(CleanAll([m] + rest), key) ==
            (if Sanitize(m.key) == key then 1 else 0) + KeyCount(CleanAll(rest), key)
  {
    assert ([m] + rest)[1..] == rest;
    var first := Member(Sanitize(m.key), Clean(m.value));
    assert CleanAll([m] + rest) == [first] + CleanAll(rest);
    assert ([first] + CleanAll(rest))[1..] == CleanAll(rest);
  }

  lemma KeysOfFixed(c: Format, e: Record, ts: bytes, key: bytes)
    requires key == "ts" || key == "level" || key == "type" || key == "msg" || key == "file" || key == "line"
             || key == "fields"
    ensures KeyCount(CleanAll(Head(c, e, ts)), key) ==
            if key == "msg" || key == "fields" || ((key == "file" || key == "line") && e.file == []) then 0 else 1
    ensures KeyCount(CleanAll([Member("msg", String(e.msg))]), key) == if key == "msg" then 1 else 0
    ensures KeyCount(CleanAll(FieldsMember(c, e)), key) == if key == "fields" then |FieldsMember(c, e)| else 0
  {
    hide Sanitize, IntText, LevelName, TypedMembers, StringMembers, Clean, AllSafe, KeyCount, CleanAll;
    ReservedSafe(key);
    SanitizeAscii("ts", key);
    SanitizeAscii("level", key);
    SanitizeAscii("type", key);
    SanitizeAscii("file", key);
    SanitizeAscii("line", key);
    SanitizeAscii("msg", key);
    SanitizeAscii("fields", key);
    var m1, m2 := Member("ts", Timestamp(c, ts)), Member("level", String(LevelName(e.level)));
    var m3, m4 := Member("type", String(e.logType)), Member("file", String(e.file));
    var m5 := Member("line", Number(IntText(e.line)));
    var caller := if e.file != [] then [m4, m5] else [];
    NoKeys(key);
    CountFirst(m5, [], key);
    CountFirst(m4, [m5], key);
    assert [m5] + [] == [m5] && [m4] + [m5] == [m4, m5];
    CountFirst(m3, caller, key);
    CountFirst(m2, [m3] + caller, key);
    CountFirst(m1, [m2] + ([m3] + caller), key);
    assert Head(c, e, ts) == [m1] + ([m2] + ([m3] + caller));
    var msg := Member("msg", String(e.msg));
    CountFirst(msg, [], key);
    assert [msg] + [] == [msg];
    if FieldsMember(c, e) != [] {
      CountFirst(FieldsMember(c, e)[0], [], key);
      assert [FieldsMember(c, e)[0]] + [] == FieldsMember(c, e);
    }
  }

  lemma NoKeys(key: bytes)
    ensures KeyCount(CleanAll([]), key) == 0
  {
  }

  lemma ReservedSafe(key: bytes)
    requires IsReserved(key)
    ensures AllSafe(key)
  {
  }

  /** In the parsed line ts, level, type and msg occur exactly once at the top
      level, file and line once with a caller and not at all without, fields at
      most once: the profile's own fields never collide with them. */
  lemma ReservedOnce(c: Format, e: Record, ts: bytes, raw: seq<bytes>, key: bytes)
    requires key == "ts" || key == "level" || key == "type" || key == "msg" || key == "file" || key == "line"
             || key == "fields"
    ensures var count := KeyCount(CleanAll(Expected(c, e, ts, Filter(raw))), key);
            if key == "fields" then count == |FieldsMember(c, e)|
            else if key == "file" || key == "line" then count == (if e.file == [] then 0 else 1)
            else count == 1
  {
    hide Filter, StringMembers, CleanAll, KeyCount, Head, FieldsMember, AllSafe;
    var baked := StringMembers(Filter(raw));
    var head, msg, fields := Head(c, e, ts), [Member("msg", String(e.msg))], FieldsMember(c, e);
    CleanConcat(head + baked + msg, fields);
    CleanConcat(head + baked, msg);
    CleanConcat(head, baked);
    KeyCountConcat(CleanAll(head) + CleanAll(baked) + CleanAll(msg), CleanAll(fields), key);
    KeyCountConcat(CleanAll(head) + CleanAll(baked), CleanAll(msg), key);
    KeyCountConcat(CleanAll(head), CleanAll(baked), key);
    ReservedSafe(key);
    FilteredHasNone(raw, key);
    KeysOfFixed(c, e, ts, key);
  }

  /** A member whose key no other part of the line uses. */
  predicate Unreserved(m: Member) {
    m.key != "ts" && m.key != "level" && m.key != "type" && m.key != "msg" && m.key != "file" && m.key != "line"
    && m.key != "fields"
  }

  function Only(p: Member -> bool, ms: seq<Member>): seq<Member> {
    if ms == [] then [] else (if p(ms[0]) then [ms[0]] else []) + Only(p, ms[1..])
  }

  /** Nothing else is removed: the static fields that remain are those with
      another key, each with its value, in their order. */
  lemma {:induction false} FilterKeeps(fields: seq<bytes>)
    ensures StringMembers(Filter(fields)) == Only(Unreserved, StringMembers(fields))
    decreases |fields|
  {
    if fields != [] {
      var n := if |fields| == 1 then 1 else 2;
      var m := Member(fields[0], String(if n == 2 then fields[1] else []));
      FilterKeeps(fields[n..]);
      MembersFirst(fields);
      var rest := StringMembers(fields[n..]);
      assert ([m] + rest)[1..] == rest;
      if IsReserved(fields[0]) {
        assert Filter(fields) == Filter(fields[n..]);
      } else {
        hide IsReserved, Only;
        var all := Filter(fields);
        assert all == fields[..n] + Filter(fields[n..]);
        assert n == 1 ==> fields[1..] == [] && Filter([]) == [];
        assert all != [] && (n == 2 ==> |all| > 1 && all[1] == fields[1] && all[2..] == Filter(fields[n..]));
        MembersFirst(all);
      }
    }
  }

  lemma MembersFirst(fields: seq<bytes>)
    requires fields != []
    ensures StringMembers(fields) ==
            [Member(fields[0], String(if |fields| > 1 then fields[1] else []))]
            + StringMembers(if |fields| > 1 then fields[2..] else [])
  {
  }
}
