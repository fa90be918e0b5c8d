/** The slog adapter: groups are flattened into dotted keys, and handlers carry
    the attributes and the group that were added to them. */
module Slog {
  import opened Basics
  import opened Records
  import Decimal
  import DurationText = Duration
  import Json
  import JsonLine
  import Reading
  import Utf8

  /** A slog.Value. Times and values of any other kind are given by their text;
      Valuer is a LogValuer with the value it stands for. */
  datatype Value =
    | Group(attrs: seq<Attr>)
    | Valuer(value: Value)
    | String(text: bytes)
    | Int64(n: int64)
    | Uint64(u: uint64)
    | Float64(floatBits: uint64)
    | Bool(b: bool)
    | Duration(d: int64)
    | Time(rfc3339: bytes)
    | Any(printed: bytes)

  datatype Attr = Attr(key: bytes, value: Value)

  // -- Keys -----------------------------------------------------------------------------

  function NonEmpty(path: seq<bytes>): seq<bytes> {
    if path == [] then [] else NonEmptyHead(path[0]) + NonEmpty(path[1..])
  }

  function NonEmptyHead(segment: bytes): seq<bytes> {
    if segment == [] then [] else [segment]
  }

  function Dotted(segments: seq<bytes>): bytes {
    if segments == [] then []
    else if |segments| == 1 then segments[0]
    else segments[0] + "." + Dotted(segments[1..])
  }

  /** The non-empty segments of a path, joined with dots. */
  function Key(path: seq<bytes>): bytes {
    Dotted(NonEmpty(path))
  }

  lemma {:induction false} NonEmptyConcat(a: seq<bytes>, b: seq<bytes>)
    ensures NonEmpty(a + b) == NonEmpty(a) + NonEmpty(b)
  {
    if a == [] {
      assert a + b == b;
    } else {
      NonEmptyConcat(a[1..], b);
      assert (a + b)[1..] == a[1..] + b && (a + b)[0] == a[0];
      Assoc(NonEmptyHead(a[0]), NonEmpty(a[1..]), NonEmpty(b));
    }
  }

  lemma {:induction false} NonEmptyHas(path: seq<bytes>)
    ensures forall s :: s in NonEmpty(path) ==> s != []
    ensures NonEmpty(path) == [] <==> forall s :: s in path ==> s == []
  {
    if path != [] {
      NonEmptyHas(path[1..]);
      assert forall s :: s in path <==> s == path[0] || s in path[1..];
      if path[0] != [] {
        assert path[0] in path && NonEmpty(path)[0] == path[0];
      } else {
        assert NonEmpty(path) == NonEmpty(path[1..]);
      }
    }
  }

  lemma {:induction false} DottedNest(a: seq<bytes>, b: seq<bytes>)
    requires a != []
    ensures Dotted([Dotted(a)] + b) == Dotted(a + b)
  {
    if |a| == 1 {
      assert [Dotted(a)] + b == a + b;
    } else {
      DottedNest(a[1..], b);
      assert (a + b)[1..] == a[1..] + b;
      var head, tail := a[0] + ".", Dotted(a[1..]);
      if b == [] {
        assert [Dotted(a)] + b == [Dotted(a)] && a + b == a;
      } else {
        assert ([Dotted(a)] + b)[1..] == b && ([tail] + b)[1..] == b;
        Assoc(head, tail, "." + Dotted(b));
        assert Dotted(a) + "." + Dotted(b) == head + (tail + "." + Dotted(b));
      }
    }
  }

  /** A path without a non-empty segment has no key, and only such a path. */
  lemma KeyEmpty(path: seq<bytes>)
    ensures Key(path) == [] <==> forall s :: s in path ==> s == []
  {
    NonEmptyHas(path);
    var segments := NonEmpty(path);
    if segments != [] {
      assert segments[0] in segments;
    }
  }

  /** A key can be built in stages: its first part may be joined before. */
  lemma KeyNest(a: seq<bytes>, b: seq<bytes>)
    ensures Key([Key(a)] + b) == Key(a + b)
  {
    hide Dotted;
    NonEmptyConcat(a, b);
    NonEmptyConcat([Key(a)], b);
    KeyEmpty(a);
    NonEmptyHas(a);
    assert NonEmpty([Key(a)]) == if Key(a) == [] then [] else [Key(a)] by {
      assert [Key(a)][1..] == [];
    }
    if NonEmpty(a) == [] {
      assert NonEmpty([Key(a)] + b) == NonEmpty(a + b);
    } else {
      DottedNest(NonEmpty(a), NonEmpty(b));
    }
  }

  lemma KeyTwo(a: bytes, b: bytes)
    ensures NonEmpty([a, b]) == NonEmptyHead(a) + NonEmptyHead(b)
    ensures Key([a, b]) == if a == [] then b else if b == [] then a else a + "." + b
    ensures Key([a]) == a
  {
    assert [a, b][1..] == [b] && [b][1..] == [] && [a][1..] == [];
    assert NonEmpty([b]) == NonEmptyHead(b) && NonEmpty([a]) == NonEmptyHead(a);
    assert NonEmpty([a, b]) == NonEmptyHead(a) + NonEmptyHead(b);
    if a != [] && b != [] {
      assert [a, b][1..] == [b] && Dotted([b]) == b;
    }
  }

  /** The two-part join that the code performs at every level. */
  function SubKey(key: bytes, segment: bytes): (r: bytes)
    ensures r == Key([key, segment])
  {
    KeyTwo(key, segment);
    if key == [] then segment else if segment == [] then key else key + "." + segment
  }

  // -- Leaves ---------------------------------------------------------------------------

  /** A scalar and the attribute keys on the way to it. */
  datatype Leaf = Leaf(path: seq<bytes>, scalar: Value)

  /** All scalars, depth first. */
  function Leaves(v: Value): seq<Leaf>
    decreases v, 0
  {
    match v
    case Group(attrs) => AllLeaves(attrs)
    case Valuer(value) => Leaves(value)
    case _ => [Leaf([], v)]
  }

  function AllLeaves(attrs: seq<Attr>): seq<Leaf>
    decreases attrs, 1
  {
    if attrs == [] then [] else AttrLeaves(attrs[0]) + AllLeaves(attrs[1..])
  }

  function AttrLeaves(a: Attr): seq<Leaf>
    decreases a, 1
  {
    Under(a.key, Leaves(a.value))
  }

  function Under(segment: bytes, leaves: seq<Leaf>): seq<Leaf> {
    if leaves == [] then []
    else [Leaf([segment] + leaves[0].path, leaves[0].scalar)] + Under(segment, leaves[1..])
  }

  function AsUint64(n: int64): uint64 {
    if n < 0 then n + TWO_64 else n
  }

  /** The typed field of a scalar. */
  function ScalarField(key: bytes, v: Value): Field {
    match v
    case String(text) => Field(key, StringType, 0, text)
    case Int64(n) => Field(key, Int64Type, AsUint64(n), [])
    case Uint64(u) => Field(key, Uint64Type, u, [])
    case Float64(floatBits) => Field(key, Float64Type, floatBits, [])
    case Bool(b) => Field(key, BoolType, if b then 1 else 0, [])
    case Duration(d) => Field(key, DurationType, AsUint64(d), [])
    case Time(rfc3339) => Field(key, StringType, 0, rfc3339)
    case Any(printed) => Field(key, StringType, 0, printed)
    case _ => Field(key, StringType, 0, [])
  }

  /** The leaves with a non-empty key, as fields. */
  function Keyed(prefix: seq<bytes>, leaves: seq<Leaf>): seq<Field> {
    if leaves == [] then []
    else
      var key := Key(prefix + leaves[0].path);
      (if key == [] then [] else [ScalarField(key, leaves[0].scalar)]) + Keyed(prefix, leaves[1..])
  }

  lemma {:induction false} KeyedConcat(prefix: seq<bytes>, a: seq<Leaf>, b: seq<Leaf>)
    ensures Keyed(prefix, a + b) == Keyed(prefix, a) + Keyed(prefix, b)
  {
    hide Key, ScalarField;
    if a == [] {
      assert a + b == b;
    } else {
      KeyedConcat(prefix, a[1..], b);
      assert (a + b)[1..] == a[1..] + b && (a + b)[0] == a[0];
      var key := Key(prefix + a[0].path);
      Assoc(if key == [] then [] else [ScalarField(key, a[0].scalar)], Keyed(prefix, a[1..]), Keyed(prefix, b));
    }
  }

  lemma {:induction false} KeyedUnder(prefix: seq<bytes>, segment: bytes, leaves: seq<Leaf>)
    ensures Keyed(prefix, Under(segment, leaves)) == Keyed(prefix + [segment], leaves)
  {
    hide Key;
    if leaves != [] {
      KeyedUnder(prefix, segment, leaves[1..]);
      assert prefix + ([segment] + leaves[0].path) == (prefix + [segment]) + leaves[0].path;
    }
  }

  /** The prefix may be joined before the leaves are keyed. */
  lemma {:induction false} KeyedNest(prefix: seq<bytes>, leaves: seq<Leaf>)
    ensures Keyed([Key(prefix)], leaves) == Keyed(prefix, leaves)
  {
    if leaves != [] {
      KeyNest(prefix, leaves[0].path);
      KeyedNest(prefix, leaves[1..]);
    }
  }

  // -- appendSlogValue ----------------------------------------------------------------------

  function Resolve(v: Value): (w: Value)
    ensures !w.Valuer? && Leaves(w) == Leaves(v)
    ensures w == v || w < v
  {
    if v.Valuer? then Resolve(v.value) else v
  }

  lemma NextAttr(key: bytes, attrs: seq<Attr>, i: nat)
    requires i < |attrs|
    ensures Keyed([key], AllLeaves(attrs[..i + 1])) ==
            Keyed([key], AllLeaves(attrs[..i])) + Keyed([SubKey(key, attrs[i].key)], Leaves(attrs[i].value))
  {
    hide Key, Leaves;
    var a := attrs[i];
    AllLeavesConcat(attrs[..i], [a]);
    assert attrs[..i + 1] == attrs[..i] + [a];
    assert AllLeaves([a]) == AttrLeaves(a) by {
      assert [a][1..] == [];
    }
    KeyedConcat([key], AllLeaves(attrs[..i]), AttrLeaves(a));
    KeyedUnder([key], a.key, Leaves(a.value));
    KeyedNest([key, a.key], Leaves(a.value));
    assert [key] + [a.key] == [key, a.key];
  }

  lemma {:induction false} AllLeavesConcat(a: seq<Attr>, b: seq<Attr>)
    ensures AllLeaves(a + b) == AllLeaves(a) + AllLeaves(b)
  {
    hide AttrLeaves;
    if a == [] {
      assert a + b == b;
    } else {
      AllLeavesConcat(a[1..], b);
      assert (a + b)[1..] == a[1..] + b && (a + b)[0] == a[0];
      Assoc(AttrLeaves(a[0]), AllLeaves(a[1..]), AllLeaves(b));
    }
  }

  /** Exactly the leaves, depth first, each under its dotted key; leaves
      without a key are skipped. */
  method AppendSlogValue(buf: seq<Field>, key: bytes, v: Value) returns (r: seq<Field>)
    ensures r == buf + Keyed([key], Leaves(v))
    decreases v
  {
    var w := Resolve(v);
    if w.Group? {
      var attrs := w.attrs;
      r := buf;
      for i := 0 to |attrs|
        invariant r == buf + Keyed([key], AllLeaves(attrs[..i]))
      {
        var subKey := attrs[i].key;
        if key != [] {
          if subKey == [] {
            subKey := key;
          } else {
            subKey := key + "." + subKey;
          }
        }
        assert subKey == SubKey(key, attrs[i].key);
        NextAttr(key, attrs, i);
        Assoc(buf, Keyed([key], AllLeaves(attrs[..i])), Keyed([subKey], Leaves(attrs[i].value)));
        r := AppendSlogValue(r, subKey, attrs[i].value);
      }
      assert attrs[..|attrs|] == attrs;
      return;
    }
    assert Keyed([key], Leaves(w)) == if key == [] then [] else [ScalarField(key, w)] by {
      ScalarKeyed(key, w);
    }
    if key == [] {
      return buf;
    }
    r := buf + [ScalarField(key, w)];
  }

  lemma ScalarKeyed(key: bytes, w: Value)
    requires !w.Group? && !w.Valuer?
    ensures Keyed([key], Leaves(w)) == if key == [] then [] else [ScalarField(key, w)]
  {
    assert [key] + [] == [key] && [key][1..] == [];
    assert Leaves(w) == [Leaf([], w)] && Leaves(w)[1..] == [];
    KeyTwo(key, []);
  }

  // -- Handlers -----------------------------------------------------------------------------

  /** The fields of one attribute under a group path. An attribute without a
      key is inlined, without the group. */
  function AttrFields(groups: seq<bytes>, a: Attr): seq<Field> {
    if a.key == [] then Keyed([], Leaves(a.value)) else Keyed(groups + [a.key], Leaves(a.value))
  }

  function AllFields(groups: seq<bytes>, attrs: seq<Attr>): seq<Field> {
    if attrs == [] then []
    else AllFields(groups, attrs[..|attrs| - 1]) + AttrFields(groups, attrs[|attrs| - 1])
  }

  lemma {:induction false} AllFieldsNest(groups: seq<bytes>, attrs: seq<Attr>)
    ensures AllFields([Key(groups)], attrs) == AllFields(groups, attrs)
  {
    hide Key;
    if attrs != [] {
      var a := attrs[|attrs| - 1];
      AllFieldsNest(groups, attrs[..|attrs| - 1]);
      KeyNest(groups, [a.key]);
      KeyedNest([Key(groups)] + [a.key], Leaves(a.value));
      KeyedNest(groups + [a.key], Leaves(a.value));
    }
  }

  datatype Handler = Handler(attrs: seq<Field>, group: bytes)
  {
    method AppendAttr(buf: seq<Field>, a: Attr) returns (r: seq<Field>)
      ensures r == buf + AttrFields([group], a)
    {
      var v := Resolve(a.value);
      if a.key == [] {
        KeyedNest([], Leaves(v));
        r := AppendSlogValue(buf, [], v);
        return;
      }
      var key := a.key;
      if group != [] {
        key := group + "." + key;
      }
      assert key == SubKey(group, a.key);
      KeyedNest([group, a.key], Leaves(v));
      assert [group] + [a.key] == [group, a.key];
      r := AppendSlogValue(buf, key, v);
    }

    method WithAttrs(added: seq<Attr>) returns (h: Handler)
      ensures h == Handler(attrs + AllFields([group], added), group)
    {
      if |added| == 0 {
        return this;
      }
      var newAttrs := attrs;
      for i := 0 to |added|
        invariant newAttrs == attrs + AllFields([group], added[..i])
      {
        assert added[..i + 1][..i] == added[..i];
        Assoc(attrs, AllFields([group], added[..i]), AttrFields([group], added[i]));
        newAttrs := AppendAttr(newAttrs, added[i]);
      }
      assert added[..|added|] == added;
      h := Handler(newAttrs, group);
    }

    method WithGroup(name: bytes) returns (h: Handler)
      ensures h == Handler(attrs, Key([group, name]))
    {
      assert SubKey(group, name) == Key([group, name]);
      if name == [] {
        return this;
      }
      if group != [] {
        return Handler(attrs, group + "." + name);
      }
      h := Handler(attrs, name);
    }

    /** Handle: the carried fields and those of the record's attributes. */
    method RecordFields(added: seq<Attr>) returns (fields: seq<Field>)
      ensures fields == attrs + AllFields([group], added)
    {
      fields := attrs;
      for i := 0 to |added|
        invariant fields == attrs + AllFields([group], added[..i])
      {
        assert added[..i + 1][..i] == added[..i];
        Assoc(attrs, AllFields([group], added[..i]), AttrFields([group], added[i]));
        fields := AppendAttr(fields, added[i]);
      }
      assert added[..|added|] == added;
    }
  }

  lemma KeyLonger(a: seq<bytes>, b: seq<bytes>)
    requires Key(a) != []
    ensures |Key(a + b)| > |Key(b)|
  {
    KeyNest(a, b);
    NonEmptyConcat([Key(a)], b);
    KeyTwo(Key(a), []);
    var segments := [Key(a)] + NonEmpty(b);
    assert NonEmpty([Key(a)] + b) == segments;
    assert segments[1..] == NonEmpty(b);
  }

  lemma {:induction false} KeyedLength(prefix: seq<bytes>, leaves: seq<Leaf>)
    ensures |Keyed(prefix, leaves)| <= |leaves|
    ensures Key(prefix) != [] ==> |Keyed(prefix, leaves)| == |leaves|
  {
    hide Key;
    if leaves != [] {
      KeyedLength(prefix, leaves[1..]);
      if Key(prefix) != [] {
        PrefixKey(prefix, leaves[0].path);
      }
    }
  }

  lemma PrefixKey(a: seq<bytes>, b: seq<bytes>)
    requires Key(a) != []
    ensures Key(a + b) != []
  {
    KeyEmpty(a);
    KeyEmpty(a + b);
    var s :| s in a && s != [];
    assert s in a + b;
  }

  /** The group of a handler reaches all leaves of an attribute exactly if the
      attribute has a key, there is no group, or there are no leaves: an
      attribute without a key loses the group. */
  lemma GroupReaches(groups: seq<bytes>, a: Attr)
    ensures AttrFields(groups, a) == Keyed(groups, AttrLeaves(a)) <==>
            a.key != [] || Key(groups) == [] || Leaves(a.value) == []
  {
    var leaves := Leaves(a.value);
    KeyedUnder(groups, a.key, leaves);
    if a.key == [] {
      KeyNest(groups, [[]]);
      KeyTwo(Key(groups), []);
      KeyedNest(groups + [[]], leaves);
      KeyedNest(groups, leaves);
      assert [Key(groups)] + [[]] == [Key(groups), []];
      assert Keyed(groups, AttrLeaves(a)) == Keyed(groups, leaves);
      if Key(groups) == [] {
        KeyedNest([], leaves);
        assert Key([]) == [];
      } else if leaves != [] {
        InlineDiffers(groups, leaves);
      }
    }
  }

  lemma InlineDiffers(groups: seq<bytes>, leaves: seq<Leaf>)
    requires Key(groups) != [] && leaves != []
    ensures Keyed([], leaves) != Keyed(groups, leaves)
  {
    hide Key;
    KeyedLength(groups, leaves);
    KeyedLength([], leaves[1..]);
    var path := leaves[0].path;
    PrefixKey(groups, path);
    assert [] + path == path;
    if Key(path) != [] {
      KeyLonger(groups, path);
      assert Keyed([], leaves)[0].key == Key(path);
      assert Keyed(groups, leaves)[0].key == Key(groups + path);
    } else {
      assert |Keyed([], leaves)| < |leaves|;
    }
  }

  // -- Chains of WithAttrs and WithGroup --------------------------------------------------------

  datatype Derive = Attrs(attrs: seq<Attr>) | Grouped(name: bytes)

  /** The groups in force after the steps. */
  function Groups(steps: seq<Derive>): seq<bytes> {
    if steps == [] then []
    else
      var before := Groups(steps[..|steps| - 1]);
      var last := steps[|steps| - 1];
      if last.Grouped? then before + [last.name] else before
  }

  /** Earlier attributes first, each under the groups in force when it was added. */
  function Carried(steps: seq<Derive>): seq<Field> {
    if steps == [] then []
    else
      var before := steps[..|steps| - 1];
      var last := steps[|steps| - 1];
      if last.Attrs? then Carried(before) + AllFields(Groups(before), last.attrs) else Carried(before)
  }

  /** A handler derived by any chain carries those fields and the joined group. */
  method DeriveAll(steps: seq<Derive>) returns (h: Handler)
    ensures h == Handler(Carried(steps), Key(Groups(steps)))
  {
    h := Handler([], []);
    for i := 0 to |steps|
      invariant h == Handler(Carried(steps[..i]), Key(Groups(steps[..i])))
    {
      var before := steps[..i];
      assert steps[..i + 1][..i] == before;
      match steps[i] {
        case Attrs(attrs) =>
          AllFieldsNest(Groups(before), attrs);
          h := h.WithAttrs(attrs);
        case Grouped(name) =>
          KeyNest(Groups(before), [name]);
          assert [Key(Groups(before))] + [name] == [Key(Groups(before)), name];
          h := h.WithGroup(name);
      }
    }
    assert steps[..|steps|] == steps;
  }

  /** The identifiers in a context; one that is absent or no string is empty. */
  datatype Context = Context(traceId: bytes, requestId: bytes, spanId: bytes)

  function Named(key: bytes, value: bytes): seq<Field> {
    if value == [] then [] else [ScalarField(key, String(value))]
  }

  function ContextFields(ctx: Context): seq<Field> {
    Named("trace_id", ctx.traceId) + Named("request_id", ctx.requestId) + Named("span_id", ctx.spanId)
  }

  method AppendCtxFields(ctx: Context, fields: seq<Field>) returns (r: seq<Field>)
    ensures r == fields + ContextFields(ctx)
  {
    r := fields;
    if ctx.traceId != [] {
      r := r + [ScalarField("trace_id", String(ctx.traceId))];
    }
    if ctx.requestId != [] {
      r := r + [ScalarField("request_id", String(ctx.requestId))];
    }
    if ctx.spanId != [] {
      r := r + [ScalarField("span_id", String(ctx.spanId))];
    }
  }

  /** What one record logged through a derived handler becomes: the carried
      fields, the record's own under the groups in force, and the identifiers
      of its context. */
  method Logged(steps: seq<Derive>, attrs: seq<Attr>, ctx: Context) returns (fields: seq<Field>)
    ensures fields == Carried(steps) + AllFields(Groups(steps), attrs) + ContextFields(ctx)
  {
    var h := DeriveAll(steps);
    AllFieldsNest(Groups(steps), attrs);
    fields := h.RecordFields(attrs);
    fields := AppendCtxFields(ctx, fields);
  }

  // -- What the fields mean ------------------------------------------------------------------------

  /** The JSON value of a scalar. */
  function ScalarJson(c: Format, v: Value): Json.Value {
    match v
    case Int64(n) => Json.Number(Decimal.IntText(n))
    case Uint64(u) => Json.Number(Decimal.Digits(u))
    case Bool(b) => Json.Bool(b)
    case String(text) => Json.String(text)
    case Time(rfc3339) => Json.String(rfc3339)
    case Any(printed) => Json.String(printed)
    case Duration(d) =>
      if c.durationUnit > 0 then Json.Number(JsonLine.DurationNumber(c, d)) else Json.String(DurationText.Text(d))
    case Float64(bits) =>
      if IsNaN(bits) then Json.String("NaN")
      else if bits == PLUS_INF then Json.String("+Inf")
      else if bits == MINUS_INF then Json.String("-Inf")
      else Json.Number(c.floatText(bits))
    case _ => Json.String([])
  }

  /** The members that the leaves stand for. */
  function LeafMembers(c: Format, prefix: seq<bytes>, leaves: seq<Leaf>): seq<Json.Member> {
    if leaves == [] then []
    else
      var key := Key(prefix + leaves[0].path);
      (if key == [] then [] else [Json.Member(key, ScalarJson(c, leaves[0].scalar))])
      + LeafMembers(c, prefix, leaves[1..])
  }

  ghost predicate Scalars(leaves: seq<Leaf>) {
    forall i :: 0 <= i < |leaves| ==> !leaves[i].scalar.Group? && !leaves[i].scalar.Valuer?
  }

  lemma {:induction false} UnderScalars(segment: bytes, leaves: seq<Leaf>)
    requires Scalars(leaves)
    ensures Scalars(Under(segment, leaves))
  {
    if leaves != [] {
      UnderScalars(segment, leaves[1..]);
    }
  }

  lemma {:induction false} AllLeavesScalars(attrs: seq<Attr>)
    ensures Scalars(AllLeaves(attrs))
    decreases attrs, 1
  {
    if attrs != [] {
      LeavesScalars(attrs[0].value);
      UnderScalars(attrs[0].key, Leaves(attrs[0].value));
      AllLeavesScalars(attrs[1..]);
    }
  }

  /** The leaves of a value tree are scalars. */
  lemma {:induction false} LeavesScalars(v: Value)
    ensures Scalars(Leaves(v))
    decreases v, 0
  {
    match v
    case Group(attrs) => AllLeavesScalars(attrs);
    case Valuer(value) => LeavesScalars(value);
    case _ =>
  }

  lemma {:induction false} KeyedMembers(c: Format, prefix: seq<bytes>, leaves: seq<Leaf>)
    requires Scalars(leaves)
    ensures JsonLine.TypedMembers(c, Keyed(prefix, leaves)) == LeafMembers(c, prefix, leaves)
  {
    hide Key, JsonLine.FieldValue;
    if leaves != [] {
      KeyedMembers(c, prefix, leaves[1..]);
      var l := leaves[0];
      var key := Key(prefix + l.path);
      if key != [] {
        var f := ScalarField(key, l.scalar);
        assert Keyed(prefix, leaves)[1..] == Keyed(prefix, leaves[1..]);
        assert !IsZero(f);
        ScalarValue(c, key, l.scalar);
      } else {
        assert Keyed(prefix, leaves) == Keyed(prefix, leaves[1..]);
      }
    }
  }

  /** No leaf of a value is lost on the way to the line: the encoder skips none
      of the fields, and every number keeps its sign. */
  lemma LeavesReachLine(c: Format, prefix: seq<bytes>, v: Value)
    ensures JsonLine.TypedMembers(c, Keyed(prefix, Leaves(v))) == LeafMembers(c, prefix, Leaves(v))
  {
    LeavesScalars(v);
    KeyedMembers(c, prefix, Leaves(v));
  }

  lemma ScalarValue(c: Format, key: bytes, v: Value)
    requires !v.Group? && !v.Valuer?
    ensures JsonLine.FieldValue(c, ScalarField(key, v)) == ScalarJson(c, v)
  {
  }

  /** j shows the scalar. */
  ghost predicate ShowsScalar(c: Format, v: Value, j: Json.Value) {
    match v
    case Int64(n) => j.Number? && Reading.Integer(j.token) == Some(n)
    case Uint64(u) => j.Number? && Reading.Integer(j.token) == Some(u)
    case Bool(b) => j == Json.Bool(b)
    case String(text) => j == Json.String(Utf8.Sanitize(text))
    case Time(rfc3339) => j == Json.String(Utf8.Sanitize(rfc3339))
    case Any(printed) => j == Json.String(Utf8.Sanitize(printed))
    case Duration(d) =>
      if c.durationUnit <= 0 then j.String? && Reading.ShowsDuration(d, j.text)
      else if d % c.durationUnit != 0 then j == Json.Number(c.fractionText(d, c.durationUnit))
      else j.Number? && Reading.Integer(j.token).Some? && Reading.Integer(j.token).value * c.durationUnit == d
    case Float64(bits) =>
      var exponent, mantissa := bits / 0x10_0000_0000_0000 % 0x800, bits % 0x10_0000_0000_0000;
      if exponent != 0x7FF then j == Json.Number(c.floatText(bits))
      else if mantissa != 0 then j == Json.String("NaN")
      else j == Json.String(if bits < 0x8000_0000_0000_0000 then "+Inf" else "-Inf")
    case _ => false
  }

  lemma ScalarShows(c: Format, key: bytes, v: Value)
    requires !v.Group? && !v.Valuer?
    ensures ShowsScalar(c, v, Json.Clean(JsonLine.FieldValue(c, ScalarField(key, v))))
  {
    hide JsonLine.FieldValue, Json.Clean, Reading.Integer, Reading.ShowsDuration, Utf8.Sanitize;
    Reading.FieldShows(c, ScalarField(key, v));
  }

  /** The members show the leaves, each under its dotted key; those without a
      key are left out. */
  ghost predicate ShowsLeaves(c: Format, prefix: seq<bytes>, leaves: seq<Leaf>, ms: seq<Json.Member>) {
    if leaves == [] then ms == []
    else
      var key := Key(prefix + leaves[0].path);
      if key == [] then ShowsLeaves(c, prefix, leaves[1..], ms)
      else
        && ms != [] && ms[0].key == Utf8.Sanitize(key) && ShowsScalar(c, leaves[0].scalar, ms[0].value)
        && ShowsLeaves(c, prefix, leaves[1..], ms[1..])
  }

  lemma {:induction false} KeyedShow(c: Format, prefix: seq<bytes>, leaves: seq<Leaf>)
    requires Scalars(leaves)
    ensures ShowsLeaves(c, prefix, leaves, Json.CleanAll(JsonLine.TypedMembers(c, Keyed(prefix, leaves))))
  {
    hide Key, JsonLine.FieldValue, Json.Clean, ShowsScalar, Utf8.Sanitize, ScalarField;
    if leaves != [] {
      KeyedShow(c, prefix, leaves[1..]);
      var key := Key(prefix + leaves[0].path);
      var rest := Keyed(prefix, leaves[1..]);
      if key == [] {
        assert Keyed(prefix, leaves) == rest;
      } else {
        var f := ScalarField(key, leaves[0].scalar);
        FieldKey(key, leaves[0].scalar);
        ScalarShows(c, key, leaves[0].scalar);
        assert Keyed(prefix, leaves)[1..] == rest;
        var m := Json.Member(key, JsonLine.FieldValue(c, f));
        assert JsonLine.TypedMembers(c, Keyed(prefix, leaves)) == [m] + JsonLine.TypedMembers(c, rest);
        Reading.CleanNext(m, JsonLine.TypedMembers(c, rest));
        hide JsonLine.TypedMembers, Json.CleanAll, Keyed;
        var shown := Json.Member(Utf8.Sanitize(key), Json.Clean(m.value));
        var more := Json.CleanAll(JsonLine.TypedMembers(c, rest));
        assert ([shown] + more)[1..] == more;
      }
    }
  }

  lemma FieldKey(key: bytes, v: Value)
    ensures ScalarField(key, v).key == key
  {
  }

  /** What a reader of the line finds for a value: all its leaves, in depth-first
      order, under their dotted keys and with their own values. */
  lemma LeavesShown(c: Format, prefix: seq<bytes>, v: Value)
    ensures ShowsLeaves(c, prefix, Leaves(v), Json.CleanAll(JsonLine.TypedMembers(c, Keyed(prefix, Leaves(v)))))
  {
    LeavesScalars(v);
    KeyedShow(c, prefix, Leaves(v));
  }

  /** The identifiers that are present are logged under these names. */
  lemma ContextMembers(c: Format, ctx: Context)
    ensures JsonLine.TypedMembers(c, ContextFields(ctx)) ==
            (if ctx.traceId == [] then [] else [Json.Member("trace_id", Json.String(ctx.traceId))])
            + (if ctx.requestId == [] then [] else [Json.Member("request_id", Json.String(ctx.requestId))])
            + (if ctx.spanId == [] then [] else [Json.Member("span_id", Json.String(ctx.spanId))])
  {
    hide JsonLine.TypedMembers, Named;
    OneNamed(c, "span_id", ctx.spanId, []);
    OneNamed(c, "request_id", ctx.requestId, Named("span_id", ctx.spanId));
    OneNamed(c, "trace_id", ctx.traceId, Named("request_id", ctx.requestId) + Named("span_id", ctx.spanId));
    assert Named("span_id", ctx.spanId) + [] == Named("span_id", ctx.spanId);
    JsonLine.NoTyped(c);
    Assoc(Named("trace_id", ctx.traceId), Named("request_id", ctx.requestId), Named("span_id", ctx.spanId));
  }

  lemma OneNamed(c: Format, key: bytes, value: bytes, rest: seq<Field>)
    requires key != []
    ensures JsonLine.TypedMembers(c, Named(key, value) + rest) ==
            (if value == [] then [] else [Json.Member(key, Json.String(value))]) + JsonLine.TypedMembers(c, rest)
  {
    var fields := Named(key, value) + rest;
    if value == [] {
      assert fields == rest;
    } else {
      assert fields[1..] == rest;
    }
  }

  // -- Chains as nested groups --------------------------------------------------------------

  /** The attributes as one tree: those added under a group stand in a group
      value of that name, behind the earlier ones. An empty group name opens no
      group. */
  function Nest(steps: seq<Derive>, inner: seq<Attr>): seq<Attr> {
    if steps == [] then inner
    else
      var before, last := steps[..|steps| - 1], steps[|steps| - 1];
      match last
      case Attrs(attrs) => Nest(before, attrs + inner)
      case Grouped(name) => Nest(before, if name == [] then inner else [Attr(name, Group(inner))])
  }

  predicate HaveKeys(attrs: seq<Attr>) {
    forall a :: a in attrs ==> a.key != []
  }

  predicate StepsHaveKeys(steps: seq<Derive>) {
    forall d :: d in steps && d.Attrs? ==> HaveKeys(d.attrs)
  }

  lemma {:induction false} AllFieldsConcat(groups: seq<bytes>, a: seq<Attr>, b: seq<Attr>)
    ensures AllFields(groups, a + b) == AllFields(groups, a) + AllFields(groups, b)
  {
    hide AttrFields;
    if b == [] {
      assert a + b == a;
    } else {
      var n := |b| - 1;
      AllFieldsConcat(groups, a, b[..n]);
      assert (a + b)[..|a + b| - 1] == a + b[..n];
      Assoc(AllFields(groups, a), AllFields(groups, b[..n]), AttrFields(groups, b[n]));
    }
  }

  /** Attributes with keys under a group path are the leaves of their tree. */
  lemma {:induction false} FieldsAreLeaves(groups: seq<bytes>, attrs: seq<Attr>)
    requires HaveKeys(attrs)
    ensures AllFields(groups, attrs) == Keyed(groups, AllLeaves(attrs))
  {
    if attrs != [] {
      var n := |attrs| - 1;
      var a := attrs[n];
      assert a in attrs;
      FieldsAreLeaves(groups, attrs[..n]);
      assert attrs == attrs[..n] + [a] && [a][1..] == [];
      AllLeavesConcat(attrs[..n], [a]);
      assert AllLeaves([a]) == AttrLeaves(a) by { LeavesOfOne(a); }
      KeyedConcat(groups, AllLeaves(attrs[..n]), AttrLeaves(a));
      KeyedUnder(groups, a.key, Leaves(a.value));
    }
  }

  lemma LeavesOfOne(a: Attr)
    ensures AllLeaves([a]) == AttrLeaves(a)
  {
    assert [a][1..] == [];
    assert AttrLeaves(a) + [] == AttrLeaves(a);
  }

  lemma GroupedFields(groups: seq<bytes>, name: bytes, inner: seq<Attr>)
    requires name != [] && HaveKeys(inner)
    ensures AllFields(groups, [Attr(name, Group(inner))]) == AllFields(groups + [name], inner)
  {
    var a := Attr(name, Group(inner));
    FieldsAreLeaves(groups + [name], inner);
    assert [a][..0] == [] && AllFields(groups, []) == [];
    assert [] + AttrFields(groups, a) == AttrFields(groups, a);
  }

  lemma {:induction false} NestFields(steps: seq<Derive>, inner: seq<Attr>)
    requires StepsHaveKeys(steps) && HaveKeys(inner)
    ensures HaveKeys(Nest(steps, inner))
    ensures AllFields([], Nest(steps, inner)) == Carried(steps) + AllFields(Groups(steps), inner)
  {
    hide AllFields;
    if steps == [] {
      assert [] + AllFields([], inner) == AllFields([], inner);
    } else {
      var before, last := steps[..|steps| - 1], steps[|steps| - 1];
      assert last in steps;
      match last {
        case Attrs(attrs) =>
          NestFields(before, attrs + inner);
          AllFieldsConcat(Groups(before), attrs, inner);
          Assoc(Carried(before), AllFields(Groups(before), attrs), AllFields(Groups(before), inner));
        case Grouped(name) =>
          if name == [] {
            NestFields(before, inner);
            EmptyGroup(Groups(before), inner);
          } else {
            NestFields(before, [Attr(name, Group(inner))]);
            GroupedFields(Groups(before), name, inner);
          }
      }
    }
  }

  /** An empty group name changes no field. */
  lemma {:induction false} EmptyGroup(groups: seq<bytes>, attrs: seq<Attr>)
    ensures AllFields(groups + [[]], attrs) == AllFields(groups, attrs)
  {
    KeyNest(groups, [[]]);
    KeyTwo(Key(groups), []);
    assert [Key(groups)] + [[]] == [Key(groups), []];
    AllFieldsNest(groups, attrs);
    AllFieldsNest(groups + [[]], attrs);
  }

  /** What slog promises of WithAttrs and WithGroup: a record logged through a
      derived handler has the fields of one tree, in which the attributes added
      later stand inside the groups opened before. It holds for attributes that
      have keys. */
  lemma ChainIsTree(steps: seq<Derive>, attrs: seq<Attr>)
    requires StepsHaveKeys(steps) && HaveKeys(attrs)
    ensures Carried(steps) + AllFields(Groups(steps), attrs) == Keyed([], AllLeaves(Nest(steps, attrs)))
  {
    NestFields(steps, attrs);
    FieldsAreLeaves([], Nest(steps, attrs));
  }
}
