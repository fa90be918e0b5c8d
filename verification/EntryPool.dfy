/** Pooled entries (entry.go) on their way from a producer through the channel
    to the worker and back: reuse never shows in a formatted line. */
module EntryPool {
  import opened Basics
  import opened Records
  import Json
  import JsonLine
  import JsonString
  import Pipeline
  import Reading
  import TextLine

  // -- Slices ---------------------------------------------------------------------------

  /** A slice with its backing array: the elements in use and, behind them,
      the rest of the capacity with whatever it still holds. */
  datatype Slice<T> = Slice(items: seq<T>, spare: seq<T>) {
    function Cap(): nat {
      |items| + |spare|
    }
  }

  function Zeros<T>(zero: T, n: nat): (s: seq<T>)
    ensures |s| == n && forall i :: 0 <= i < n ==> s[i] == zero
  {
    seq(n, _ => zero)
  }

  /** append(s[:0], xs...): in place if the capacity suffices, else in a new
      array that has room for `extra` more elements. */
  function Overwrite<T>(s: Slice<T>, xs: seq<T>, zero: T, extra: nat): Slice<T> {
    if |xs| <= s.Cap() then Slice(xs, (s.items + s.spare)[|xs|..]) else Slice(xs, Zeros(zero, extra))
  }

  const MAX_MSG: nat := 4096
  const MAX_FIELDS: nat := 64
  const ZERO_FIELD := Field([], StringType, 0, [])

  /** s[:0], or nil for a large array. The old bytes stay behind. */
  function Truncate(s: Slice<byte>): Slice<byte> {
    if s.Cap() > MAX_MSG then Slice([], []) else Slice([], s.items + s.spare)
  }

  /** clear(s) and s[:0], or nil for a large array. */
  function Clear<T>(s: Slice<T>, zero: T): Slice<T> {
    if s.Cap() > MAX_FIELDS then Slice([], []) else Slice([], Zeros(zero, |s.items|) + s.spare)
  }

  // -- Entries as values ------------------------------------------------------------------

  /** What the formatter needs of a profile: the prefixes baked from its static
      fields, which never change after registration. */
  datatype Baked = Baked(staticFields: seq<bytes>) {
    function TextPrefix(): bytes {
      TextLine.PrefixText(staticFields)
    }

    function JsonPrefix(): bytes {
      Json.EmitTail(JsonLine.StringMembers(staticFields))
    }
  }

  datatype Content = Content(level: nat, logType: bytes, msg: Slice<byte>, file: bytes, line: int64,
                             fields: Slice<bytes>, fieldsV: Slice<Field>, profile: Option<Baked>)

  const NEW_CONTENT: Content := Content(0, [], Slice([], []), [], 0, Slice([], []), Slice([], []), None)

  /** The arguments of one log call: the string-field or the typed-field API. */
  datatype Call =
    | StringCall(level: nat, logType: bytes, msg: bytes, file: bytes, line: int64, fields: seq<bytes>,
                 profile: Option<Baked>)
    | TypedCall(level: nat, logType: bytes, msg: bytes, file: bytes, line: int64, fieldsV: seq<Field>,
                profile: Option<Baked>)

  /** What the formatter reads. */
  datatype Message = Message(level: nat, logType: bytes, msg: bytes, file: bytes, line: int64,
                             fields: seq<bytes>, fieldsV: seq<Field>, profile: Option<Baked>)
  {
    function Record(): Record {
      Records.Record(level, logType, msg, file, line, fields, fieldsV,
                     if profile.Some? then profile.value.TextPrefix() else [],
                     if profile.Some? then profile.value.JsonPrefix() else [])
    }

    function StaticFields(): seq<bytes> {
      if profile.Some? then profile.value.staticFields else []
    }
  }

  function Shown(c: Content): Message {
    Message(c.level, c.logType, c.msg.items, c.file, c.line, c.fields.items, c.fieldsV.items, c.profile)
  }

  /** The call as an entry that was never used before would show it. */
  function Fresh(call: Call): Message {
    match call
    case StringCall(level, logType, msg, file, line, fields, profile) =>
      Message(level, logType, msg, file, line, fields, [], profile)
    case TypedCall(level, logType, msg, file, line, fieldsV, profile) =>
      Message(level, logType, msg, file, line, [], fieldsV, profile)
  }

  function ResetContent(c: Content): Content {
    Content(0, [], Truncate(c.msg), [], 0, Clear(c.fields, []), Clear(c.fieldsV, ZERO_FIELD), None)
  }

  /** log and logTyped write every field of the entry but the other API's list. */
  function FillContent(c: Content, call: Call, extra: nat): Content {
    var common := c.(level := call.level, logType := call.logType, msg := Overwrite(c.msg, call.msg, '\0', extra),
                     file := call.file, line := call.line, profile := call.profile);
    match call
    case StringCall(_, _, _, _, _, fields, _) => common.(fields := Overwrite(c.fields, fields, [], extra))
    case TypedCall(_, _, _, _, _, fieldsV, _) => common.(fieldsV := Overwrite(c.fieldsV, fieldsV, ZERO_FIELD, extra))
  }

  /** No string is kept alive behind the elements in use. */
  ghost predicate Tidy(c: Content) {
    && (forall i :: 0 <= i < |c.fields.spare| ==> c.fields.spare[i] == [])
    && (forall i :: 0 <= i < |c.fieldsV.spare| ==> c.fieldsV.spare[i] == ZERO_FIELD)
  }

  /** As the pool holds it: nothing in use, nothing kept alive, nothing large. */
  ghost predicate Clean(c: Content) {
    && Shown(c) == Shown(NEW_CONTENT) && Tidy(c)
    && c.msg.Cap() <= MAX_MSG && c.fields.Cap() <= MAX_FIELDS && c.fieldsV.Cap() <= MAX_FIELDS
  }

  lemma ResetCleans(c: Content)
    requires Tidy(c)
    ensures Clean(ResetContent(c))
  {
    var r := ResetContent(c);
    forall i | 0 <= i < |r.fields.spare|
      ensures r.fields.spare[i] == []
    {
      assert i >= |c.fields.items| ==> r.fields.spare[i] == c.fields.spare[i - |c.fields.items|];
    }
    forall i | 0 <= i < |r.fieldsV.spare|
      ensures r.fieldsV.spare[i] == ZERO_FIELD
    {
      assert i >= |c.fieldsV.items| ==> r.fieldsV.spare[i] == c.fieldsV.spare[i - |c.fieldsV.items|];
    }
  }

  /** Reset keeps the room of an ordinary entry for the next call: up to 4096
      message bytes and 64 fields of either kind. */
  lemma ResetKeepsRoom(c: Content)
    ensures var r := ResetContent(c);
            && r.msg.Cap() == (if c.msg.Cap() <= 4096 then c.msg.Cap() else 0)
            && r.fields.Cap() == (if c.fields.Cap() <= 64 then c.fields.Cap() else 0)
            && r.fieldsV.Cap() == (if c.fieldsV.Cap() <= 64 then c.fieldsV.Cap() else 0)
  {
  }

  /** A filled entry shows exactly the call if and only if the list that the
      call does not write was empty. */
  lemma FillExact(c: Content, call: Call, extra: nat)
    ensures Shown(FillContent(c, call, extra)) == Fresh(call) <==>
            (if call.StringCall? then c.fieldsV.items == [] else c.fields.items == [])
  {
  }

  lemma FillTidy(c: Content, call: Call, extra: nat)
    requires Clean(c)
    ensures Tidy(FillContent(c, call, extra)) && Shown(FillContent(c, call, extra)) == Fresh(call)
  {
    FillExact(c, call, extra);
    var t := FillContent(c, call, extra);
    assert c.fields.items + c.fields.spare == c.fields.spare;
    assert c.fieldsV.items + c.fieldsV.spare == c.fieldsV.spare;
  }

  /** One entry used over and over; each use ends with Reset. */
  function Used(c: Content, history: seq<(Call, nat)>): Content {
    if history == [] then c
    else
      var before := Used(c, history[..|history| - 1]);
      var (call, extra) := history[|history| - 1];
      ResetContent(FillContent(before, call, extra))
  }

  /** Whatever went through an entry before, the next call shows as in a new
      entry. */
  lemma {:induction false} ReuseInvisible(history: seq<(Call, nat)>, call: Call, extra: nat)
    ensures Clean(Used(NEW_CONTENT, history))
    ensures Shown(FillContent(Used(NEW_CONTENT, history), call, extra)) == Fresh(call)
  {
    if history != [] {
      var n := |history| - 1;
      ReuseInvisible(history[..n], history[n].0, history[n].1);
      var before := Used(NEW_CONTENT, history[..n]);
      FillTidy(before, history[n].0, history[n].1);
      ResetCleans(FillContent(before, history[n].0, history[n].1));
    }
    FillExact(Used(NEW_CONTENT, history), call, extra);
  }

  // -- Entries on the heap --------------------------------------------------------------------

  /** Who may touch an entry: exactly one of these. */
  datatype Owner = Nobody | Pool | Producer(id: nat) | Channel(ticket: nat)

  class Entry {
    var level: nat
    var logType: bytes
    var msg: Slice<byte>
    var file: bytes
    var line: int64
    var fields: Slice<bytes>
    var fieldsV: Slice<Field>
    var profile: Option<Baked>
    ghost var owner: Owner

    ghost function State(): Content
      reads this`level, this`logType, this`msg, this`file, this`line, this`fields, this`fieldsV, this`profile
    {
      Content(level, logType, msg, file, line, fields, fieldsV, profile)
    }

    ghost predicate IsClean()
      reads this`level, this`logType, this`msg, this`file, this`line, this`fields, this`fieldsV, this`profile
    {
      Clean(State())
    }

    ghost predicate Shows(call: Call)
      reads this`level, this`logType, this`msg, this`file, this`line, this`fields, this`fieldsV, this`profile
    {
      Tidy(State()) && Shown(State()) == Fresh(call)
    }

    constructor ()
      ensures State() == NEW_CONTENT && IsClean() && owner == Nobody
    {
      level, logType, msg, file, line := 0, [], Slice([], []), [], 0;
      fields, fieldsV, profile, owner := Slice([], []), Slice([], []), None, Nobody;
    }

    method Reset()
      modifies this
      ensures State() == ResetContent(old(State())) && owner == old(owner)
      ensures forall call :: old(Shows(call)) ==> IsClean()
    {
      hide Clean, Tidy, Fresh;
      if Tidy(State()) {
        ResetCleans(State());
      }
      level := 0;
      logType := [];
      file := [];
      line := 0;
      profile := None;
      if msg.Cap() > MAX_MSG {
        msg := Slice([], []);
      } else {
        msg := Slice([], msg.items + msg.spare);
      }
      if fields.Cap() > MAX_FIELDS {
        fields := Slice([], []);
      } else {
        fields := Slice(Zeros([], |fields.items|), fields.spare);
        fields := Slice([], fields.items + fields.spare);
      }
      if fieldsV.Cap() > MAX_FIELDS {
        fieldsV := Slice([], []);
      } else {
        fieldsV := Slice(Zeros(ZERO_FIELD, |fieldsV.items|), fieldsV.spare);
        fieldsV := Slice([], fieldsV.items + fieldsV.spare);
      }
    }

    /** The assignments of log (string fields) and logTyped (typed fields). */
    method Fill(call: Call, extra: nat)
      modifies this
      ensures State() == FillContent(old(State()), call, extra) && owner == old(owner)
      ensures old(IsClean()) ==> Shows(call)
    {
      hide Clean, Tidy, Fresh;
      if IsClean() {
        FillTidy(State(), call, extra);
      }
      level := call.level;
      logType := call.logType;
      msg := Overwrite(msg, call.msg, '\0', extra);
      file := call.file;
      line := call.line;
      match call {
        case StringCall(_, _, _, _, _, xs, _) => fields := Overwrite(fields, xs, [], extra);
        case TypedCall(_, _, _, _, _, xs, _) => fieldsV := Overwrite(fieldsV, xs, ZERO_FIELD, extra);
      }
      profile := call.profile;
    }
  }

  // -- The formatter's view -------------------------------------------------------------------

  datatype Config = Config(json: bool, format: Format, threshold: nat)

  /** The line of a message: what formatEntryAt appends. */
  function LineOf(c: Config, ts: bytes, m: Message): bytes {
    if c.json then JsonLine.Line(c.format, m.Record(), ts, m.StaticFields())
    else TextLine.Line(c.format, m.Record(), ts)
  }

  /** The line shows the call: its own data and the static fields of its profile
      as a JSON object or as text, and a newline. */
  ghost predicate LineShows(c: Config, ts: bytes, call: Call, line: bytes) {
    var fields := if call.StringCall? then call.fields else [];
    var fieldsV := if call.TypedCall? then call.fieldsV else [];
    var e := Record(call.level, call.logType, call.msg, call.file, call.line, fields, fieldsV, [], []);
    var baked := if call.profile.Some? then call.profile.value.staticFields else [];
    if c.json then
      && line != [] && JsonString.NoControls(line[..|line| - 1])
      && exists ms ::
           Json.ParseValue(line) == Some((Json.Object(ms), "\n")) && Reading.ShowsRecord(c.format, e, ts, baked, ms)
    else exists parts :: Reading.ShowsTextLine(c.format, e, ts, baked, line, parts)
  }

  /** The line of every call shows it, in the configured format. */
  lemma CallShown(c: Config, ts: bytes, call: Call)
    requires c.format.Valid() && (c.json ==> JsonLine.TimestampOk(c.format, ts))
    ensures LineShows(c, ts, call, LineOf(c, ts, Fresh(call)))
  {
    hide Reading.ShowsRecord, Reading.ShowsTextLine, Json.ParseValue, JsonLine.Line, TextLine.Line;
    hide Json.EmitTail, JsonLine.StringMembers, TextLine.PrefixText, JsonString.NoControls, Format.Valid;
    var m := Fresh(call);
    var baked := m.StaticFields();
    var e := m.Record();
    if c.json {
      PlainJson(c.format, e, ts, baked);
      var ms := Reading.LineReads(c.format, Plain(e), ts, baked);
      assert JsonLine.Line(c.format, Plain(e), ts, baked) != [] by { LineNotEmpty(c.format, Plain(e), ts, baked); }
    } else {
      TextLine.PrefixTextNothing();
      var parts := Reading.TextLineReads(c.format, e, ts, baked);
      PlainText(c.format, e, ts, baked, TextLine.Line(c.format, e, ts), parts);
    }
  }

  /** A record without the prefixes, which repeat the profile's fields. */
  function Plain(e: Record): Record {
    e.(textPrefix := [], jsonPrefix := [])
  }

  lemma PlainJson(c: Format, e: Record, ts: bytes, baked: seq<bytes>)
    ensures JsonLine.Line(c, e, ts, baked) == JsonLine.Line(c, Plain(e), ts, baked)
  {
    hide JsonLine.TypedMembers, JsonLine.StringMembers;
  }

  lemma PlainText(c: Format, e: Record, ts: bytes, baked: seq<bytes>, line: bytes, parts: Reading.TextParts)
    requires Reading.ShowsTextLine(c, e, ts, baked, line, parts)
    ensures Reading.ShowsTextLine(c, Plain(e), ts, baked, line, parts)
  {
    hide Reading.ShowsTextPairs, Reading.ShowsTextFields, Reading.ShowsBytes, Reading.Integer;
  }

  lemma LineNotEmpty(c: Format, e: Record, ts: bytes, baked: seq<bytes>)
    ensures JsonLine.Line(c, e, ts, baked) != []
  {
    hide Json.Emit, JsonLine.Expected;
  }

  /** formatEntryAt */
  method FormatEntryAt(buf: bytes, c: Config, ts: bytes, e: Entry) returns (r: bytes)
    requires c.json ==> JsonLine.TimestampOk(c.format, ts)
    ensures r == buf + LineOf(c, ts, Shown(e.State()))
    ensures forall call :: e.Shows(call) ==> r == buf + LineOf(c, ts, Fresh(call))
    ensures forall call :: e.Shows(call) && c.format.Valid() ==> LineShows(c, ts, call, r[|buf|..])
  {
    hide LineShows, Format.Valid;
    ghost var m := Shown(e.State());
    forall call | e.Shows(call) && c.format.Valid()
      ensures LineShows(c, ts, call, LineOf(c, ts, m))
    {
      CallShown(c, ts, call);
    }
    var record := Record(e.level, e.logType, e.msg.items, e.file, e.line, e.fields.items, e.fieldsV.items,
                         if e.profile.Some? then e.profile.value.TextPrefix() else [],
                         if e.profile.Some? then e.profile.value.JsonPrefix() else []);
    assert record == m.Record();
    if c.json {
      assert record.jsonPrefix == Json.EmitTail(JsonLine.StringMembers(m.StaticFields())) by {
        JsonLine.NoMembers();
      }
      r := JsonLine.FormatJSON(buf, c.format, record, ts, m.StaticFields());
    } else {
      r := TextLine.FormatText(buf, c.format, record, ts);
    }
  }

  /** The lines of the calls, in order. */
  function Lines(c: Config, ts: bytes, calls: seq<Call>): (ls: seq<bytes>)
    ensures |ls| == |calls| && forall i :: 0 <= i < |calls| ==> ls[i] == LineOf(c, ts, Fresh(calls[i]))
  {
    seq(|calls|, i requires 0 <= i < |calls| => LineOf(c, ts, Fresh(calls[i])))
  }

  /** Every line shows its call. */
  ghost predicate LinesShow(c: Config, ts: bytes, calls: seq<Call>, lines: seq<bytes>) {
    |lines| == |calls| && forall i :: 0 <= i < |calls| ==> LineShows(c, ts, calls[i], lines[i])
  }

  lemma LinesShown(c: Config, ts: bytes, calls: seq<Call>)
    requires c.format.Valid() && (c.json ==> JsonLine.TimestampOk(c.format, ts))
    ensures LinesShow(c, ts, calls, Lines(c, ts, calls))
  {
    hide LineShows, LineOf, Fresh, Format.Valid, JsonLine.TimestampOk;
    forall i | 0 <= i < |calls|
      ensures LineShows(c, ts, calls[i], Lines(c, ts, calls)[i])
    {
      CallShown(c, ts, calls[i]);
    }
  }

  lemma FirstPart(parts: seq<bytes>)
    requires parts != []
    ensures Concat(parts[..1]) == parts[0]
  {
    assert parts[..1] == [] + [parts[0]];
    ConcatAppend([], parts[0]);
  }

  lemma NextPart(parts: seq<bytes>, n: nat)
    requires n < |parts|
    ensures Concat(parts[..n + 1]) == Concat(parts[..n]) + parts[n]
  {
    hide Concat;
    assert parts[..n + 1] == parts[..n] + [parts[n]];
    ConcatAppend(parts[..n], parts[n]);
  }

  // -- The system ---------------------------------------------------------------------------------

  /** A producer's turn: a log call, or another try for the entry it holds.
      `wait`: an entry that finds the channel full is kept for later. */
  datatype Attempt = Attempt(id: nat, call: Call, extra: nat, reuse: bool, wait: bool)

  /** What producers did meanwhile: the calls that reached the channel with
      their entries, and the entries dropped. */
  datatype Arrived = Arrived(calls: seq<Call>, entries: seq<Entry>, dropped: seq<Entry>)

  const NOTHING := Arrived([], [], [])

  function Together(a: Arrived, b: Arrived): Arrived {
    Arrived(a.calls + b.calls, a.entries + b.entries, a.dropped + b.dropped)
  }

  /** The channel with the calls its entries stand for, all entries, the pool
      and the drop counter. */
  datatype Snapshot = Snapshot(sent: seq<Call>, queue: seq<Entry>, entries: set<Entry>, pool: set<Entry>, drops: nat)

  /** Between s and t `late` happened and the worker took `done`, in the entries
      `out`: the channel is a queue, no entry is lost, and only entries taken
      or dropped go to the pool. */
  ghost predicate Moved(s: Snapshot, t: Snapshot, late: Arrived, done: seq<Call>, out: seq<Entry>) {
    && s.sent + late.calls == done + t.sent && |done| == |out|
    && s.queue + late.entries == out + t.queue && |late.entries| == |late.calls|
    && s.entries <= t.entries
    && t.pool <= s.pool + Members(late.dropped) + Members(out)
    && t.drops == s.drops + |late.dropped|
  }

  lemma MovedTwice(s: Snapshot, t: Snapshot, late: Arrived, done: seq<Call>, out: seq<Entry>,
                   u: Snapshot, more: Arrived, one: seq<Call>, gone: seq<Entry>)
    requires Moved(s, t, late, done, out) && Moved(t, u, more, one, gone)
    ensures Moved(s, u, Together(late, more), done + one, out + gone)
    ensures one == [] ==> Moved(s, u, Together(late, more), done, out)
    ensures late == NOTHING && more == NOTHING ==> Together(late, more) == NOTHING
  {
    hide Members;
    Moves(s.sent, late.calls, done, t.sent, more.calls, one, u.sent);
    Moves(s.queue, late.entries, out, t.queue, more.entries, gone, u.queue);
    MoreMembers(late.dropped, more.dropped);
    MoreMembers(out, gone);
    assert one == [] ==> done + one == done && out + gone == out;
  }

  /** Entries between pool, producers, channel and worker. Every method is one
      atomic step, so Valid holds in every interleaving of producers and
      worker. `filled` and `sent` are the calls the entries stand for. */
  class System {
    const config: Config
    const capacity: nat
    var pool: set<Entry>
    var held: map<nat, Entry>
    var queue: seq<Entry>
    var drops: nat
    var filled: map<nat, Call>
    ghost var sent: seq<Call>
    ghost var taken: nat

    ghost predicate HeldOk(i: nat)
      requires i in held
      reads this, held[i]
    {
      && held[i].owner == Producer(i)
      && (if i in filled then held[i].Shows(filled[i]) else held[i].IsClean())
    }

    ghost predicate QueuedOk(k: nat)
      requires k < |queue|
      reads this, queue[k]
    {
      && queue[k].owner == Channel(taken + k)
      && k < |sent| && queue[k].Shows(sent[k])
    }

    ghost predicate PooledOk(e: Entry)
      reads e
    {
      e.owner == Pool && e.IsClean()
    }

    /** Every entry has one owner, every pooled entry is clean, and every queued
        entry shows exactly the call it was sent for. */
    ghost predicate Valid()
      reads this, pool, held.Values, queue
    {
      && |sent| == |queue| <= capacity
      && (forall e :: e in pool ==> PooledOk(e))
      && (forall i :: i in held ==> HeldOk(i))
      && (forall k :: 0 <= k < |queue| ==> QueuedOk(k))
    }

    /** Every entry, whoever has it. */
    ghost function Entries(): set<Entry>
      reads this
    {
      pool + held.Values + Members(queue)
    }

    ghost function Now(): Snapshot
      reads this
    {
      Snapshot(sent, queue, Entries(), pool, drops)
    }

    lemma OneCallEach()
      requires Valid()
      ensures |sent| == |queue| <= capacity
    {
    }

    constructor (config: Config, capacity: nat)
      ensures Valid() && this.config == config && this.capacity == capacity
      ensures pool == {} && held == map[] && queue == [] && sent == [] && filled == map[] && drops == 0
    {
      this.config, this.capacity := config, capacity;
      pool, held, queue, drops := {}, map[], [], 0;
      filled, sent, taken := map[], [], 0;
    }

    /** pool.Get: any pooled entry, or a new one. */
    method Acquire(i: nat, reuse: bool)
      requires Valid() && i !in held
      modifies this`pool, this`held, this`filled, pool
      ensures Valid() && held.Keys == old(held.Keys) + {i} && filled == old(filled) - {i}
      ensures forall j :: j in old(held) ==> held[j] == old(held[j])
      ensures held[i] in old(pool) || fresh(held[i])
      ensures pool == old(pool) - {held[i]}
    {
      hide Entry.IsClean, Entry.Shows, Entry.State;
      var e: Entry;
      if reuse && pool != {} {
        e :| e in pool;
        pool := pool - {e};
      } else {
        e := new Entry();
      }
      e.owner := Producer(i);
      held := held[i := e];
      filled := filled - {i};
      forall x | x in pool
        ensures PooledOk(x)
      {
        assert x in old(pool) ==> old(PooledOk(x));
      }
      assert forall j :: j in held ==> HeldOk(j);
      forall k | 0 <= k < |queue|
        ensures QueuedOk(k)
      {
        assert old(QueuedOk(k));
      }
    }

    /** The producer writes its entry. */
    method Fill(i: nat, call: Call, extra: nat)
      requires Valid() && i in held && i !in filled
      modifies this`filled, held[i]
      ensures Valid() && filled == old(filled)[i := call]
    {
      hide Entry.IsClean, Entry.Shows, Entry.State;
      held[i].Fill(call, extra);
      filled := filled[i := call];
      forall x | x in pool
        ensures PooledOk(x)
      {
        assert x in old(pool) ==> old(PooledOk(x));
      }
      assert forall j :: j in held ==> HeldOk(j);
      forall k | 0 <= k < |queue|
        ensures QueuedOk(k)
      {
        assert old(QueuedOk(k));
      }
    }

    /** One attempt to send: an entry goes to the end of the channel, or stays
        with its producer if the channel is full. */
    method TrySend(i: nat) returns (ok: bool)
      requires Valid() && i in held && i in filled
      modifies this`held, this`queue, this`filled, this`sent, held[i]
      ensures Valid() && ok == (old(|queue|) < capacity)
      ensures ok ==> held == old(held) - {i} && filled == old(filled) - {i}
                     && sent == old(sent) + [old(filled[i])] && queue == old(queue) + [old(held[i])]
      ensures !ok ==> unchanged(this) && unchanged(old(held[i]))
    {
      hide Entry.IsClean, Entry.Shows, Entry.State;
      ok := |queue| < capacity;
      if ok {
        var e := held[i];
        held := held - {i};
        e.owner := Channel(taken + |queue|);
        queue := queue + [e];
        sent := sent + [filled[i]];
        filled := filled - {i};
        forall x | x in pool
          ensures PooledOk(x)
        {
          assert old(PooledOk(x));
        }
        forall j | j in held
          ensures HeldOk(j)
        {
          assert old(HeldOk(j));
        }
        forall k | 0 <= k < |queue|
          ensures QueuedOk(k)
        {
          assert k < old(|queue|) ==> old(QueuedOk(k));
        }
      }
    }

    /** The entry is counted as dropped and goes back to the pool, clean. */
    method Drop(i: nat)
      requires Valid() && i in held && i in filled
      modifies this`pool, this`held, this`drops, this`filled, held[i]
      ensures Valid() && held == old(held) - {i} && filled == old(filled) - {i}
      ensures drops == old(drops) + 1 && pool == old(pool) + {old(held[i])}
    {
      hide Entry.IsClean, Entry.Shows, Entry.State;
      var e := held[i];
      held := held - {i};
      drops := drops + 1;
      assert e.Shows(filled[i]);
      e.Reset();
      assert e.IsClean();
      pool := pool + {e};
      e.owner := Pool;
      filled := filled - {i};
      forall x | x in pool
        ensures PooledOk(x)
      {
        assert x in old(pool) ==> old(PooledOk(x));
      }
      forall j | j in held
        ensures HeldOk(j)
      {
        assert old(HeldOk(j));
      }
      forall k | 0 <= k < |queue|
        ensures QueuedOk(k)
      {
        assert old(QueuedOk(k));
      }
    }

    /** dispatch without waiting. An ERROR entry that may wait is held by its
        producer after a failed TrySend; the other methods run meanwhile, until
        another TrySend succeeds or the timeout ends in Drop. */
    method Dispatch(i: nat)
      requires Valid() && i in held && i in filled
      modifies this`pool, this`held, this`queue, this`drops, this`filled, this`sent, held[i]
      ensures Valid() && held == old(held) - {i} && filled == old(filled) - {i}
      ensures var room := old(|queue|) < capacity;
              && sent == old(sent) + (if room then [old(filled[i])] else [])
              && drops == old(drops) + (if room then 0 else 1)
              && queue == old(queue) + (if room then [old(held[i])] else [])
              && pool == old(pool) + (if room then {} else {old(held[i])})
    {
      var ok := TrySend(i);
      if !ok {
        Drop(i);
      }
    }

    /** The worker receives the oldest entry, formats it and recycles it: the
        line depends on the arguments of the call alone. */
    method FormatNext(buf: bytes, ts: bytes) returns (r: bytes)
      requires Valid() && queue != [] && (config.json ==> JsonLine.TimestampOk(config.format, ts))
      modifies this`pool, this`queue, this`sent, this`taken, queue[0]
      ensures Valid() && r == buf + LineOf(config, ts, Fresh(old(sent[0])))
      ensures config.format.Valid() ==> LineShows(config, ts, old(sent[0]), r[|buf|..])
      ensures sent == old(sent[1..]) && queue == old(queue[1..]) && pool == old(pool) + {old(queue[0])}
    {
      hide Entry.IsClean, Entry.Shows, Entry.State, LineOf, Fresh, HeldOk, PooledOk, LineShows, Format.Valid;
      assert QueuedOk(0);
      r := FormatEntryAt(buf, config, ts, queue[0]);
      assert queue[0].Shows(sent[0]);
      Recycle();
    }

    /** Reset and pool.Put of the oldest entry. */
    method Recycle()
      requires Valid() && queue != []
      modifies this`pool, this`queue, this`sent, this`taken, queue[0]
      ensures Valid()
      ensures sent == old(sent[1..]) && queue == old(queue[1..]) && pool == old(pool) + {old(queue[0])}
    {
      hide Entry.IsClean, Entry.Shows, Entry.State;
      var e := queue[0];
      assert QueuedOk(0);
      assert e.Shows(sent[0]);
      e.Reset();
      assert e.IsClean();
      e.owner := Pool;
      queue := queue[1..];
      pool := pool + {e};
      sent := sent[1..];
      taken := taken + 1;
      forall x | x in pool
        ensures PooledOk(x)
      {
        assert x in old(pool) ==> old(PooledOk(x));
      }
      forall j | j in held
        ensures HeldOk(j)
      {
        assert old(HeldOk(j));
      }
      forall k | 0 <= k < |queue|
        ensures QueuedOk(k)
      {
        assert old(QueuedOk(k + 1));
      }
    }

    /** What the producer has to send: the call it waits with, or the new one. */
    ghost function Pending(a: Attempt): Call
      reads this
    {
      if a.id in held && a.id in filled then filled[a.id] else a.call
    }

    /** The producer has a filled entry: the one it waits with, or a new one. */
    method Prepare(a: Attempt)
      requires Valid()
      modifies this`pool, this`held, this`filled, Entries()
      ensures Valid() && a.id in held && a.id in filled && filled[a.id] == old(Pending(a)) && pool <= old(pool)
      ensures old(Entries()) <= Entries() && forall e :: e in Entries() && e !in old(Entries()) ==> fresh(e)
    {
      hide HeldOk, QueuedOk, PooledOk;
      if a.id !in held {
        Acquire(a.id, a.reuse);
        ValuesMore(old(held), held, a.id);
      }
      if a.id !in filled {
        Fill(a.id, a.call, a.extra);
      }
    }

    /** One turn of a producer: it acquires and fills an entry unless it still
        holds one, tries to send it, and drops it unless it may wait. */
    method Attempt(a: Attempt) returns (ghost late: Arrived)
      requires Valid()
      modifies this`pool, this`held, this`queue, this`drops, this`filled, this`sent, Entries()
      ensures Valid() && Moved(old(Now()), Now(), late, [], [])
      ensures forall e :: e in Entries() && e !in old(Entries()) ==> fresh(e)
      ensures if old(|queue|) < capacity then late.calls == [old(Pending(a))] && late.dropped == []
              else late.calls == [] && |late.dropped| == (if a.wait then 0 else 1)
    {
      hide HeldOk, QueuedOk, PooledOk, Members;
      late := NOTHING;
      Prepare(a);
      ghost var e, call := held[a.id], filled[a.id];
      ValuesLess(held, a.id);
      OneMember(e);
      MoreMembers(queue, [e]);
      assert e in held.Values && e in Entries();
      var ok := TrySend(a.id);
      if ok {
        late := Arrived([call], [e], []);
      } else if !a.wait {
        Drop(a.id);
        late := Arrived([], [], [e]);
      }
    }

    /** Producers take turns in this order. */
    method Attempts(turns: seq<Attempt>) returns (ghost late: Arrived)
      requires Valid()
      modifies this`pool, this`held, this`queue, this`drops, this`filled, this`sent, Entries()
      ensures Valid() && Moved(old(Now()), Now(), late, [], [])
      ensures forall e :: e in Entries() && e !in old(Entries()) ==> fresh(e)
      ensures turns == [] ==> late == NOTHING
    {
      hide Valid, Moved, Entries;
      late := NOTHING;
      NotMoved(Now());
      for n := 0 to |turns|
        invariant Valid() && Moved(old(Now()), Now(), late, [], [])
        invariant forall e :: e in Entries() && e !in old(Entries()) ==> fresh(e)
        invariant n == 0 ==> late == NOTHING
      {
        ghost var mid := Now();
        ghost var one := Attempt(turns[n]);
        MovedTwice(old(Now()), mid, late, [], [], Now(), one, [], []);
        late := Together(late, one);
      }
    }

    /** One turn of formatBatch: after some attempts, the oldest entry if there
        is one. */
    method FormatMore(buf: bytes, ts: bytes, turns: seq<Attempt>)
      returns (r: bytes, took: bool, ghost late: Arrived, ghost done: seq<Call>, ghost out: seq<Entry>)
      requires Valid() && (config.json ==> JsonLine.TimestampOk(config.format, ts))
      modifies this`pool, this`held, this`queue, this`drops, this`filled, this`sent, this`taken, Entries()
      ensures Valid() && Moved(old(Now()), Now(), late, done, out)
      ensures forall e :: e in Entries() && e !in old(Entries()) ==> fresh(e)
      ensures |done| == (if took then 1 else 0) && (!took ==> sent == []) && (turns == [] ==> late == NOTHING)
      ensures r == if took then buf + LineOf(config, ts, Fresh(done[0])) else buf
    {
      hide HeldOk, QueuedOk, PooledOk, LineOf, Fresh, Members, JsonLine.TimestampOk;
      late := Attempts(turns);
      r, took, done, out := buf, queue != [], [], [];
      if took {
        ghost var mid := Now();
        done, out := [sent[0]], [queue[0]];
        OneMember(queue[0]);
        MoreMembers([queue[0]], queue[1..]);
        assert queue == [queue[0]] + queue[1..];
        assert queue[0] in Entries();
        r := FormatNext(buf, ts);
        OneTaken(mid, Now());
        MovedTwice(old(Now()), mid, late, [], [], Now(), NOTHING, done, out);
        assert Together(late, NOTHING) == late && [] + done == done && [] + out == out;
      }
    }

    /** The next turn of a batch that started at `first` with buf. */
    method FormatTurn(ghost buf: bytes, r: bytes, ts: bytes, turns: seq<Attempt>, ghost first: Snapshot,
                      ghost late: Arrived, ghost done: seq<Call>, ghost out: seq<Entry>)
      returns (r': bytes, took: bool, ghost late': Arrived, ghost done': seq<Call>, ghost out': seq<Entry>)
      requires Valid() && (config.json ==> JsonLine.TimestampOk(config.format, ts))
      requires Moved(first, Now(), late, done, out)
      requires |r| < config.threshold && Formatted(config, ts, buf, r, done)
      modifies this`pool, this`held, this`queue, this`drops, this`filled, this`sent, this`taken, Entries()
      ensures Valid() && Moved(first, Now(), late', done', out')
      ensures forall e :: e in Entries() && e !in old(Entries()) ==> fresh(e)
      ensures |done'| == |done| + (if took then 1 else 0) && (!took ==> sent == [])
      ensures turns == [] && late == NOTHING ==> late' == NOTHING
      ensures Formatted(config, ts, buf, r', done')
    {
      hide Valid, Entries, Moved, Together, LineOf, Fresh, Formatted, JsonLine.TimestampOk;
      ghost var mid := Now();
      ghost var more, one, gone;
      r', took, more, one, gone := FormatMore(r, ts, turns);
      MovedTwice(first, mid, late, done, out, Now(), more, one, gone);
      GrowLines(config, ts, buf, r, done, r', one);
      late', done', out' := Together(late, more), done + one, out + gone;
    }

    /** formatBatch. `turns[n]` are the producers' turns after n entries were
        formatted. It formats the oldest entries of those queued or arrived, so
        many that they fill the batch, fill the buffer or empty the channel, and
        no more than that. */
    method FormatBatch(buf: bytes, ts: bytes, turns: seq<seq<Attempt>>)
      returns (r: bytes, ghost late: Arrived, ghost done: seq<Call>, ghost out: seq<Entry>)
      requires Valid() && queue != [] && (config.json ==> JsonLine.TimestampOk(config.format, ts))
      modifies this`pool, this`held, this`queue, this`drops, this`filled, this`sent, this`taken, Entries()
      ensures Valid() && Moved(old(Now()), Now(), late, done, out)
      ensures forall e :: e in Entries() && e !in old(Entries()) ==> fresh(e)
      ensures turns == [] ==> late == NOTHING
      ensures r == buf + Concat(Lines(config, ts, done))
      ensures config.format.Valid() ==> LinesShow(config, ts, done, Lines(config, ts, done))
      ensures EndsBatch(config.threshold, buf, Lines(config, ts, done + sent), |done|)
    {
      assert |sent| == |queue|;
      hide Valid, Entries, Moved, LineOf, Fresh, Formatted, EndsBatch, JsonLine.TimestampOk, Format.Valid, LinesShow;
      ghost var first := Now();
      var took: bool;
      r, took, late, done, out := FormatMore(buf, ts, []);
      SomeTaken(first, Now(), late, done, out);
      OneLine(config, ts, buf, r, done);
      hide Now;
      var n := 1;
      while n < Pipeline.BATCH_MAX && |r| < config.threshold
        invariant Valid() && Moved(first, Now(), late, done, out)
        invariant forall e :: e in Entries() && e !in old(Entries()) ==> fresh(e)
        invariant 1 <= n == |done| <= Pipeline.BATCH_MAX && (turns == [] ==> late == NOTHING)
        invariant Formatted(config, ts, buf, r, done)
      {
        r, took, late, done, out :=
          FormatTurn(buf, r, ts, if n < |turns| then turns[n] else [], first, late, done, out);
        if !took {
          break;
        }
        n := n + 1;
      }
      BatchEnds(config, ts, buf, r, done, sent);
      if config.format.Valid() {
        LinesShown(config, ts, done);
      }
    }
  }

  /** A batch ends after k lines: k is the least number that fills the batch or
      the buffer or takes everything queued. */
  ghost predicate EndsBatch(threshold: nat, buf: bytes, lines: seq<bytes>, k: nat) {
    && 1 <= k <= |lines| && k <= 128
    && (forall j :: 1 <= j < k ==> |buf + Concat(lines[..j])| < threshold)
    && (k == 128 || |buf + Concat(lines[..k])| >= threshold || k == |lines|)
  }

  lemma NotMoved(s: Snapshot)
    ensures Moved(s, s, NOTHING, [], [])
  {
  }

  lemma OneTaken(s: Snapshot, t: Snapshot)
    requires s.queue != [] && s.sent != [] && t.sent == s.sent[1..] && t.queue == s.queue[1..] && t.drops == s.drops
    requires s.entries <= t.entries && t.pool == s.pool + {s.queue[0]}
    ensures Moved(s, t, NOTHING, [s.sent[0]], [s.queue[0]])
  {
  }

  /** A receive that finds nothing leaves nothing. */
  lemma SomeTaken(s: Snapshot, t: Snapshot, late: Arrived, done: seq<Call>, out: seq<Entry>)
    requires Moved(s, t, late, done, out) && s.sent != [] && (done == [] ==> t.sent == [])
    ensures done != []
  {
    assert |s.sent + late.calls| > 0;
  }

  /** The list grows by `more` and `took` is taken from what was left of it. */
  lemma Moves<T>(first: seq<T>, late: seq<T>, done: seq<T>, rest: seq<T>, more: seq<T>, took: seq<T>, left: seq<T>)
    requires first + late == done + rest && rest + more == took + left
    ensures first + (late + more) == (done + took) + left
  {
    Assoc(first, late, more);
    Assoc(done, rest, more);
    Assoc(done, took, left);
  }

  /** r is buf with the lines of the calls, and before the last of them it was
      below the threshold. */
  ghost predicate Formatted(c: Config, ts: bytes, buf: bytes, r: bytes, calls: seq<Call>) {
    && r == buf + Concat(Lines(c, ts, calls))
    && forall j :: 1 <= j < |calls| ==> |buf + Concat(Lines(c, ts, calls)[..j])| < c.threshold
  }

  lemma OneLine(c: Config, ts: bytes, buf: bytes, r: bytes, calls: seq<Call>)
    requires |calls| == 1 && r == buf + LineOf(c, ts, Fresh(calls[0]))
    ensures Formatted(c, ts, buf, r, calls)
  {
    hide LineOf, Fresh;
    FirstPart(Lines(c, ts, calls));
    assert Lines(c, ts, calls)[..1] == Lines(c, ts, calls);
  }

  lemma GrowLines(c: Config, ts: bytes, buf: bytes, r: bytes, done: seq<Call>, r': bytes, one: seq<Call>)
    requires |one| <= 1 && |r| < c.threshold && Formatted(c, ts, buf, r, done)
    requires r' == if one == [] then r else r + LineOf(c, ts, Fresh(one[0]))
    ensures Formatted(c, ts, buf, r', done + one)
  {
    hide LineOf, Fresh, Concat;
    LinesGrow(c, ts, done, one);
    assert Lines(c, ts, done)[..|done|] == Lines(c, ts, done);
    if one == [] {
      assert done + one == done;
    } else {
      var line := LineOf(c, ts, Fresh(one[0]));
      assert Lines(c, ts, done + one) == Lines(c, ts, done) + [line];
      ConcatAppend(Lines(c, ts, done), line);
      Assoc(buf, Concat(Lines(c, ts, done)), line);
    }
  }

  lemma BatchEnds(c: Config, ts: bytes, buf: bytes, r: bytes, done: seq<Call>, rest: seq<Call>)
    requires Formatted(c, ts, buf, r, done) && 1 <= |done| <= Pipeline.BATCH_MAX
    requires |done| == Pipeline.BATCH_MAX || |r| >= c.threshold || rest == []
    ensures EndsBatch(c.threshold, buf, Lines(c, ts, done + rest), |done|)
    ensures r == buf + Concat(Lines(c, ts, done + rest)[..|done|]) == buf + Concat(Lines(c, ts, done))
  {
    hide LineOf, Fresh, Concat;
    LinesGrow(c, ts, done, rest);
    assert Lines(c, ts, done)[..|done|] == Lines(c, ts, done);
  }

  function Members(entries: seq<Entry>): set<Entry> {
    set e | e in entries
  }

  lemma OneMember(e: Entry)
    ensures Members([e]) == {e}
  {
  }

  lemma MoreMembers(a: seq<Entry>, b: seq<Entry>)
    ensures Members(a + b) == Members(a) + Members(b)
  {
  }

  lemma ValuesMore(m: map<nat, Entry>, m': map<nat, Entry>, i: nat)
    requires i !in m && m'.Keys == m.Keys + {i} && forall j :: j in m ==> m'[j] == m[j]
    ensures m'.Values == m.Values + {m'[i]}
  {
  }

  lemma ValuesLess(m: map<nat, Entry>, i: nat)
    requires i in m
    ensures m.Values == (m - {i}).Values + {m[i]}
  {
    assert forall j :: j in m && j != i ==> j in m - {i};
  }

  lemma LinesGrow(c: Config, ts: bytes, calls: seq<Call>, more: seq<Call>)
    ensures forall j :: 0 <= j <= |calls| ==> Lines(c, ts, calls + more)[..j] == Lines(c, ts, calls)[..j]
  {
    hide LineOf, Fresh;
  }
}
