/** The copy-on-write profile registry of logger.go, as values: it refines a
    finite map from log types to profiles. */
module Registry {
  import opened Basics

  /** Above this many profiles a map replaces the linear scan. */
  const THRESHOLD: nat := 8

  /** One immutable registry snapshot. */
  datatype Snapshot<P> = Snapshot(names: seq<bytes>, profiles: seq<P>, lookup: Option<map<bytes, P>>)

  // -- Lookup -----------------------------------------------------------------------

  /** Index of a name in the array from i on; |names| if it is not there. */
  function Find(names: seq<bytes>, name: bytes, i: nat): (k: nat)
    requires i <= |names|
    ensures i <= k <= |names|
    ensures k < |names| ==> names[k] == name
    ensures forall j :: i <= j < k ==> names[j] != name
    decreases |names| - i
  {
    if i == |names| || names[i] == name then i else Find(names, name, i + 1)
  }

  function Get<P>(s: Option<Snapshot<P>>, name: bytes, default: P): P
    requires s.Some? ==> |s.value.names| == |s.value.profiles|
  {
    match s
    case None => default
    case Some(r) =>
      if r.lookup.Some? then (if name in r.lookup.value then r.lookup.value[name] else default)
      else
        var k := Find(r.names, name, 0);
        if k < |r.names| then r.profiles[k] else default
  }

  // -- Registration -------------------------------------------------------------------

  /** All pairs of the arrays; a later one wins. */
  function FullMap<P>(names: seq<bytes>, profiles: seq<P>): map<bytes, P>
    requires |names| == |profiles|
  {
    if names == [] then map[]
    else FullMap(names[..|names| - 1], profiles[..|names| - 1])[names[|names| - 1] := profiles[|names| - 1]]
  }

  function Register<P>(s: Option<Snapshot<P>>, name: bytes, p: P): (t: Snapshot<P>)
    requires s.Some? ==> |s.value.names| == |s.value.profiles|
    ensures |t.names| == |t.profiles|
  {
    match s
    case None => Snapshot([name], [p], None)
    case Some(prev) =>
      var k := Find(prev.names, name, 0);
      var names := if k < |prev.names| then prev.names else prev.names + [name];
      var profiles := if k < |prev.names| then prev.profiles[k := p] else prev.profiles + [p];
      var lookup :=
        if |names| > THRESHOLD then
          Some(if prev.lookup.Some? then prev.lookup.value[name := p] else FullMap(names, profiles))
        else None;
      Snapshot(names, profiles, lookup)
  }

  // -- Refinement ------------------------------------------------------------------------

  ghost predicate Ok<P(!new)>(s: Snapshot<P>) {
    && |s.names| == |s.profiles|
    && (forall i, j :: 0 <= i < j < |s.names| ==> s.names[i] != s.names[j])
    && (s.lookup.Some? <==> |s.names| > 8)
    && (s.lookup.Some? ==> Agrees(s.lookup.value, s.names, s.profiles))
  }

  /** The map holds exactly the pairs of the arrays. */
  ghost predicate Agrees<P>(m: map<bytes, P>, names: seq<bytes>, profiles: seq<P>)
    requires |names| == |profiles|
  {
    && (forall i :: 0 <= i < |names| ==> names[i] in m && m[names[i]] == profiles[i])
    && (forall name :: name in m ==> name in names)
  }

  lemma {:induction false} FullMapAgrees<P>(names: seq<bytes>, profiles: seq<P>)
    requires |names| == |profiles|
    requires forall i, j :: 0 <= i < j < |names| ==> names[i] != names[j]
    ensures Agrees(FullMap(names, profiles), names, profiles)
  {
    if names != [] {
      var n := |names| - 1;
      FullMapAgrees(names[..n], profiles[..n]);
      var m := FullMap(names[..n], profiles[..n]);
      forall i | 0 <= i < n
        ensures names[i] in m && m[names[i]] == profiles[i]
      {
        assert names[..n][i] == names[i] && profiles[..n][i] == profiles[i];
      }
      forall name | name in FullMap(names, profiles)
        ensures name in names
      {
        assert name in m ==> name in names[..n];
      }
    }
  }

  lemma RegisterKeepsOk<P(!new)>(s: Option<Snapshot<P>>, name: bytes, p: P)
    requires s.Some? ==> Ok(s.value)
    ensures Ok(Register(s, name, p))
  {
    var t := Register(s, name, p);
    if s.Some? {
      var prev := s.value;
      var k := Find(prev.names, name, 0);
      if |t.names| > THRESHOLD {
        if prev.lookup.Some? {
          var m := prev.lookup.value[name := p];
          forall i | 0 <= i < |t.names|
            ensures t.names[i] in m && m[t.names[i]] == t.profiles[i]
          {
            assert i < |prev.names| ==> prev.names[i] in prev.lookup.value;
          }
          forall x | x in m
            ensures x in t.names
          {
            if x == name {
              assert t.names[k] == name;
            } else {
              assert x in prev.names;
            }
          }
        } else {
          FullMapAgrees(t.names, t.profiles);
        }
      }
    }
  }

  /** Both lookup strategies read the arrays: what Get returns does not depend
      on whether the map is there. */
  lemma LookupIsScan<P(!new)>(s: Snapshot<P>, name: bytes, default: P)
    requires Ok(s)
    ensures Get(Some(s), name, default) ==
            var k := Find(s.names, name, 0); if k < |s.names| then s.profiles[k] else default
  {
    if s.lookup.Some? {
      var k := Find(s.names, name, 0);
      if k < |s.names| {
        assert s.names[k] in s.lookup.value;
      } else {
        assert name in s.lookup.value ==> name in s.names;
      }
    }
  }

  /** Registering changes the answer for one name only. */
  lemma GetAfterRegister<P(!new)>(s: Option<Snapshot<P>>, name: bytes, p: P, other: bytes, default: P)
    requires s.Some? ==> Ok(s.value)
    ensures Get(Some(Register(s, name, p)), other, default) ==
            if other == name then p else Get(s, other, default)
  {
    RegisterKeepsOk(s, name, p);
    var t := Register(s, name, p);
    LookupIsScan(t, other, default);
    if s.Some? {
      LookupIsScan(s.value, other, default);
      var k := Find(s.value.names, name, 0);
      var i, j := Find(s.value.names, other, 0), Find(t.names, other, 0);
      if i < |s.value.names| {
        assert t.names[i] == other;
      }
    }
  }

  function RegisterAll<P>(calls: seq<(bytes, P)>): (s: Option<Snapshot<P>>)
    ensures s.Some? ==> |s.value.names| == |s.value.profiles|
  {
    if calls == [] then None
    else Some(Register(RegisterAll(calls[..|calls| - 1]), calls[|calls| - 1].0, calls[|calls| - 1].1))
  }

  /** The finite map the registry stands for. */
  function AsMap<P>(calls: seq<(bytes, P)>): map<bytes, P> {
    if calls == [] then map[]
    else AsMap(calls[..|calls| - 1])[calls[|calls| - 1].0 := calls[|calls| - 1].1]
  }

  /** After any calls of RegisterSub: a lookup returns the profile registered
      last for the name, or the default; names are distinct and are exactly
      the names registered; and the map is there exactly above the threshold. */
  lemma {:induction false} RefinesMap<P(!new)>(calls: seq<(bytes, P)>, name: bytes, default: P)
    ensures var s := RegisterAll(calls);
            && (s.Some? ==> Ok(s.value) && |s.value.names| == |AsMap(calls)|)
            && (s.None? <==> calls == [])
            && Get(s, name, default) == (if name in AsMap(calls) then AsMap(calls)[name] else default)
            && (s.Some? ==> (name in s.value.names <==> name in AsMap(calls)))
  {
    if calls != [] {
      var before := calls[..|calls| - 1];
      var (n, p) := calls[|calls| - 1];
      RefinesMap(before, name, default);
      RefinesMap(before, n, default);
      RegisterKeepsOk(RegisterAll(before), n, p);
      GetAfterRegister(RegisterAll(before), n, p, name, default);
      NamesAfterRegister(RegisterAll(before), n, p, name);
      MapGrows(AsMap(before), n, p);
    }
  }

  lemma NamesAfterRegister<P>(s: Option<Snapshot<P>>, name: bytes, p: P, other: bytes)
    requires s.Some? ==> |s.value.names| == |s.value.profiles|
    ensures var t := Register(s, name, p);
            var names := if s.Some? then s.value.names else [];
            && (other in t.names <==> other == name || other in names)
            && |t.names| == |names| + (if name in names then 0 else 1)
  {
    if s.Some? {
      var k := Find(s.value.names, name, 0);
      if k == |s.value.names| {
        assert name !in s.value.names;
      }
    }
  }

  lemma MapGrows<P>(m: map<bytes, P>, name: bytes, p: P)
    ensures |m[name := p]| == |m| + (if name in m then 0 else 1)
  {
    var t := m[name := p];
    assert t.Keys == m.Keys + {name};
    assert |t| == |t.Keys| && |m| == |m.Keys|;
  }
}
