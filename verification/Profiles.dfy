/** RegisterSub, getProfile and Sub on the heap: snapshots are published whole
    and never change afterwards. */
module Profiles {
  import opened Basics
  import opened Gates
  import opened RateLimit
  import opened Registry
  import Json
  import JsonLine
  import TextLine

  // -- Options --------------------------------------------------------------------------

  datatype SubOption =
    | WithRateLimit(limit: int64, windowNs: int64)
    | WithSampleRate(rate: int64)
    | WithFields(fields: seq<bytes>)

  /** The static fields that are baked: those of the last WithFields. */
  function LastFields(opts: seq<SubOption>): seq<bytes> {
    if opts == [] then []
    else if opts[|opts| - 1].WithFields? then opts[|opts| - 1].fields
    else LastFields(opts[..|opts| - 1])
  }

  function LastRate(opts: seq<SubOption>): int64 {
    if opts == [] then 0
    else if opts[|opts| - 1].WithSampleRate? then opts[|opts| - 1].rate
    else LastRate(opts[..|opts| - 1])
  }

  /** The limit of the last WithRateLimit, capped; 0 without one. */
  function LastLimit(opts: seq<SubOption>): (limit: int64)
    ensures 0 <= limit <= COUNT_MASK
  {
    if opts == [] then 0
    else if opts[|opts| - 1].WithRateLimit? then
      var limit := opts[|opts| - 1].limit;
      if limit < 0 then 0 else if limit > COUNT_MASK then COUNT_MASK else limit
    else LastLimit(opts[..|opts| - 1])
  }

  /** Whole milliseconds of the window of the last WithRateLimit, at least one; 0
      without one. */
  function LastWindow(opts: seq<SubOption>): int {
    if opts == [] then 0
    else if opts[|opts| - 1].WithRateLimit? then
      var windowNs := opts[|opts| - 1].windowNs;
      if windowNs < 1_000_000 then 1 else windowNs / 1_000_000
    else LastWindow(opts[..|opts| - 1])
  }

  predicate SameKind(a: SubOption, b: SubOption) {
    a.WithRateLimit? == b.WithRateLimit? && a.WithSampleRate? == b.WithSampleRate?
  }

  /** An option with no other of its kind after it sets the profile's value; a
      rate limit is kept between 0 and 2^24 - 1, its window counts in whole
      milliseconds and is at least one. */
  lemma {:induction false} LastWins(opts: seq<SubOption>, k: nat)
    requires k < |opts| && forall j :: k < j < |opts| ==> !SameKind(opts[j], opts[k])
    ensures match opts[k]
            case WithSampleRate(rate) => LastRate(opts) == rate
            case WithFields(fields) => LastFields(opts) == fields
            case WithRateLimit(limit, windowNs) =>
              && LastLimit(opts) == (if limit < 0 then 0 else if limit < 0x100_0000 then limit else 0xFF_FFFF)
              && (if windowNs < 1_000_000 then LastWindow(opts) == 1
                  else LastWindow(opts) * 1_000_000 <= windowNs < (LastWindow(opts) + 1) * 1_000_000)
  {
    if k < |opts| - 1 {
      assert !SameKind(opts[|opts| - 1], opts[k]);
      LastWins(opts[..|opts| - 1], k);
    }
  }

  /** Without an option of its kind a value is unset. */
  lemma {:induction false} UnsetWithout(opts: seq<SubOption>)
    ensures (forall j :: 0 <= j < |opts| ==> !opts[j].WithSampleRate?) ==> LastRate(opts) == 0
    ensures (forall j :: 0 <= j < |opts| ==> !opts[j].WithFields?) ==> LastFields(opts) == []
    ensures (forall j :: 0 <= j < |opts| ==> !opts[j].WithRateLimit?) ==> LastLimit(opts) == LastWindow(opts) == 0
  {
    if opts != [] {
      UnsetWithout(opts[..|opts| - 1]);
    }
  }

  /** The profile RegisterSub builds: a fresh limiter word and sample counter,
      and prefixes baked from the unreserved static fields. */
  ghost predicate Built(p: SubProfile, logType: bytes, opts: seq<SubOption>, nowMs: int64)
    reads p
  {
    var baked := JsonLine.Filter(LastFields(opts));
    && p.name == logType
    && p.jsonPrefix == Json.EmitTail(JsonLine.StringMembers(baked))
    && p.textPrefix == TextLine.PrefixText(baked)
    && p.rlLimit == LastLimit(opts) && p.rlState == 0
    && p.sampleRate == LastRate(opts) && p.sampleCount == 0
    && p.rlWindowMs == LastWindow(opts) && (p.rlLimit > 0 ==> p.rlWindowMs >= 1)
    && p.rlStartMs == (if LastWindow(opts) == 0 then 0 else nowMs)
  }

  // -- The registry object -----------------------------------------------------------------

  class ProfileRegistry {
    const names: array<bytes>
    const profiles: array<SubProfile>
    const lookup: Option<map<bytes, SubProfile>>

    constructor (names: array<bytes>, profiles: array<SubProfile>, lookup: Option<map<bytes, SubProfile>>)
      ensures this.names == names && this.profiles == profiles && this.lookup == lookup
    {
      this.names, this.profiles, this.lookup := names, profiles, lookup;
    }

    ghost function View(): Snapshot<SubProfile>
      reads names, profiles
    {
      Snapshot(names[..], profiles[..], lookup)
    }

    ghost predicate Valid()
      reads names, profiles
    {
      names.Length == profiles.Length
    }
  }

  class Logger {
    var registry: ProfileRegistry?
    const defaultProfile: SubProfile

    constructor (defaultProfile: SubProfile)
      ensures registry == null && this.defaultProfile == defaultProfile
    {
      registry, this.defaultProfile := null, defaultProfile;
    }

    ghost function View(): Option<Snapshot<SubProfile>>
      reads this, registry, if registry != null then {registry.names, registry.profiles} else {}
    {
      if registry == null then None else Some(registry.View())
    }

    ghost predicate Valid()
      reads this, registry, if registry != null then {registry.names, registry.profiles} else {}
    {
      registry != null ==> registry.Valid()
    }

    /** getProfile */
    method GetProfile(logType: bytes) returns (p: SubProfile)
      requires Valid()
      ensures p == Get(View(), logType, defaultProfile)
    {
      var reg := registry;
      if reg == null {
        return defaultProfile;
      }
      if reg.lookup.Some? {
        if logType in reg.lookup.value {
          return reg.lookup.value[logType];
        }
        return defaultProfile;
      }
      for i := 0 to reg.names.Length
        invariant Find(reg.names[..], logType, 0) == Find(reg.names[..], logType, i)
      {
        if reg.names[i] == logType {
          return reg.profiles[i];
        }
      }
      return defaultProfile;
    }

    /** The profile part of RegisterSub: options, filtering, baking. */
    method BuildProfile(logType: bytes, opts: seq<SubOption>, nowMs: int64) returns (p: SubProfile)
      requires nowMs >= 1
      ensures fresh(p) && Built(p, logType, opts, nowMs)
    {
      hide JsonLine.Filter, JsonLine.StringMembers, Json.EmitTail, TextLine.PrefixText;
      p := new SubProfile(logType);
      var tempFields: seq<bytes> := [];
      for i := 0 to |opts|
        invariant fresh(p) && p.name == logType && p.textPrefix == [] && p.jsonPrefix == []
        invariant tempFields == LastFields(opts[..i])
        invariant p.rlLimit == LastLimit(opts[..i]) && p.sampleRate == LastRate(opts[..i])
        invariant p.rlState == 0 && p.sampleCount == 0
        invariant p.rlWindowMs == LastWindow(opts[..i]) >= 0 && (p.rlLimit > 0 ==> p.rlWindowMs >= 1)
        invariant p.rlStartMs == (if LastWindow(opts[..i]) == 0 then 0 else nowMs)
      {
        assert opts[..i + 1][..i] == opts[..i];
        match opts[i] {
          case WithRateLimit(limit, windowNs) => p.WithRateLimit(limit, windowNs, nowMs);
          case WithSampleRate(rate) => p.sampleRate := rate;
          case WithFields(fields) => tempFields := fields;
        }
      }
      assert opts[..|opts|] == opts;
      if |tempFields| > 0 {
        tempFields := JsonLine.FilterReservedFields(tempFields);
      } else {
        JsonLine.FilterNothing();
      }
      if |tempFields| > 0 {
        p.textPrefix := TextLine.BuildTextPrefix(tempFields);
        p.jsonPrefix := JsonLine.BuildJSONPrefix(tempFields);
      } else {
        JsonLine.NoMembers();
        TextLine.PrefixTextNothing();
      }
    }

    method FindIndex(names: array<bytes>, logType: bytes) returns (k: nat)
      ensures k == Find(names[..], logType, 0)
    {
      k := 0;
      while k < names.Length
        invariant 0 <= k <= names.Length
        invariant Find(names[..], logType, 0) == Find(names[..], logType, k)
      {
        if names[k] == logType {
          return;
        }
        k := k + 1;
      }
    }

    /** Clone an array into one with room for `extra` more elements. */
    method CopyNames(source: array<bytes>, extra: nat) returns (a: array<bytes>)
      ensures fresh(a) && a.Length == source.Length + extra && a[..source.Length] == source[..]
    {
      a := new bytes[source.Length + extra](_ => []);
      for i := 0 to source.Length
        invariant a[..i] == source[..i]
      {
        a[i] := source[i];
      }
      assert source[..source.Length] == source[..];
    }

    method CopyProfiles(source: array<SubProfile>, extra: nat, filler: SubProfile) returns (a: array<SubProfile>)
      ensures fresh(a) && a.Length == source.Length + extra && a[..source.Length] == source[..]
    {
      a := new SubProfile[source.Length + extra](_ => filler);
      for i := 0 to source.Length
        invariant a[..i] == source[..i]
      {
        a[i] := source[i];
      }
      assert source[..source.Length] == source[..];
    }

    method BuildFullMap(names: array<bytes>, profiles: array<SubProfile>) returns (m: map<bytes, SubProfile>)
      requires names.Length == profiles.Length
      ensures m == FullMap(names[..], profiles[..])
    {
      m := map[];
      for i := 0 to names.Length
        invariant m == FullMap(names[..i], profiles[..i])
      {
        m := m[names[i] := profiles[i]];
        assert names[..i + 1][..i] == names[..i] && profiles[..i + 1][..i] == profiles[..i];
      }
      assert names[..names.Length] == names[..] && profiles[..profiles.Length] == profiles[..];
    }

    /** Clone the arrays with the profile replaced or appended. */
    method WithProfile(current: ProfileRegistry, logType: bytes, p: SubProfile)
      returns (names: array<bytes>, profiles: array<SubProfile>)
      requires current.Valid()
      ensures fresh(names) && fresh(profiles) && names.Length == profiles.Length
      ensures var next := Register(Some(current.View()), logType, p);
              names[..] == next.names && profiles[..] == next.profiles
    {
      var n := current.names.Length;
      var k := FindIndex(current.names, logType);
      var extra := if k < n then 0 else 1;
      names := CopyNames(current.names, extra);
      profiles := CopyProfiles(current.profiles, extra, p);
      if k < n {
        profiles[k] := p;
        assert names[..] == current.names[..] && profiles[..] == current.profiles[..][k := p];
      } else {
        names[n] := logType;
        profiles[n] := p;
        assert names[..] == current.names[..] + [logType] && profiles[..] == current.profiles[..] + [p];
      }
    }

    /** The copy-on-write part of RegisterSub. Only the registry pointer
        changes: no snapshot published before is touched. */
    method Publish(logType: bytes, p: SubProfile)
      requires Valid()
      modifies this`registry
      ensures Valid() && registry != null && fresh(registry)
      ensures View() == Some(Register(old(View()), logType, p))
    {
      hide Find, FullMap;
      var current := registry;
      if current == null {
        var names := new bytes[1](_ => logType);
        var profiles := new SubProfile[1](_ => p);
        registry := new ProfileRegistry(names, profiles, None);
        assert names[..] == [logType] && profiles[..] == [p];
        return;
      }
      var names, profiles := WithProfile(current, logType, p);
      var lookup: Option<map<bytes, SubProfile>> := None;
      if names.Length > THRESHOLD {
        if current.lookup.Some? {
          lookup := Some(current.lookup.value[logType := p]);
        } else {
          var m := BuildFullMap(names, profiles);
          lookup := Some(m);
        }
      }
      registry := new ProfileRegistry(names, profiles, lookup);
    }

    /** RegisterSub */
    method RegisterSub(logType: bytes, opts: seq<SubOption>, nowMs: int64) returns (ghost p: SubProfile)
      requires Valid() && nowMs >= 1
      modifies this`registry
      ensures Valid() && fresh(p) && Built(p, logType, opts, nowMs)
      ensures registry != null && fresh(registry) && View() == Some(Register(old(View()), logType, p))
    {
      var profile := BuildProfile(logType, opts, nowMs);
      Publish(logType, profile);
      p := profile;
    }

    /** Sub: with options, or for a log type without a profile, it registers;
        otherwise the existing profile is reused and nothing changes. */
    method Sub(logType: bytes, opts: seq<SubOption>, nowMs: int64) returns (p: SubProfile)
      requires Valid() && nowMs >= 1
      modifies this`registry
      ensures Valid() && p == Get(View(), logType, defaultProfile)
      ensures opts == [] && old(Get(View(), logType, defaultProfile)) != defaultProfile ==>
                registry == old(registry) && p == old(Get(View(), logType, defaultProfile))
      ensures opts != [] || old(Get(View(), logType, defaultProfile)) == defaultProfile ==>
                fresh(registry) && exists q :: fresh(q) && View() == Some(Register(old(View()), logType, q))
                                                 && Built(q, logType, opts, nowMs)
    {
      var existing := GetProfile(logType);
      if |opts| > 0 || existing == defaultProfile {
        ghost var q := RegisterSub(logType, opts, nowMs);
      }
      p := GetProfile(logType);
    }

    /** checkGatesAfterLevel: the log-type path. It decides and updates the
        profile's gates exactly as passGates does for a resolved profile. */
    method CheckGatesAfterLevel(logType: bytes, nowMs: int64, interference: seq<uint64>)
      returns (p: SubProfile?, ok: bool)
      requires Valid()
      modifies Get(View(), logType, defaultProfile)
      ensures p == if ok then old(Get(View(), logType, defaultProfile)) else null
      ensures var q := old(Get(View(), logType, defaultProfile));
              (ok, q.Gates()) == old(q.Gates()).Check(nowMs, interference)
    {
      var q := GetProfile(logType);
      if q.sampleRate > 0 {
        q.sampleCount := WrapInt64(q.sampleCount + 1);
        if GoMod(q.sampleCount, q.sampleRate) != 0 {
          return null, false;
        }
      }
      if q.rlLimit > 0 {
        var admitted := q.CheckAtomicRateLimitAt(nowMs, interference);
        if !admitted {
          return null, false;
        }
      }
      return q, true;
    }
  }
}
