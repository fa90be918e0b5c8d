/** UTF-8 as utf8.DecodeRune reads it (sections 3 and 4 of RFC 3629). */
module Utf8 {
  import opened Basics

  const RUNE_SELF: int := 0x80
  const RUNE_ERROR: int := 0xFFFD

  /** U+FFFD in UTF-8. */
  const REPLACEMENT: bytes := ['\U{EF}', '\U{BF}', '\U{BD}']

  function Byte(n: int): byte
    requires 0 <= n < 256
  {
    n as char
  }

  predicate Tail(c: byte) {
    0x80 <= c as int <= 0xBF
  }

  /** The second byte of a three or four byte sequence: the lead bytes E0, ED,
      F0 and F4 narrow its range. */
  predicate Second(lead: int, c: byte) {
    var lo := if lead == 0xE0 then 0xA0 else if lead == 0xF0 then 0x90 else 0x80;
    var hi := if lead == 0xED then 0x9F else if lead == 0xF4 then 0x8F else 0xBF;
    lo <= c as int <= hi
  }

  /** The length of the valid sequence s starts with; 0 if there is none. */
  function SequenceLength(s: bytes): (n: nat)
    ensures n <= |s| && n <= 4
    ensures s != [] && s[0] as int < RUNE_SELF ==> n == 1
    ensures n > 1 ==> s[0] as int >= RUNE_SELF
  {
    if s == [] then 0
    else
      var lead := s[0] as int;
      if lead < 0x80 then 1
      else if 0xC2 <= lead <= 0xDF then (if |s| >= 2 && Tail(s[1]) then 2 else 0)
      else if 0xE0 <= lead <= 0xEF then (if |s| >= 3 && Second(lead, s[1]) && Tail(s[2]) then 3 else 0)
      else if 0xF0 <= lead <= 0xF4 then (if |s| >= 4 && Second(lead, s[1]) && Tail(s[2]) && Tail(s[3]) then 4 else 0)
      else 0
  }

  /** The code point of that sequence. */
  function Rune(s: bytes): (r: int)
    requires SequenceLength(s) > 0
    ensures IsScalar(r)
  {
    var n := SequenceLength(s);
    var lead := s[0] as int;
    if n == 1 then lead
    else if n == 2 then (lead - 0xC0) * 64 + (s[1] as int - 0x80)
    else if n == 3 then (lead - 0xE0) * 4096 + (s[1] as int - 0x80) * 64 + (s[2] as int - 0x80)
    else (lead - 0xF0) * 262144 + (s[1] as int - 0x80) * 4096 + (s[2] as int - 0x80) * 64 + (s[3] as int - 0x80)
  }

  /** utf8.DecodeRune: (RuneError, 1) on a byte that starts no valid sequence. */
  function DecodeRune(s: bytes): (int, nat) {
    if s == [] then (RUNE_ERROR, 0)
    else if SequenceLength(s) == 0 then (RUNE_ERROR, 1)
    else (Rune(s), SequenceLength(s))
  }

  predicate IsScalar(r: int) {
    0 <= r < 0xD800 || 0xE000 <= r < 0x11_0000
  }

  /** The encoding of section 3 of RFC 3629. */
  function Encode(r: int): (s: bytes)
    requires IsScalar(r)
  {
    if r < 0x80 then [Byte(r)]
    else if r < 0x800 then [Byte(0xC0 + r / 64), Byte(0x80 + r % 64)]
    else if r < 0x1_0000 then [Byte(0xE0 + r / 4096), Byte(0x80 + r / 64 % 64), Byte(0x80 + r % 64)]
    else [Byte(0xF0 + r / 262144), Byte(0x80 + r / 4096 % 64), Byte(0x80 + r / 64 % 64), Byte(0x80 + r % 64)]
  }

  /** Exactly the encodings of scalar values are valid sequences. */
  lemma DecodeEncode(r: int, rest: bytes)
    requires IsScalar(r)
    ensures SequenceLength(Encode(r) + rest) == |Encode(r)| && Rune(Encode(r) + rest) == r
  {
    var s := Encode(r) + rest;
    if r < 0x80 {
    } else if r < 0x800 {
    } else if r < 0x1_0000 {
      var q := r / 64;
      assert q / 64 == r / 4096 && q == (r / 4096) * 64 + q % 64;
    } else {
      var q := r / 64;
      var p := q / 64;
      assert p == r / 4096 && p / 64 == r / 262144;
    }
  }

  lemma EncodeThree(a: int, b: int, c: int)
    requires 0 <= a < 16 && 0 <= b < 64 && 0 <= c < 64
    requires var r := a * 4096 + b * 64 + c; IsScalar(r) && r >= 0x800
    ensures Encode(a * 4096 + b * 64 + c) == [Byte(0xE0 + a), Byte(0x80 + b), Byte(0x80 + c)]
  {
    Base64Digits(a * 64 + b, c);
    Base64Digits(a, b);
    var r := a * 4096 + b * 64 + c;
    assert r / 4096 == r / 64 / 64;
  }

  lemma EncodeFour(a: int, b: int, c: int, d: int)
    requires 0 <= a < 5 && 0 <= b < 64 && 0 <= c < 64 && 0 <= d < 64
    requires var r := a * 262144 + b * 4096 + c * 64 + d; IsScalar(r) && r >= 0x1_0000
    ensures Encode(a * 262144 + b * 4096 + c * 64 + d) ==
            [Byte(0xF0 + a), Byte(0x80 + b), Byte(0x80 + c), Byte(0x80 + d)]
  {
    Base64Digits(a * 4096 + b * 64 + c, d);
    Base64Digits(a * 64 + b, c);
    Base64Digits(a, b);
    var r := a * 262144 + b * 4096 + c * 64 + d;
    assert r / 4096 == r / 64 / 64 && r / 262144 == r / 64 / 64 / 64;
  }

  lemma Base64Digits(q: int, d: int)
    requires q >= 0 && 0 <= d < 64
    ensures (q * 64 + d) / 64 == q && (q * 64 + d) % 64 == d
  {
  }

  lemma EncodeDecode(s: bytes)
    requires SequenceLength(s) > 0
    ensures Encode(Rune(s)) == s[..SequenceLength(s)]
  {
    var n := SequenceLength(s);
    if n == 3 {
      hide Encode;
      EncodeThree(s[0] as int - 0xE0, s[1] as int - 0x80, s[2] as int - 0x80);
      assert s[..3] == [s[0], s[1], s[2]];
    } else if n == 4 {
      hide Encode;
      EncodeFour(s[0] as int - 0xF0, s[1] as int - 0x80, s[2] as int - 0x80, s[3] as int - 0x80);
      assert s[..4] == [s[0], s[1], s[2], s[3]];
    }
  }

  predicate Valid(s: bytes) {
    s == [] || (SequenceLength(s) > 0 && Valid(s[SequenceLength(s)..]))
  }

  /** s with every byte that starts no valid sequence replaced by one U+FFFD. */
  function Sanitize(s: bytes): bytes {
    if s == [] then []
    else if SequenceLength(s) > 0 then s[..SequenceLength(s)] + Sanitize(s[SequenceLength(s)..])
    else REPLACEMENT + Sanitize(s[1..])
  }

  /** A sequence is recognised whatever follows it. */
  lemma SequenceLengthLocal(s: bytes, t: bytes)
    requires SequenceLength(s) > 0
    requires SequenceLength(s) <= |t| && t[..SequenceLength(s)] == s[..SequenceLength(s)]
    ensures SequenceLength(t) == SequenceLength(s)
  {
    var n := SequenceLength(s);
    assert forall k :: 0 <= k < n ==> t[k] == t[..n][k] == s[..n][k] == s[k];
  }

  lemma {:induction false} ValidConcat(s: bytes, t: bytes)
    requires Valid(s) && Valid(t)
    ensures Valid(s + t)
  {
    if s == [] {
      assert s + t == t;
    } else {
      hide SequenceLength;
      var n := SequenceLength(s);
      ValidConcat(s[n..], t);
      SequenceLengthLocal(s, s[..n]);
      assert s[..n] + s[n..] == s;
      Assoc(s[..n], s[n..], t);
      ValidPrepend(s[..n], s[n..] + t);
    }
  }

  lemma ValidPrepend(a: bytes, rest: bytes)
    requires 0 < SequenceLength(a) == |a| && Valid(rest)
    ensures Valid(a + rest)
  {
    hide SequenceLength;
    var s := a + rest;
    assert s[..|a|] == a[..|a|];
    SequenceLengthLocal(a, s);
    assert s[|a|..] == rest;
  }

  lemma ValidOne(s: bytes)
    requires SequenceLength(s) > 0
    ensures Valid(s[..SequenceLength(s)])
  {
    var n := SequenceLength(s);
    assert s[..n][..n] == s[..n];
    SequenceLengthLocal(s, s[..n]);
    assert s[..n][n..] == [];
  }

  lemma ReplacementIsRuneError()
    ensures SequenceLength(REPLACEMENT) == 3 && Rune(REPLACEMENT) == RUNE_ERROR && Valid(REPLACEMENT)
    ensures Encode(RUNE_ERROR) == REPLACEMENT
  {
    assert REPLACEMENT[3..] == [];
  }

  lemma SanitizeSequence(s: bytes)
    requires SequenceLength(s) > 0 && Valid(Sanitize(s[SequenceLength(s)..]))
    requires Valid(s[SequenceLength(s)..]) <==> Sanitize(s[SequenceLength(s)..]) == s[SequenceLength(s)..]
    ensures Valid(Sanitize(s))
    ensures Valid(s) <==> Sanitize(s) == s
  {
    hide SequenceLength, Sanitize;
    var n := SequenceLength(s);
    var rest := Sanitize(s[n..]);
    assert Sanitize(s) == s[..n] + rest by { SanitizeKeeps(s); }
    ValidOne(s);
    ValidConcat(s[..n], rest);
    assert s == s[..n] + s[n..];
    assert (s[..n] + rest)[n..] == rest;
  }

  lemma SanitizeKeeps(s: bytes)
    requires SequenceLength(s) > 0
    ensures Sanitize(s) == s[..SequenceLength(s)] + Sanitize(s[SequenceLength(s)..])
  {
    hide SequenceLength;
  }

  lemma SanitizeReplaces(s: bytes)
    requires s != [] && SequenceLength(s) == 0 && Valid(Sanitize(s[1..]))
    ensures Valid(Sanitize(s)) && !Valid(s) && Sanitize(s) != s
  {
    ReplacementIsRuneError();
    hide SequenceLength;
    ValidConcat(REPLACEMENT, Sanitize(s[1..]));
    var t := REPLACEMENT + Sanitize(s[1..]);
    assert t[..3] == REPLACEMENT[..3];
    SequenceLengthLocal(REPLACEMENT, t);
  }

  /** Sanitising always gives valid UTF-8, and is the identity exactly on it. */
  lemma {:induction false} SanitizeValid(s: bytes)
    ensures Valid(Sanitize(s))
    ensures Valid(s) <==> Sanitize(s) == s
  {
    if s != [] {
      hide SequenceLength, Sanitize, Valid;
      var n := SequenceLength(s);
      if n > 0 {
        SanitizeValid(s[n..]);
        SanitizeSequence(s);
      } else {
        SanitizeValid(s[1..]);
        SanitizeReplaces(s);
      }
    }
  }
}
