/** The JSON string escaper of format.go and a decoder for section 7 of
    RFC 8259. */
module JsonString {
  import opened Basics
  import opened Utf8

  // -- The escaper ----------------------------------------------------------------------

  /** The jsonSafe table. */
  predicate JsonSafe(c: byte) {
    0x20 <= c as int < 0x7F && c != '"' && c != '\\'
  }

  function HexDigit(n: int): (c: byte)
    requires 0 <= n < 16
    ensures JsonSafe(c)
  {
    "0123456789abcdef"[n]
  }

  /** How a byte below 0x80 is written. */
  function EscapeAscii(c: byte): (e: bytes)
    requires c as int < RUNE_SELF
  {
    if JsonSafe(c) then [c]
    else if c == '"' || c == '\\' then ['\\', c]
    else if c == '\n' then "\\n"
    else if c == '\r' then "\\r"
    else if c == '\t' then "\\t"
    else ['\\', 'u', '0', '0', HexDigit(c as int / 16), HexDigit(c as int % 16)]
  }

  const ESCAPED_RUNE_ERROR: bytes := "\\ufffd"

  /** The text between the quotes. */
  function Escape(s: bytes): bytes {
    if s == [] then []
    else if s[0] as int < RUNE_SELF then EscapeAscii(s[0]) + Escape(s[1..])
    else
      var n := SequenceLength(s);
      if n > 0 then s[..n] + Escape(s[n..]) else ESCAPED_RUNE_ERROR + Escape(s[1..])
  }

  function Quote(s: bytes): bytes {
    ['"'] + Escape(s) + ['"']
  }

  /** One step of Escape in the middle of a string. */
  lemma EscapeFrom(s: bytes, i: nat)
    requires i < |s|
    ensures s[i] as int < RUNE_SELF ==> Escape(s[i..]) == EscapeAscii(s[i]) + Escape(s[i + 1..])
    ensures s[i] as int >= RUNE_SELF ==>
              var n := SequenceLength(s[i..]);
              if n > 0 then Escape(s[i..]) == s[i..i + n] + Escape(s[i + n..])
              else Escape(s[i..]) == ESCAPED_RUNE_ERROR + Escape(s[i + 1..])
  {
    hide EscapeAscii, SequenceLength;
    assert s[i..][1..] == s[i + 1..];
    var n := SequenceLength(s[i..]);
    assert s[i..][..n] == s[i..i + n] && s[i..][n..] == s[i + n..];
  }

  /** What the loop has produced so far, with the pending run start..i. */
  ghost predicate Progress(done: bytes, buf: bytes, s: bytes, start: nat, i: nat)
    requires start <= i <= |s|
  {
    buf + (s[start..i] + Escape(s[i..])) == done + Escape(s)
  }

  lemma KeepRun(done: bytes, buf: bytes, s: bytes, start: nat, i: nat, n: nat)
    requires start <= i && i + n <= |s| && Progress(done, buf, s, start, i)
    requires Escape(s[i..]) == s[i..i + n] + Escape(s[i + n..])
    ensures Progress(done, buf, s, start, i + n)
  {
    hide Escape;
    assert s[start..i + n] == s[start..i] + s[i..i + n];
    Assoc(s[start..i], s[i..i + n], Escape(s[i + n..]));
  }

  lemma EndRun(done: bytes, buf: bytes, s: bytes, start: nat, i: nat, escaped: bytes)
    requires start <= i < |s| && Progress(done, buf, s, start, i)
    requires Escape(s[i..]) == escaped + Escape(s[i + 1..])
    ensures Progress(done, (buf + s[start..i]) + escaped, s, i + 1, i + 1)
  {
    hide Escape;
    Assoc(buf, s[start..i], Escape(s[i..]));
    Assoc(buf + s[start..i], escaped, Escape(s[i + 1..]));
    assert s[i + 1..i + 1] == [];
    assert [] + Escape(s[i + 1..]) == Escape(s[i + 1..]);
  }

  /** appendJSONStringBytes: safe runs are copied in one piece, everything else
      is escaped where it stands. */
  method AppendJSONString(buf: bytes, s: bytes) returns (r: bytes)
    ensures r == buf + Quote(s)
  {
    hide Escape, EscapeAscii, SequenceLength;
    r := buf + ['"'];
    ghost var done := r;
    var start := 0;
    var i := 0;
    assert Progress(done, r, s, 0, 0) by {
      assert s[0..] == s && s[0..0] == [] && [] + Escape(s) == Escape(s);
    }
    while i < |s|
      invariant 0 <= start <= i <= |s|
      invariant Progress(done, r, s, start, i)
    {
      var c := s[i];
      EscapeFrom(s, i);
      if JsonSafe(c) {
        assert EscapeAscii(c) == s[i..i + 1] by { SafeIsKept(c); }
        KeepRun(done, r, s, start, i, 1);
        i := i + 1;
      } else if c as int < RUNE_SELF {
        EndRun(done, r, s, start, i, EscapeAscii(c));
        if start < i {
          r := r + s[start..i];
        }
        r := AppendEscape(r, c);
        i := i + 1;
        start := i;
      } else {
        var (rune, size) := DecodeRune(s[i..]);
        RuneErrorWithSizeOne(s[i..]);
        if rune == RUNE_ERROR && size == 1 {
          EndRun(done, r, s, start, i, ESCAPED_RUNE_ERROR);
          if start < i {
            r := r + s[start..i];
          }
          r := r + ESCAPED_RUNE_ERROR;
          i := i + size;
          start := i;
        } else {
          KeepRun(done, r, s, start, i, size);
          i := i + size;
        }
      }
    }
    assert r + s[start..] == done + Escape(s) by {
      assert s[i..] == [] && s[start..i] == s[start..];
      assert Escape(s[i..]) == [] by { EscapeNothing(); }
      assert s[start..i] + [] == s[start..i];
    }
    if start < |s| {
      r := r + s[start..];
    } else {
      assert r + s[start..] == r;
    }
    Assoc(buf, ['"'], Escape(s));
    Assoc(buf, ['"'] + Escape(s), ['"']);
    r := r + ['"'];
  }

  /** The escaping switch for an unsafe byte below 0x80. */
  method AppendEscape(buf: bytes, c: byte) returns (r: bytes)
    requires c as int < RUNE_SELF && !JsonSafe(c)
    ensures r == buf + EscapeAscii(c)
  {
    r := buf + ['\\'];
    match c {
      case '"' => r := r + [c];
      case '\\' => r := r + [c];
      case '\n' => r := r + ['n'];
      case '\r' => r := r + ['r'];
      case '\t' => r := r + ['t'];
      case _ =>
        r := r + ['u', '0', '0', HexDigit(c as int / 16), HexDigit(c as int % 16)];
    }
  }

  lemma SafeIsKept(c: byte)
    requires JsonSafe(c)
    ensures EscapeAscii(c) == [c]
  {
  }

  lemma EscapeNothing()
    ensures Escape([]) == []
  {
  }

  /** A valid U+FFFD in the input has size 3 and is not taken for an error. */
  lemma RuneErrorWithSizeOne(s: bytes)
    requires s != [] && s[0] as int >= RUNE_SELF
    ensures DecodeRune(s).0 == RUNE_ERROR && DecodeRune(s).1 == 1 <==> SequenceLength(s) == 0
    ensures SequenceLength(s) > 0 ==> DecodeRune(s).1 == SequenceLength(s)
  {
  }

  // -- The decoder -------------------------------------------------------------------------

  function HexValue(c: byte): Option<nat> {
    if '0' <= c <= '9' then Some(c as int - '0' as int)
    else if 'a' <= c <= 'f' then Some(c as int - 'a' as int + 10)
    else if 'A' <= c <= 'F' then Some(c as int - 'A' as int + 10)
    else None
  }

  /** The code unit of the four hexadecimal digits s starts with. */
  function CodeUnit(s: bytes): (u: Option<nat>)
    ensures u.Some? ==> |s| >= 4 && u.value < 0x1_0000
  {
    if |s| < 4 then None
    else
      var (a, b, c, d) := (HexValue(s[0]), HexValue(s[1]), HexValue(s[2]), HexValue(s[3]));
      if a.None? || b.None? || c.None? || d.None? then None
      else Some(((a.value * 16 + b.value) * 16 + c.value) * 16 + d.value)
  }

  /** One element of a string: its decoded bytes and its length in the source. */
  datatype Element = Element(text: bytes, size: nat)

  /** An escape sequence; s starts with a backslash. A surrogate pair is one
      element, an unpaired surrogate stands for U+FFFD. */
  function EscapeSequence(s: bytes): (e: Option<Element>)
    ensures e.Some? ==> 0 < e.value.size <= |s|
  {
    if |s| < 2 then None
    else
      match s[1]
      case '"' => Some(Element("\"", 2))
      case '\\' => Some(Element("\\", 2))
      case '/' => Some(Element("/", 2))
      case 'b' => Some(Element(['\U{08}'], 2))
      case 'f' => Some(Element(['\U{0C}'], 2))
      case 'n' => Some(Element("\n", 2))
      case 'r' => Some(Element("\r", 2))
      case 't' => Some(Element("\t", 2))
      case 'u' =>
        var u := CodeUnit(s[2..]);
        if u.None? then None
        else if !(0xD800 <= u.value < 0xE000) then Some(Element(Encode(u.value), 6))
        else
          var low := if |s| >= 12 && s[6] == '\\' && s[7] == 'u' then CodeUnit(s[8..]) else None;
          if u.value < 0xDC00 && low.Some? && 0xDC00 <= low.value < 0xE000
          then Some(Element(Encode(0x1_0000 + (u.value - 0xD800) * 1024 + (low.value - 0xDC00)), 12))
          else Some(Element(REPLACEMENT, 6))
      case _ => None
  }

  /** The next element: an escape sequence, or one unescaped character (a
      control character must not appear, and bytes must be UTF-8). */
  function NextElement(s: bytes): (e: Option<Element>)
    requires s != []
    ensures e.Some? ==> 0 < e.value.size <= |s|
  {
    if s[0] == '\\' then EscapeSequence(s)
    else if s[0] as int < 0x20 || s[0] == '"' then None
    else
      var n := SequenceLength(s);
      if n == 0 then None else Some(Element(s[..n], n))
  }

  /** Decodes up to the closing quote; the second part is what follows it. */
  function DecodeBody(s: bytes): (r: Option<(bytes, bytes)>)
    ensures r.Some? ==> |r.value.1| < |s|
    decreases |s|
  {
    if s == [] then None
    else if s[0] == '"' then Some(([], s[1..]))
    else
      var e := NextElement(s);
      if e.None? then None
      else
        var rest := DecodeBody(s[e.value.size..]);
        if rest.None? then None else Some((e.value.text + rest.value.0, rest.value.1))
  }

  /** A JSON string at the start of s. */
  function DecodeString(s: bytes): (r: Option<(bytes, bytes)>)
    ensures r.Some? ==> |r.value.1| < |s|
  {
    if s == [] || s[0] != '"' then None else DecodeBody(s[1..])
  }

  // -- Round trip -----------------------------------------------------------------------------

  lemma AsciiElement(c: byte, rest: bytes)
    requires c as int < RUNE_SELF
    ensures var s := EscapeAscii(c) + rest;
            s[0] != '"' && NextElement(s) == Some(Element([c], |EscapeAscii(c)|))
  {
    var s := EscapeAscii(c) + rest;
    if |EscapeAscii(c)| == 6 {
      UnicodeElement(c, rest);
    }
  }

  lemma UnicodeElement(c: byte, rest: bytes)
    requires c as int < RUNE_SELF
    ensures var s := ['\\', 'u', '0', '0', HexDigit(c as int / 16), HexDigit(c as int % 16)] + rest;
            EscapeSequence(s) == Some(Element([c], 6))
  {
    var s := ['\\', 'u', '0', '0', HexDigit(c as int / 16), HexDigit(c as int % 16)] + rest;
    HexDigitValue(c as int / 16);
    HexDigitValue(c as int % 16);
    assert CodeUnit(s[2..]) == Some(c as int);
  }

  lemma HexDigitValue(n: int)
    requires 0 <= n < 16
    ensures HexValue(HexDigit(n)) == Some(n)
  {
  }

  lemma RuneErrorElement(rest: bytes)
    ensures var s := ESCAPED_RUNE_ERROR + rest;
            s[0] != '"' && NextElement(s) == Some(Element(REPLACEMENT, 6))
  {
    var s := ESCAPED_RUNE_ERROR + rest;
    assert s[2] == 'f' && s[3] == 'f' && s[4] == 'f' && s[5] == 'd';
    assert CodeUnit(s[2..]) == Some(0xFFFD);
    ReplacementIsRuneError();
  }

  lemma SequenceElement(s: bytes, rest: bytes)
    requires SequenceLength(s) > 0 && s[0] as int >= RUNE_SELF
    ensures var n := SequenceLength(s);
            var t := s[..n] + rest;
            t[0] != '"' && NextElement(t) == Some(Element(s[..n], n))
  {
    var n := SequenceLength(s);
    var t := s[..n] + rest;
    assert t[..n] == s[..n] && t[0] == s[0];
    SequenceLengthLocal(s, t);
  }

  /** The decoder takes one element off the front of an escaped text. */
  lemma DecodeFirst(first: bytes, text: bytes, rest: bytes)
    requires first != [] && (first + rest)[0] != '"'
    requires NextElement(first + rest) == Some(Element(text, |first|))
    ensures DecodeBody(first + rest) ==
            if DecodeBody(rest).None? then None
            else Some((text + DecodeBody(rest).value.0, DecodeBody(rest).value.1))
  {
    hide NextElement;
    assert (first + rest)[|first|..] == rest;
  }

  /** Decoding undoes escaping: the result is the input with every byte that
      starts no valid UTF-8 sequence replaced by one U+FFFD. */
  lemma {:induction false} RoundTripBody(s: bytes, rest: bytes)
    ensures DecodeBody(Escape(s) + (['"'] + rest)) == Some((Sanitize(s), rest))
  {
    var tail := ['"'] + rest;
    if s == [] {
      assert Escape(s) + tail == tail && tail[1..] == rest;
    } else {
      hide EscapeAscii, SequenceLength, NextElement, DecodeBody;
      var n := SequenceLength(s);
      if s[0] as int < RUNE_SELF {
        RoundTripBody(s[1..], rest);
        Assoc(EscapeAscii(s[0]), Escape(s[1..]), tail);
        AsciiElement(s[0], Escape(s[1..]) + tail);
        DecodeFirst(EscapeAscii(s[0]), [s[0]], Escape(s[1..]) + tail);
        assert s[..1] == [s[0]];
      } else if n > 0 {
        RoundTripBody(s[n..], rest);
        Assoc(s[..n], Escape(s[n..]), tail);
        SequenceElement(s, Escape(s[n..]) + tail);
        DecodeFirst(s[..n], s[..n], Escape(s[n..]) + tail);
      } else {
        RoundTripBody(s[1..], rest);
        Assoc(ESCAPED_RUNE_ERROR, Escape(s[1..]), tail);
        RuneErrorElement(Escape(s[1..]) + tail);
        DecodeFirst(ESCAPED_RUNE_ERROR, REPLACEMENT, Escape(s[1..]) + tail);
      }
    }
  }

  lemma RoundTrip(s: bytes, rest: bytes)
    ensures DecodeString(Quote(s) + rest) == Some((Sanitize(s), rest))
    ensures Valid(s) ==> DecodeString(Quote(s) + rest) == Some((s, rest))
  {
    hide Escape, DecodeBody, Sanitize, SequenceLength, Valid;
    var t := Quote(s) + rest;
    assert t[1..] == Escape(s) + (['"'] + rest);
    RoundTripBody(s, rest);
    SanitizeValid(s);
  }

  /** Distinct valid UTF-8 strings have distinct encodings. */
  lemma Injective(s: bytes, t: bytes)
    requires Valid(s) && Valid(t) && Quote(s) == Quote(t)
    ensures s == t
  {
    hide Quote, DecodeString, Valid;
    RoundTrip(s, []);
    RoundTrip(t, []);
  }

  // -- The output itself -------------------------------------------------------------------------

  /** Every byte of the escaped text may stand unescaped in a JSON string, and
      none is a control character or DEL. */
  ghost predicate NoControls(s: bytes) {
    forall k :: 0 <= k < |s| ==> s[k] as int >= 0x20 && s[k] as int != 0x7F
  }

  lemma EscapeAsciiClean(c: byte)
    requires c as int < RUNE_SELF
    ensures NoControls(EscapeAscii(c)) && Valid(EscapeAscii(c))
  {
    var e := EscapeAscii(c);
    assert forall k :: 0 <= k < |e| ==> e[k] as int < RUNE_SELF;
    AsciiValid(e);
  }

  lemma {:induction false} AsciiValid(s: bytes)
    requires forall k :: 0 <= k < |s| ==> s[k] as int < RUNE_SELF
    ensures Valid(s)
  {
    if s != [] {
      AsciiValid(s[1..]);
    }
  }

  lemma SequenceClean(s: bytes)
    requires SequenceLength(s) > 0 && s[0] as int >= RUNE_SELF
    ensures NoControls(s[..SequenceLength(s)])
  {
  }

  lemma JoinClean(a: bytes, b: bytes)
    requires Valid(a) && NoControls(a) && Valid(b) && NoControls(b)
    ensures Valid(a + b) && NoControls(a + b)
  {
    hide Valid;
    ValidConcat(a, b);
  }

  /** Whatever the input, the output is valid UTF-8 without control bytes. */
  lemma {:induction false} EscapeClean(s: bytes)
    ensures Valid(Escape(s)) && NoControls(Escape(s))
  {
    if s != [] {
      hide EscapeAscii, SequenceLength, Valid, NoControls;
      var n := SequenceLength(s);
      if s[0] as int < RUNE_SELF {
        EscapeClean(s[1..]);
        EscapeAsciiClean(s[0]);
        JoinClean(EscapeAscii(s[0]), Escape(s[1..]));
      } else if n > 0 {
        EscapeClean(s[n..]);
        SequenceClean(s);
        ValidOne(s);
        JoinClean(s[..n], Escape(s[n..]));
      } else {
        EscapeClean(s[1..]);
        RuneErrorClean();
        JoinClean(ESCAPED_RUNE_ERROR, Escape(s[1..]));
      }
    } else {
      AsciiValid(s);
    }
  }

  lemma RuneErrorClean()
    ensures Valid(ESCAPED_RUNE_ERROR) && NoControls(ESCAPED_RUNE_ERROR)
  {
    AsciiValid(ESCAPED_RUNE_ERROR);
  }

  lemma QuoteClean(s: bytes)
    ensures Valid(Quote(s)) && NoControls(Quote(s))
  {
    hide Valid, Escape;
    EscapeClean(s);
    AsciiValid(['"']);
    ValidConcat(['"'], Escape(s));
    ValidConcat(['"'] + Escape(s), ['"']);
  }

  // -- Text that needs no escaping ----------------------------------------------------------------

  predicate AllSafe(s: bytes) {
    forall k :: 0 <= k < |s| ==> JsonSafe(s[k])
  }

  lemma EscapeSafeStep(c: byte, rest: bytes)
    requires JsonSafe(c)
    ensures Escape([c] + rest) == [c] + Escape(rest)
  {
    hide EscapeAscii;
    SafeIsKept(c);
    assert ([c] + rest)[1..] == rest;
  }

  lemma {:induction false} EscapeSafePrefix(a: bytes, b: bytes)
    requires AllSafe(a)
    ensures Escape(a + b) == a + Escape(b)
  {
    hide Escape, JsonSafe;
    if a == [] {
      assert a + b == b;
    } else {
      EscapeSafePrefix(a[1..], b);
      assert a == [a[0]] + a[1..];
      Assoc([a[0]], a[1..], b);
      EscapeSafeStep(a[0], a[1..] + b);
      Assoc([a[0]], a[1..], Escape(b));
    }
  }

  lemma QuoteUnescaped(s: bytes)
    requires Escape(s) == s
    ensures Quote(s) == ['"'] + s + ['"']
  {
  }

  lemma QuoteSafe(s: bytes)
    requires AllSafe(s)
    ensures Quote(s) == ['"'] + s + ['"']
  {
    EscapeSafePrefix(s, []);
    assert s + [] == s;
    EscapeNothing();
  }

  // -- How long the text is ----------------------------------------------------------------

  lemma EscapeHead(s: bytes)
    requires s != []
    ensures var n := SequenceLength(s);
            Escape(s) ==
            if s[0] as int < RUNE_SELF then EscapeAscii(s[0]) + Escape(s[1..])
            else if n > 0 then s[..n] + Escape(s[n..])
            else ESCAPED_RUNE_ERROR + Escape(s[1..])
  {
    hide SequenceLength, EscapeAscii;
  }

  lemma AsciiSize(c: byte)
    requires c as int < RUNE_SELF
    ensures |EscapeAscii(c)| ==
            (if c as int in {0x22, 0x5C, 0x0A, 0x0D, 0x09} then 2
             else if c as int < 0x20 || c as int == 0x7F then 6
             else 1)
    ensures |EscapeAscii(c)| == 1 ==> EscapeAscii(c) == [c]
    ensures |EscapeAscii(c)| == 6 ==> forall k :: 0 <= k < 6 ==> !('A' <= EscapeAscii(c)[k] <= 'F')
  {
  }

  lemma {:induction false} EscapeLonger(s: bytes)
    ensures |Escape(s)| >= |s|
  {
    hide Escape, SequenceLength, EscapeAscii;
    if s != [] {
      var n := SequenceLength(s);
      EscapeHead(s);
      EscapeLonger(s[1..]);
      if s[0] as int < RUNE_SELF {
        AsciiSize(s[0]);
      } else if n > 0 {
        EscapeLonger(s[n..]);
      }
    }
  }

  /** Text that needs no escaping is valid. */
  lemma {:induction false} UnescapedValid(s: bytes)
    requires Escape(s) == s
    ensures Sanitize(s) == s
  {
    hide Escape, SequenceLength, EscapeAscii;
    if s != [] {
      var n := SequenceLength(s);
      EscapeHead(s);
      if s[0] as int < RUNE_SELF {
        EscapeLonger(s[1..]);
        AsciiSize(s[0]);
        assert ([s[0]] + Escape(s[1..]))[1..] == Escape(s[1..]);
        UnescapedValid(s[1..]);
        AsciiIsOne(s);
        assert s == s[..1] + s[1..];
      } else if n > 0 {
        assert (s[..n] + Escape(s[n..]))[n..] == s[n..];
        UnescapedValid(s[n..]);
        assert s == s[..n] + s[n..];
      } else {
        assert false;
      }
    }
  }

  lemma AsciiIsOne(s: bytes)
    requires s != [] && s[0] as int < RUNE_SELF
    ensures SequenceLength(s) == 1
  {
  }

  /** The only bytes of an input that change are control characters, DEL, quotes,
      backslashes and those that start no valid sequence; quotes, backslashes and
      the three usual white-space controls take two bytes, all others six, in
      lower-case hexadecimal. */
  lemma EscapeSizes(s: bytes)
    requires s != []
    ensures var c, n := s[0] as int, if s[0] as int < 0x80 then 1 else SequenceLength(s);
            var first := |Escape(s)| - |Escape(s[if n > 0 then n else 1..])|;
            && first == (if n == 0 then 6
                         else if c >= 0x80 then n
                         else if c in {0x22, 0x5C, 0x0A, 0x0D, 0x09} then 2
                         else if c < 0x20 || c == 0x7F then 6
                         else 1)
            && (first == n ==> Escape(s)[..n] == s[..n])
            && (first == 6 ==> forall k :: 0 <= k < 6 ==> !('A' <= Escape(s)[k] <= 'F'))
  {
    hide SequenceLength, EscapeAscii, Escape;
    EscapeHead(s);
    if s[0] as int < 0x80 {
      AsciiSize(s[0]);
    }
  }
}
