/** Bytes, machine integers and counting: vocabulary shared by every module. */
module Basics {

  /** One byte of a Go string or byte slice. A subset of `char`, so that the
      program's literals can be written as string literals. */
  type byte = c: char | c as int < 256

  type bytes = seq<byte>

  datatype Option<+T> = None | Some(value: T)

  const TWO_63: int := 0x8000_0000_0000_0000
  const TWO_64: int := 0x1_0000_0000_0000_0000

  type int64 = x: int | -TWO_63 <= x < TWO_63
  type uint64 = x: int | 0 <= x < TWO_64

  /** Two's complement result of int64 arithmetic. */
  function WrapInt64(x: int): (r: int64)
    ensures -TWO_63 <= x < TWO_63 ==> r == x
  {
    (x + TWO_63) % TWO_64 - TWO_63
  }

  /** Integer division. Kept behind a name so that proofs can hide it. */
  function Quotient(x: nat, d: int): (q: nat)
    requires d >= 1
  {
    x / d
  }

  lemma QuotientMonotone(x: nat, y: nat, d: int)
    requires x <= y && d >= 1
    ensures Quotient(x, d) <= Quotient(y, d)
  {
    QuotientSpan(x, d);
    QuotientSpan(y, d);
    LessByProduct(Quotient(x, d), Quotient(y, d), d);
  }

  lemma QuotientSpan(x: nat, d: int)
    requires d >= 1
    ensures Quotient(x, d) * d <= x < Quotient(x, d) * d + d
  {
  }

  lemma LessByProduct(p: int, q: int, d: int)
    requires d >= 1 && p * d < q * d + d
    ensures p <= q
  {
    assert (p - q) * d < d;
    if p - q >= 1 {
      MulMonotone(1, p - q, d);
    }
  }

  lemma MulMonotone(x: int, y: int, d: int)
    requires x <= y && d >= 0
    ensures x * d <= y * d
  {
  }

  lemma QuotientRemainder(x: int, d: int, q: int, r: int)
    requires d > 0 && 0 <= r < d && x == q * d + r
    ensures x / d == q && x % d == r
  {
    assert x == (x / d) * d + x % d;
    LessByProduct(x / d, q, d);
    LessByProduct(q, x / d, d);
  }

  lemma Assoc<T>(a: seq<T>, b: seq<T>, c: seq<T>)
    ensures (a + b) + c == a + (b + c)
  {
  }

  /** How many elements of xs satisfy p. */
  ghost function CountIf<T>(p: T -> bool, xs: seq<T>): (n: nat)
    ensures n <= |xs|
  {
    if xs == [] then 0
    else CountIf(p, xs[..|xs| - 1]) + (if p(xs[|xs| - 1]) then 1 else 0)
  }

  lemma {:induction false} CountIfUpdate<T>(p: T -> bool, xs: seq<T>, i: nat, x: T)
    requires i < |xs|
    ensures CountIf(p, xs[i := x]) ==
            CountIf(p, xs) - (if p(xs[i]) then 1 else 0) + (if p(x) then 1 else 0)
  {
    var n := |xs| - 1;
    if i == n {
      assert xs[i := x][..n] == xs[..n];
    } else {
      assert xs[i := x][..n] == xs[..n][i := x];
      CountIfUpdate(p, xs[..n], i, x);
    }
  }

  lemma {:induction false} CountIfImplied<T>(p: T -> bool, q: T -> bool, xs: seq<T>)
    requires forall k :: 0 <= k < |xs| && p(xs[k]) ==> q(xs[k])
    ensures CountIf(p, xs) <= CountIf(q, xs)
  {
    if xs != [] {
      CountIfImplied(p, q, xs[..|xs| - 1]);
    }
  }

  lemma {:induction false} CountIfNone<T>(p: T -> bool, xs: seq<T>)
    requires forall k :: 0 <= k < |xs| ==> !p(xs[k])
    ensures CountIf(p, xs) == 0
  {
    if xs != [] {
      CountIfNone(p, xs[..|xs| - 1]);
    }
  }

  lemma {:induction false} CountIfSplit<T>(p: T -> bool, q: T -> bool, r: T -> bool, xs: seq<T>)
    requires forall k :: 0 <= k < |xs| ==> (p(xs[k]) <==> q(xs[k]) || r(xs[k])) && !(q(xs[k]) && r(xs[k]))
    ensures CountIf(p, xs) == CountIf(q, xs) + CountIf(r, xs)
  {
    if xs != [] {
      CountIfSplit(p, q, r, xs[..|xs| - 1]);
    }
  }

  lemma {:induction false} CountIfMember<T>(p: T -> bool, xs: seq<T>, i: nat)
    requires i < |xs| && p(xs[i])
    ensures CountIf(p, xs) >= 1
  {
    if i < |xs| - 1 {
      CountIfMember(p, xs[..|xs| - 1], i);
    }
  }

  lemma {:induction false} CountIfAll<T>(p: T -> bool, xs: seq<T>)
    requires forall k :: 0 <= k < |xs| ==> p(xs[k])
    ensures CountIf(p, xs) == |xs|
  {
    if xs != [] {
      CountIfAll(p, xs[..|xs| - 1]);
    }
  }

  /** The concatenation of a sequence of sequences. */
  function Concat<T>(parts: seq<seq<T>>): seq<T> {
    if parts == [] then [] else Concat(parts[..|parts| - 1]) + parts[|parts| - 1]
  }

  lemma ConcatNothing<T>()
    ensures Concat<T>([]) == []
  {
  }

  lemma ConcatAppend<T>(parts: seq<seq<T>>, part: seq<T>)
    ensures Concat(parts + [part]) == Concat(parts) + part
  {
    assert (parts + [part])[..|parts|] == parts;
  }

  lemma {:induction false} ConcatConcat<T>(a: seq<seq<T>>, b: seq<seq<T>>)
    ensures Concat(a + b) == Concat(a) + Concat(b)
  {
    if b == [] {
      assert a + b == a && Concat(b) == [];
    } else {
      var n := |b| - 1;
      ConcatConcat(a, b[..n]);
      assert (a + b)[|a + b| - 1] == b[n];
      assert (a + b)[..|a + b| - 1] == a + b[..n];
      Assoc(Concat(a), Concat(b[..n]), b[n]);
    }
  }

  lemma ConcatSplit<T>(parts: seq<seq<T>>, k: nat)
    requires k <= |parts|
    ensures Concat(parts) == Concat(parts[..k]) + Concat(parts[k..])
  {
    assert parts == parts[..k] + parts[k..];
    ConcatConcat(parts[..k], parts[k..]);
  }

  lemma ConcatFirst<T>(parts: seq<seq<T>>, k: nat)
    requires k < |parts|
    ensures Concat(parts[k..]) == parts[k] + Concat(parts[k + 1..])
  {
    ConcatSplit(parts[k..], 1);
    assert parts[k..][..1] == [parts[k]] == [] + [parts[k]];
    ConcatAppend([], parts[k]);
    assert parts[k..][1..] == parts[k + 1..];
  }

  lemma ConcatNonEmpty<T>(parts: seq<seq<T>>)
    requires parts != [] && parts[|parts| - 1] != []
    ensures Concat(parts) != []
  {
    assert |Concat(parts)| >= |parts[|parts| - 1]|;
  }

  /** The elements from index i on. The loops over key-value lists step by two
      and overshoot by one on odd lists. */
  function From<T>(list: seq<T>, i: nat): seq<T> {
    if i < |list| then list[i..] else []
  }

  lemma FromNext<T>(list: seq<T>, i: nat)
    requires i < |list|
    ensures From(list, i) == list[i..] && From(list, i)[0] == list[i]
    ensures i + 1 < |list| ==> |From(list, i)| > 1 && From(list, i)[1] == list[i + 1]
                                 && From(list, i)[2..] == From(list, i + 2)
    ensures i + 1 == |list| ==> |From(list, i)| == 1 && From(list, i + 2) == []
  {
  }
}
