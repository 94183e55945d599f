/** Reference definitions over sequences, against which the stream and list operations are specified. */
module Seqs {

  function Min(a: int, b: int): int { if a <= b then a else b }

  function Max(a: int, b: int): int { if a <= b then b else a }

  /** Right fold over a sequence: `f(xs[0], f(xs[1], ... f(xs[n-1], z)))`. */
  function FoldR<A, B>(f: (A, B) -> B, z: B, xs: seq<A>): B
    decreases |xs|
  {
    if |xs| == 0 then z else f(xs[0], FoldR(f, z, xs[1..]))
  }

  /** Left fold over a sequence: `f(... f(f(z, xs[0]), xs[1]) ..., xs[n-1])`. */
  function FoldL<A, B>(f: (B, A) -> B, z: B, xs: seq<A>): B
    decreases |xs|
  {
    if |xs| == 0 then z else FoldL(f, f(z, xs[0]), xs[1..])
  }

  function Sum(xs: seq<int>): int
    decreases |xs|
  {
    if |xs| == 0 then 0 else xs[0] + Sum(xs[1..])
  }

  function Product(xs: seq<int>): int
    decreases |xs|
  {
    if |xs| == 0 then 1 else xs[0] * Product(xs[1..])
  }

  /** The elements of `xs` that satisfy `p`, in their order. */
  function Filter<A>(p: A -> bool, xs: seq<A>): seq<A>
    decreases |xs|
  {
    if |xs| == 0 then []
    else (if p(xs[0]) then [xs[0]] else []) + Filter(p, xs[1..])
  }

  /** The pointwise image of `xs` under `f`. */
  function MapSeq<A, B>(f: A -> B, xs: seq<A>): (r: seq<B>)
    ensures |r| == |xs|
    ensures forall i :: 0 <= i < |xs| ==> r[i] == f(xs[i])
  {
    seq(|xs|, i requires 0 <= i < |xs| => f(xs[i]))
  }

  /** The concatenation of the sequences in `xss`. */
  function Flatten<A>(xss: seq<seq<A>>): seq<A>
    decreases |xss|
  {
    if |xss| == 0 then [] else xss[0] + Flatten(xss[1..])
  }

  /** The longest prefix of `xs` whose elements all satisfy `p`. */
  function PrefixWhile<A>(p: A -> bool, xs: seq<A>): seq<A>
    decreases |xs|
  {
    if |xs| == 0 || !p(xs[0]) then [] else [xs[0]] + PrefixWhile(p, xs[1..])
  }

  /** The strings of `xs` separated by ", ". */
  function Join(xs: seq<string>): string
    decreases |xs|
  {
    if |xs| == 0 then ""
    else if |xs| == 1 then xs[0]
    else Join(xs[..|xs| - 1]) + ", " + xs[|xs| - 1]
  }

  /** The decimal digits of a natural number. */
  function NatToString(n: nat): string
    decreases n
  {
    var d := ["0", "1", "2", "3", "4", "5", "6", "7", "8", "9"][n % 10];
    if n < 10 then d else NatToString(n / 10) + d
  }

  /** The rendering of an integer that string conversion of a whole number gives. */
  function IntToString(n: int): string {
    if n < 0 then "-" + NatToString(-n) else NatToString(n)
  }

  lemma {:induction false} SumAppend(xs: seq<int>, ys: seq<int>)
    ensures Sum(xs + ys) == Sum(xs) + Sum(ys)
    decreases |xs|
  {
    if |xs| == 0 {
      assert xs + ys == ys;
    } else {
      assert (xs + ys)[1..] == xs[1..] + ys;
      SumAppend(xs[1..], ys);
    }
  }

  /** The sequence that the list and stream examples are built from sums to 54. */
  lemma SumFibonacci()
    ensures Sum([1, 1, 2, 3, 5, 8, 13, 21]) == 54
  {
    var xs := [1, 1, 2, 3, 5, 8, 13, 21];
    assert Sum(xs[7..]) == 21;
    assert Sum(xs[6..]) == 34 by { assert xs[6..][1..] == xs[7..]; }
    assert Sum(xs[5..]) == 42 by { assert xs[5..][1..] == xs[6..]; }
    assert Sum(xs[4..]) == 47 by { assert xs[4..][1..] == xs[5..]; }
    assert Sum(xs[3..]) == 50 by { assert xs[3..][1..] == xs[4..]; }
    assert Sum(xs[2..]) == 52 by { assert xs[2..][1..] == xs[3..]; }
    assert Sum(xs[1..]) == 53 by { assert xs[1..][1..] == xs[2..]; }
  }

  lemma SumPair(a: int, b: int)
    ensures Sum([a, b]) == a + b
  {
    assert [b][1..] == [];
    assert Sum([b]) == b;
    assert [a, b][1..] == [b];
  }

  lemma SumTriple(a: int, b: int, c: int)
    ensures Sum([a, b, c]) == a + b + c
  {
    assert [a, b, c][1..] == [b, c];
    SumPair(b, c);
  }
}
