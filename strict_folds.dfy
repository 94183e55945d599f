/**
 * The strict clients of the stream type: `reduce` forces the whole spine and folds from
 * the right, and `sum`, `product`, `multiply`, `alltrue`, `doubleall` and `summatrix` are
 * built on it (or, for `doubleall`, on the stream's `map`).
 */
module StrictFolds {
  import opened Seqs
  import opened Streams

  /** `reduce(l, z, f)`: `z` on the empty stream, `f(head, reduce(tail, z, f))` otherwise. */
  function Reduce<A, B>(l: Stream<A>, z: B, f: (A, B) -> B): B
    decreases l
  {
    match l
    case Nil => z
    case Cons(h, t) => f(h, Reduce(t, z, f))
  }

  function Sum(l: Stream<int>): int {
    Reduce(l, 0, (a: int, b: int) => a + b)
  }

  function Product(l: Stream<int>): int {
    Reduce(l, 1, (a: int, b: int) => a * b)
  }

  /** `multiply` has the body of `product`; it is that function under a second name. */
  function Multiply(l: Stream<int>): int {
    Product(l)
  }

  function AllTrue(l: Stream<bool>): bool {
    Reduce(l, true, (a: bool, b: bool) => a && b)
  }

  function Double(a: int): int { a * 2 }

  function DoubleAll(l: Stream<int>): Stream<int> {
    Map(l, Double)
  }

  function Summatrix(ll: Stream<Stream<int>>): int {
    Sum(Map(ll, Sum))
  }

  /** `reduce` is the right fold of the stream's elements. */
  lemma {:induction false} ReduceSpec<A, B>(l: Stream<A>, z: B, f: (A, B) -> B)
    ensures Reduce(l, z, f) == FoldR(f, z, Elems(l))
    decreases l
  {
    match l
    case Nil =>
    case Cons(h, t) =>
      ReduceSpec(t, z, f);
      assert Elems(l)[1..] == Elems(t);
  }

  lemma {:induction false} SumSpec(l: Stream<int>)
    ensures Sum(l) == Seqs.Sum(Elems(l))
    decreases l
  {
    match l
    case Nil =>
    case Cons(h, t) =>
      SumSpec(t);
      assert Elems(l)[1..] == Elems(t);
  }

  lemma {:induction false} ProductSpec(l: Stream<int>)
    ensures Product(l) == Seqs.Product(Elems(l))
    ensures Multiply(l) == Seqs.Product(Elems(l))
    decreases l
  {
    match l
    case Nil =>
    case Cons(h, t) =>
      ProductSpec(t);
      assert Elems(l)[1..] == Elems(t);
  }

  /** `alltrue` holds exactly when every element is `true`; it is `true` on the empty stream. */
  lemma {:induction false} AllTrueSpec(l: Stream<bool>)
    ensures AllTrue(l) <==> forall i :: 0 <= i < |Elems(l)| ==> Elems(l)[i]
    decreases l
  {
    match l
    case Nil =>
    case Cons(h, t) =>
      AllTrueSpec(t);
      assert AllTrue(l) == (h && AllTrue(t));
      assert Elems(l)[0] == h;
      assert forall i :: 0 <= i < |Elems(t)| ==> Elems(t)[i] == Elems(l)[i + 1];
      if AllTrue(l) {
        forall i | 0 < i < |Elems(l)|
          ensures Elems(l)[i]
        {
          assert Elems(l)[i] == Elems(t)[i - 1];
        }
      } else if h {
        var j :| 0 <= j < |Elems(t)| && !Elems(t)[j];
        assert !Elems(l)[j + 1];
      }
  }

  /** `doubleall` keeps the length and doubles each element. */
  lemma DoubleAllSpec(l: Stream<int>)
    ensures |Elems(DoubleAll(l))| == |Elems(l)|
    ensures forall i :: 0 <= i < |Elems(l)| ==> Elems(DoubleAll(l))[i] == 2 * Elems(l)[i]
  {
    MapSpec(l, Double);
  }

  /** `summatrix` is the sum of the row sums. */
  lemma SummatrixSpec(ll: Stream<Stream<int>>)
    ensures Summatrix(ll) == Seqs.Sum(MapSeq((row: Stream<int>) => Seqs.Sum(Elems(row)), Elems(ll)))
  {
    MapSpec(ll, Sum);
    SumSpec(Map(ll, Sum));
    forall row: Stream<int> {
      SumSpec(row);
    }
    assert MapSeq(Sum, Elems(ll)) == MapSeq((row: Stream<int>) => Seqs.Sum(Elems(row)), Elems(ll));
  }
}
