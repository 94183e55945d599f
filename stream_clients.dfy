/**
 * The free-function clients of the lazy stream: `sum` as a lazy right fold with `add`,
 * `doubleall` and `summatrix` through `map`, and the recorded outputs on `Xs`, `Z1`, `Z2`
 * and `M1`. The free `foldr`, `append`, `length`, `flatMap`, `map` and `zip2` of this file
 * have the bodies of the stream methods and are those members.
 */
module StreamClients {
  import opened Seqs
  import opened Streams
  import StrictFolds

  /** `add`: the head plus the forced rest of the fold. */
  function Add(): (int, () -> int) -> int {
    (a: int, b: () -> int) => a + b()
  }

  function Sum(s: Stream<int>): int {
    FoldRight(s, () => 0, Add())
  }

  function Double(n: int): int { 2 * n }

  function DoubleAll(s: Stream<int>): Stream<int> {
    Map(s, Double)
  }

  function Summatrix(mat: Stream<Stream<int>>): int {
    Sum(Map(mat, Sum))
  }

  /** The lazy `sum` is the sum of the elements. */
  lemma {:induction false} SumSpec(s: Stream<int>)
    ensures Sum(s) == Seqs.Sum(Elems(s))
    decreases s
  {
    match s
    case Nil =>
    case Cons(h, t) =>
      SumSpec(t);
      assert Sum(s) == h + Sum(t);
      assert Elems(s)[1..] == Elems(t);
  }

  /** The lazy `sum` and the strict one agree on every stream. */
  lemma SumIsStrictSum(s: Stream<int>)
    ensures Sum(s) == StrictFolds.Sum(s)
  {
    SumSpec(s);
    StrictFolds.SumSpec(s);
  }

  lemma DoubleAllSpec(s: Stream<int>)
    ensures Elems(DoubleAll(s)) == MapSeq((n: int) => 2 * n, Elems(s))
  {
    MapSpec(s, Double);
  }

  /** `summatrix` is the sum of the row sums. */
  lemma SummatrixSpec(mat: Stream<Stream<int>>)
    ensures Summatrix(mat) == Seqs.Sum(MapSeq((row: Stream<int>) => Seqs.Sum(Elems(row)), Elems(mat)))
  {
    MapSpec(mat, Sum);
    SumSpec(Map(mat, Sum));
    forall row: Stream<int> {
      SumSpec(row);
    }
    assert MapSeq(Sum, Elems(mat)) == MapSeq((row: Stream<int>) => Seqs.Sum(Elems(row)), Elems(mat));
  }

  function Xs(): Stream<int> { Of([1, 1, 2, 3, 5, 8, 13, 21]) }
  function Z1(): Stream<int> { Of([1, 2]) }
  function Z2(): Stream<int> { Of([3, 4]) }
  function M1(): Stream<Stream<int>> { Of([Z1(), Z2(), Xs()]) }

  lemma SumXs()
    ensures Sum(Xs()) == 54
  {
    SumSpec(Xs());
    SumFibonacci();
  }

  lemma LengthXs()
    ensures Length(Xs()) == 8
  {
    LengthIsCount(Xs());
  }

  lemma AppendZ()
    ensures Elems(Append(Z1(), () => Z2())) == [1, 2, 3, 4]
  {
    AppendSpec(Z1(), () => Z2());
  }

  lemma DoubleAllXs()
    ensures Elems(DoubleAll(Xs())) == [2, 2, 4, 6, 10, 16, 26, 42]
  {
    DoubleAllSpec(Xs());
  }

  /** `summatrix(M1)` is 3 + 7 + 54. */
  lemma SummatrixM1()
    ensures Summatrix(M1()) == 64
  {
    SummatrixSpec(M1());
    SumFibonacci();
    SumPair(1, 2);
    SumPair(3, 4);
    var sums := MapSeq((row: Stream<int>) => Seqs.Sum(Elems(row)), Elems(M1()));
    assert sums == [3, 7, 54];
    SumTriple(3, 7, 54);
  }

  lemma ZipZ()
    ensures Elems(Zip(Z1(), () => Z2())) == [(1, 3), (2, 4)]
  {
    ZipSpec(Z1(), () => Z2());
  }
}
