/**
 * The curried list functions of lab11/ch3.ts: the same strict list, with a right fold
 * whose combining function takes its two arguments one at a time, and the list
 * functions built from it by composition.
 */
module CurriedList {
  import opened Seqs
  import opened EagerList

  /** `foldr(f, x)(l)` with a curried `f`: `x` on `Nil` and `f(h)(foldr(f, x)(t))` on a node. */
  function FoldC<A, B>(f: A -> B -> B, x: B, l: List<A>): B
    decreases l
  {
    match l
    case Nil => x
    case Cons(h, t) => f(h)(FoldC(f, x, t))
  }

  /** `add = a => b => a + b`. */
  function Add(): int -> int -> int {
    a => b => a + b
  }

  /** The curried `cons`. */
  function ConsC<T>(): T -> List<T> -> List<T> {
    h => t => Cons(h, t)
  }

  /** `count = a => n => n + 1`. */
  function Count<T>(): T -> int -> int {
    a => n => n + 1
  }

  /** `compose(f1)(f2) = x => f1(f2(x))`. */
  function Compose<A, B, C>(f1: B -> C, f2: A -> B): A -> C {
    x => f1(f2(x))
  }

  function Sum(l: List<int>): int {
    FoldC(Add(), 0, l)
  }

  /** `append(a)(b) = foldr(cons, b)(a)`. */
  function Append<T>(a: List<T>, b: List<T>): List<T> {
    FoldC(ConsC(), b, a)
  }

  function Length<T>(l: List<T>): int {
    FoldC(Count(), 0, l)
  }

  /** `map(f) = foldr(compose(cons)(f), none())`. */
  function Map<A, B>(f: A -> B, l: List<A>): List<B> {
    FoldC(Compose(ConsC(), f), Nil, l)
  }

  function DoubleAll(l: List<int>): List<int> {
    Map((n: int) => 2 * n, l)
  }

  /** `summatrix = compose(sum)(map(sum))`. */
  function Summatrix(m: List<List<int>>): int {
    Sum(Map(Sum, m))
  }

  // ---------------------------------------------------------------------------

  /** The curried fold is the uncurried one of lab11/util.ts. */
  lemma {:induction false} FoldCIsFoldR<A, B>(f: A -> B -> B, x: B, l: List<A>)
    ensures FoldC(f, x, l) == EagerList.FoldR((a: A, b: B) => f(a)(b), x, l)
    decreases l
  {
    match l
    case Nil =>
    case Cons(h, t) => FoldCIsFoldR(f, x, t);
  }

  lemma {:induction false} SumSpec(l: List<int>)
    ensures Sum(l) == Seqs.Sum(Items(l))
    decreases l
  {
    match l
    case Nil =>
    case Cons(h, t) =>
      SumSpec(t);
      assert Items(l)[1..] == Items(t);
  }

  lemma {:induction false} AppendSpec<T>(a: List<T>, b: List<T>)
    ensures Items(Append(a, b)) == Items(a) + Items(b)
    decreases a
  {
    match a
    case Nil =>
    case Cons(h, t) => AppendSpec(t, b);
  }

  lemma {:induction false} LengthSpec<T>(l: List<T>)
    ensures Length(l) == |Items(l)|
    decreases l
  {
    match l
    case Nil =>
    case Cons(h, t) => LengthSpec(t);
  }

  lemma {:induction false} MapSpec<A, B>(f: A -> B, l: List<A>)
    ensures Items(Map(f, l)) == MapSeq(f, Items(l))
    decreases l
  {
    match l
    case Nil =>
    case Cons(h, t) =>
      MapSpec(f, t);
      assert MapSeq(f, Items(l)) == [f(h)] + MapSeq(f, Items(t));
  }

  /** The sum of a matrix is the sum of its row sums. */
  lemma SummatrixSpec(m: List<List<int>>)
    ensures Summatrix(m) == Seqs.Sum(MapSeq((row: List<int>) => Seqs.Sum(Items(row)), Items(m)))
  {
    MapSpec(Sum, m);
    SumSpec(Map(Sum, m));
    var rows := Items(m);
    forall i | 0 <= i < |rows| ensures Sum(rows[i]) == Seqs.Sum(Items(rows[i])) {
      SumSpec(rows[i]);
    }
    assert MapSeq(Sum, rows) == MapSeq((row: List<int>) => Seqs.Sum(Items(row)), rows);
  }

  // ---------------------------------------------------------------------------
  // The expected outputs recorded beside the calls in lab11/ch3.ts

  lemma Examples()
    ensures Sum(Xs()) == 54
    ensures Length(Xs()) == 8
    ensures Append(FromSeq([1, 2]), FromSeq([3, 4])) == FromSeq([1, 2, 3, 4])
  {
    SumSpec(Xs());
    EagerList.SumSpec(Xs());
    EagerList.SumXs();
    LengthSpec(Xs());
    AppendSpec(FromSeq([1, 2]), FromSeq([3, 4]));
    assert [1, 2] + [3, 4] == [1, 2, 3, 4];
    ItemsInjective(Append(FromSeq([1, 2]), FromSeq([3, 4])), FromSeq([1, 2, 3, 4]));
  }

  lemma DoubleAllXs()
    ensures DoubleAll(Xs()) == FromSeq([2, 2, 4, 6, 10, 16, 26, 42])
  {
    MapSpec((n: int) => 2 * n, Xs());
    var ys := [2, 2, 4, 6, 10, 16, 26, 42];
    assert Items(DoubleAll(Xs())) == ys;
    ItemsInjective(DoubleAll(Xs()), FromSeq(ys));
  }

  /** `M1 = list(Z1, Z2, Xs)` with `Z1 = list(1, 2)` and `Z2 = list(3, 4)` sums to 64. */
  lemma SummatrixM1()
    ensures Summatrix(FromSeq([FromSeq([1, 2]), FromSeq([3, 4]), Xs()])) == 64
  {
    var m := FromSeq([FromSeq([1, 2]), FromSeq([3, 4]), Xs()]);
    SummatrixSpec(m);
    SumFibonacci();
    SumPair(1, 2);
    SumPair(3, 4);
    var sums := MapSeq((row: List<int>) => Seqs.Sum(Items(row)), Items(m));
    assert sums == [3, 7, 54];
    SumTriple(3, 7, 54);
  }
}
