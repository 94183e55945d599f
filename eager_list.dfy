/**
 * The strict list of lab11/util.ts: `Nil` or a head value and a tail list, with the
 * operations written through its right fold `foldr(f, x)`.
 */
module EagerList {
  import opened Seqs

  datatype List<T> = Nil | Cons(h: T, t: List<T>)

  /** The elements of a list, in order. */
  function Items<T>(l: List<T>): seq<T>
    decreases l
  {
    match l
    case Nil => []
    case Cons(h, t) => [h] + Items(t)
  }

  /** `list(...s)`: the list of the given values; no values give `Nil`. */
  function FromSeq<T>(xs: seq<T>): (l: List<T>)
    ensures Items(l) == xs
    ensures xs == [] <==> l == Nil
    decreases |xs|
  {
    if |xs| == 0 then Nil else Cons(xs[0], FromSeq(xs[1..]))
  }

  /** `foldr(f, x)(l)`: `x` on `Nil` and `f(h, foldr(f, x)(t))` on a node. */
  function FoldR<A, B>(f: (A, B) -> B, x: B, l: List<A>): B
    decreases l
  {
    match l
    case Nil => x
    case Cons(h, t) => f(h, FoldR(f, x, t))
  }

  function Sum(l: List<int>): int {
    FoldR((a: int, b: int) => a + b, 0, l)
  }

  /** `append(a, b) = foldr(cons, b)(a)`. */
  function Append<T>(a: List<T>, b: List<T>): List<T> {
    FoldR((h: T, t: List<T>) => Cons(h, t), b, a)
  }

  function Length<T>(l: List<T>): int {
    FoldR((a: T, n: int) => n + 1, 0, l)
  }

  /** `doubleall = foldr(doubleandcons, none())`. */
  function DoubleAll(l: List<int>): List<int> {
    FoldR((n: int, rest: List<int>) => Cons(2 * n, rest), Nil, l)
  }

  /** What `toString` renders: "List[" and the elements separated by ", " and "]". */
  function Render<T>(show: T -> string, l: List<T>): string {
    "List[" + Join(MapSeq(show, Items(l))) + "]"
  }

  /** `toString`: the head, then ", " and each further element; `show` is the string conversion. */
  method ToString<T>(l: List<T>, show: T -> string) returns (msg: string)
    ensures msg == Render(show, l)
  {
    msg := "List[";
    if l.Cons? {
      msg := msg + show(l.h);
      var cur := l.t;
      ghost var done := [l.h];
      while cur.Cons?
        invariant done + Items(cur) == Items(l)
        invariant |done| >= 1
        invariant msg == "List[" + Join(MapSeq(show, done))
        decreases cur
      {
        assert MapSeq(show, done + [cur.h])[..|done|] == MapSeq(show, done);
        msg := msg + ", " + show(cur.h);
        done := done + [cur.h];
        cur := cur.t;
      }
      assert done == Items(l);
    }
    msg := msg + "]";
  }

  // ---------------------------------------------------------------------------

  /** The list fold is the sequence right fold over the items. */
  lemma {:induction false} FoldRSpec<A, B>(f: (A, B) -> B, x: B, l: List<A>)
    ensures FoldR(f, x, l) == Seqs.FoldR(f, x, Items(l))
    decreases l
  {
    match l
    case Nil =>
    case Cons(h, t) =>
      FoldRSpec(f, x, t);
      assert Items(l)[1..] == Items(t);
  }

  lemma {:induction false} SumSpec(l: List<int>)
    ensures Sum(l) == Seqs.Sum(Items(l))
    decreases l
  {
    match l
    case Nil =>
    case Cons(h, t) =>
      SumSpec(t);
      assert Items(l)[1..] == Items(t);
  }

  lemma {:induction false} AppendSpec<T>(a: List<T>, b: List<T>)
    ensures Items(Append(a, b)) == Items(a) + Items(b)
    decreases a
  {
    match a
    case Nil =>
    case Cons(h, t) => AppendSpec(t, b);
  }

  lemma {:induction false} LengthSpec<T>(l: List<T>)
    ensures Length(l) == |Items(l)|
    decreases l
  {
    match l
    case Nil =>
    case Cons(h, t) => LengthSpec(t);
  }

  lemma {:induction false} DoubleAllSpec(l: List<int>)
    ensures |Items(DoubleAll(l))| == |Items(l)|
    ensures forall i :: 0 <= i < |Items(l)| ==> Items(DoubleAll(l))[i] == 2 * Items(l)[i]
    decreases l
  {
    match l
    case Nil =>
    case Cons(h, t) => DoubleAllSpec(t);
  }

  // ---------------------------------------------------------------------------
  // The expected outputs recorded beside the calls in lab11/util.ts

  /** A list is determined by its items. */
  lemma {:induction false} ItemsInjective<T>(a: List<T>, b: List<T>)
    requires Items(a) == Items(b)
    ensures a == b
    decreases a
  {
    match a
    case Nil =>
    case Cons(h, t) =>
      assert Items(b)[0] == h && Items(b)[1..] == Items(t);
      ItemsInjective(t, b.t);
  }

  /** `Xs = list(1, 1, 2, 3, 5, 8, 13, 21)`. */
  function Xs(): List<int> {
    FromSeq([1, 1, 2, 3, 5, 8, 13, 21])
  }

  lemma SumXs()
    ensures Sum(Xs()) == 54
  {
    SumSpec(Xs());
    SumFibonacci();
  }

  lemma LengthXs()
    ensures Length(Xs()) == 8
  {
    LengthSpec(Xs());
  }

  lemma AppendExample()
    ensures Append(FromSeq([1, 2]), FromSeq([3, 4])) == FromSeq([1, 2, 3, 4])
  {
    AppendSpec(FromSeq([1, 2]), FromSeq([3, 4]));
    assert [1, 2] + [3, 4] == [1, 2, 3, 4];
    ItemsInjective(Append(FromSeq([1, 2]), FromSeq([3, 4])), FromSeq([1, 2, 3, 4]));
  }

  lemma DoubleAllXs()
    ensures DoubleAll(Xs()) == FromSeq([2, 2, 4, 6, 10, 16, 26, 42])
  {
    DoubleAllSpec(Xs());
    var ys := [2, 2, 4, 6, 10, 16, 26, 42];
    assert Items(DoubleAll(Xs())) == ys;
    ItemsInjective(DoubleAll(Xs()), FromSeq(ys));
  }

  lemma RenderXs()
    ensures Render(IntToString, Xs()) == "List[1, 1, 2, 3, 5, 8, 13, 21]"
  {
    var shown := ShownXs();
    JoinXs(shown);
  }

  lemma JoinXs(shown: seq<string>)
    requires shown == ["1", "1", "2", "3", "5", "8", "13", "21"]
    ensures Join(shown) == "1, 1, 2, 3, 5, 8, 13, 21"
  {
    assert Join(shown[..1]) == "1";
    assert Join(shown[..2]) == "1, 1" by { assert shown[..2][..1] == shown[..1]; }
    assert Join(shown[..3]) == "1, 1, 2" by { assert shown[..3][..2] == shown[..2]; }
    assert Join(shown[..4]) == "1, 1, 2, 3" by { assert shown[..4][..3] == shown[..3]; }
    assert Join(shown[..5]) == "1, 1, 2, 3, 5" by { assert shown[..5][..4] == shown[..4]; }
    assert Join(shown[..6]) == "1, 1, 2, 3, 5, 8" by { assert shown[..6][..5] == shown[..5]; }
    assert Join(shown[..7]) == "1, 1, 2, 3, 5, 8, 13" by { assert shown[..7][..6] == shown[..6]; }
    assert Join(shown) == "1, 1, 2, 3, 5, 8, 13, 21" by { assert shown[..7] == shown[..|shown| - 1]; }
  }

  lemma ShownXs() returns (shown: seq<string>)
    ensures shown == MapSeq(IntToString, Items(Xs()))
    ensures shown == ["1", "1", "2", "3", "5", "8", "13", "21"]
  {
    shown := MapSeq(IntToString, [1, 1, 2, 3, 5, 8, 13, 21]);
    assert IntToString(13) == "13" by { assert NatToString(1) == "1"; assert NatToString(13) == NatToString(1) + "3"; }
    assert IntToString(21) == "21" by { assert NatToString(2) == "2"; assert NatToString(21) == NatToString(2) + "1"; }
    assert IntToString(1) == "1" && IntToString(2) == "2" && IntToString(3) == "3";
    assert IntToString(5) == "5" && IntToString(8) == "8";
  }

  lemma RenderEmpty<T>(show: T -> string)
    ensures Render(show, Nil) == "List[]"
  {
  }
}
