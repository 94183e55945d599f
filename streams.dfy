/**
 * The persistent stream of lab11/ch5.ts: `Nil` or a node holding a head and a tail.
 * The source keeps both behind memoised thunks; here the fields hold the values the
 * thunks yield, and every combinator is defined by the same recursion as the source,
 * most of them through `FoldRight`. `Elems` is the sequence a finite stream denotes.
 */
module Streams {
  import opened Outcomes
  import opened Seqs

  datatype Stream<A> = Nil | Cons(h: A, t: Stream<A>)

  /** The elements of a finite stream, in order (what `toList` returns). */
  function Elems<A>(s: Stream<A>): seq<A>
    decreases s
  {
    match s
    case Nil => []
    case Cons(h, t) => [h] + Elems(t)
  }

  /** `stream(...s)`: a stream of the given values. */
  function Of<A>(xs: seq<A>): (s: Stream<A>)
    ensures Elems(s) == xs
    decreases |xs|
  {
    if |xs| == 0 then Nil else Cons(xs[0], Of(xs[1..]))
  }

  /**
   * The lazy right fold: `Nil` yields `z()`, a node yields `f(head, thunk of the tail's fold)`,
   * so `f` decides whether the rest of the stream is folded at all.
   */
  function FoldRight<A, B>(s: Stream<A>, z: () -> B, f: (A, () -> B) -> B): B
    decreases s
  {
    match s
    case Nil => z()
    case Cons(h, t) => f(h, () => FoldRight(t, z, f))
  }

  /** The left fold: the accumulator is passed on as a thunk. */
  function FoldLeft<A, B>(s: Stream<A>, z: () -> B, f: (() -> B, A) -> B): B
    decreases s
  {
    match s
    case Nil => z()
    case Cons(h, t) => FoldLeft(t, () => f(z, h), f)
  }

  /** The first `n` elements; `Nil` once `n <= 0` or the stream is exhausted. */
  function Take<A>(s: Stream<A>, n: int): Stream<A>
    decreases s
  {
    if s.Nil? || n <= 0 then Nil else Cons(s.h, Take(s.t, n - 1))
  }

  /** `takeWhile` as written: a failing element skips to the rest of the fold instead of stopping. */
  function TakeWhile<A>(s: Stream<A>, p: A -> bool): Stream<A> {
    FoldRight(s, () => Nil, (a, b: () -> Stream<A>) => if p(a) then Cons(a, b()) else b())
  }

  /** `takeWhile` as evidently intended: the first failing element ends the stream. */
  function TakeWhileCut<A>(s: Stream<A>, p: A -> bool): Stream<A> {
    FoldRight(s, () => Nil, (a, b: () -> Stream<A>) => if p(a) then Cons(a, b()) else Nil)
  }

  /** `length` as a fold that ignores the elements. */
  function Length<A>(s: Stream<A>): int {
    FoldRight(s, () => 0, (a, b: () -> int) => b() + 1)
  }

  /**
   * `get(i)`: the empty stream is a type error; an index at or past the length is a
   * range error; a negative index is retried as `length + i`; otherwise walk down.
   */
  function Get<A>(s: Stream<A>, i: int): Result<A>
    decreases s, if i < 0 then -i else 0
  {
    if s.Nil? then Err(TypeError)
    else
      LengthIsCount(s);
      var n := Length(s);
      if i >= n then Err(RangeError)
      else if i < 0 then Get(s, n + i)
      else if i == 0 then Ok(s.h)
      else Get(s.t, i - 1)
  }

  /** The stream without its first `n` elements; the stream itself when `n <= 0`. */
  function Drop<A>(s: Stream<A>, n: int): Stream<A>
    decreases s
  {
    if n <= 0 || s.Nil? then s else Drop(s.t, n - 1)
  }

  /** Pairs of corresponding elements, as long as both streams last. */
  function Zip<A, B>(s: Stream<A>, that: () -> Stream<B>): Stream<(A, B)>
    decreases s
  {
    var another := that();
    if s.Nil? || another.Nil? then Nil
    else Cons((s.h, another.h), Zip(s.t, () => another.t))
  }

  /** `f` applied to corresponding elements, as long as both streams last. */
  function ZipWith<A, B, C>(s: Stream<A>, that: () -> Stream<B>, f: (A, B) -> C): Stream<C>
    decreases s
  {
    var another := that();
    if s.Nil? || another.Nil? then Nil
    else Cons(f(s.h, another.h), ZipWith(s.t, () => another.t, f))
  }

  function Exists<A>(s: Stream<A>, p: A -> bool): bool {
    FoldRight(s, () => false, (a, b: () -> bool) => p(a) || b())
  }

  function Forall<A>(s: Stream<A>, p: A -> bool): bool {
    FoldRight(s, () => true, (a, b: () -> bool) => p(a) && b())
  }

  /** The elements of `s` followed by those of the deferred `that`. */
  function Append<A>(s: Stream<A>, that: () -> Stream<A>): Stream<A> {
    FoldRight(s, that, (a, b: () -> Stream<A>) => Cons(a, b()))
  }

  function FlatMap<A, B>(s: Stream<A>, f: A -> Stream<B>): Stream<B> {
    FoldRight(s, () => Nil, (a, b: () -> Stream<B>) => Append(f(a), b))
  }

  /** The function `map` hands to `flatMap`: each element becomes a one-element stream. */
  function MapStep<A, B>(f: A -> B): A -> Stream<B> {
    a => Of([f(a)])
  }

  function Map<A, B>(s: Stream<A>, f: A -> B): Stream<B> {
    FlatMap(s, MapStep(f))
  }

  /** The function `filter` hands to `flatMap`: a one-element stream or the empty one. */
  function FilterStep<A>(p: A -> bool): A -> Stream<A> {
    a => if p(a) then Of([a]) else Nil
  }

  function Filter<A>(s: Stream<A>, p: A -> bool): Stream<A> {
    FlatMap(s, FilterStep(p))
  }

  /** `second`: the element at position 1 of the first two, a shape error with fewer than two. */
  function Second<A>(s: Stream<A>): Result<A> {
    var head2 := Take(s, 2);
    LengthIsCount(head2);
    if Length(head2) < 2 then Err(ShapeError) else Ok(Elems(head2)[1])
  }

  /** `toList`: walk the stream node by node, pushing each head. */
  method ToList<A>(s: Stream<A>) returns (ans: seq<A>)
    ensures ans == Elems(s)
  {
    ans := [];
    var cur := s;
    while cur.Cons?
      invariant ans + Elems(cur) == Elems(s)
      decreases cur
    {
      ans := ans + [cur.h];
      cur := cur.t;
    }
  }

  /** What `toString` renders: "Stream(" and the elements separated by ", " and ")". */
  function Render<A>(show: A -> string, s: Stream<A>): string {
    "Stream(" + Join(MapSeq(show, Elems(s))) + ")"
  }

  /** `toString`: the head, then ", " and each further element; `show` is the string conversion. */
  method ToString<A>(s: Stream<A>, show: A -> string) returns (msg: string)
    ensures msg == Render(show, s)
  {
    msg := "Stream(";
    if s.Cons? {
      msg := msg + show(s.h);
      var cur := s.t;
      ghost var done := [s.h];
      while cur.Cons?
        invariant done + Elems(cur) == Elems(s)
        invariant |done| >= 1
        invariant msg == "Stream(" + Join(MapSeq(show, done))
        decreases cur
      {
        assert MapSeq(show, done + [cur.h])[..|done|] == MapSeq(show, done);
        msg := msg + ", " + show(cur.h);
        done := done + [cur.h];
        cur := cur.t;
      }
      assert done == Elems(s);
    }
    msg := msg + ")";
  }

  // ---------------------------------------------------------------------------
  // The folds against the sequence folds

  /** With a combining function that forces its thunk, `FoldRight` is the sequence right fold. */
  lemma {:induction false} FoldRightStrict<A, B>(s: Stream<A>, z: () -> B, f: (A, () -> B) -> B, g: (A, B) -> B)
    requires forall a, b :: f(a, b) == g(a, b())
    ensures FoldRight(s, z, f) == FoldR(g, z(), Elems(s))
    decreases s
  {
    match s
    case Nil =>
    case Cons(h, t) =>
      FoldRightStrict(t, z, f, g);
      assert Elems(s)[1..] == Elems(t);
  }

  /** `FoldLeft` accumulates from the left: it is the sequence left fold. */
  lemma {:induction false} FoldLeftStrict<A, B>(s: Stream<A>, z: () -> B, f: (() -> B, A) -> B, g: (B, A) -> B)
    requires forall b, a :: f(b, a) == g(b(), a)
    ensures FoldLeft(s, z, f) == FoldL(g, z(), Elems(s))
    decreases s
  {
    match s
    case Nil =>
    case Cons(h, t) =>
      var z' := () => f(z, h);
      FoldLeftStrict(t, z', f, g);
      assert Elems(s)[1..] == Elems(t);
  }

  // ---------------------------------------------------------------------------
  // Length, take, drop, get

  lemma {:induction false} LengthIsCount<A>(s: Stream<A>)
    ensures Length(s) == |Elems(s)|
    decreases s
  {
    match s
    case Nil =>
    case Cons(h, t) => LengthIsCount(t);
  }

  lemma {:induction false} TakeSpec<A>(s: Stream<A>, n: int)
    ensures Elems(Take(s, n)) == Elems(s)[..Min(Max(n, 0), |Elems(s)|)]
    ensures n <= 0 || s.Nil? ==> Take(s, n) == Nil
    decreases s
  {
    if s.Cons? && n > 0 {
      TakeSpec(s.t, n - 1);
    }
  }

  lemma {:induction false} DropSpec<A>(s: Stream<A>, n: int)
    ensures Elems(Drop(s, n)) == Elems(s)[Min(Max(n, 0), |Elems(s)|)..]
    ensures n <= 0 || s.Nil? ==> Drop(s, n) == s
    decreases s
  {
    if s.Cons? && n > 0 {
      DropSpec(s.t, n - 1);
    }
  }

  /** Taking and dropping the same count splits the stream. */
  lemma TakeDropSplit<A>(s: Stream<A>, n: int)
    ensures Elems(Take(s, n)) + Elems(Drop(s, n)) == Elems(s)
  {
    TakeSpec(s, n);
    DropSpec(s, n);
  }

  /** Euclidean division is determined by quotient and remainder. */
  lemma ModUnique(i: int, n: int, q: int, r: int)
    requires n > 0 && 0 <= r < n && i == q * n + r
    ensures i % n == r
  {
    var q', r' := i / n, i % n;
    assert q' * n + r' == i;
    if q' < q {
      MulAtLeast(q - q', n);
    } else if q < q' {
      MulAtLeast(q' - q, n);
    }
  }

  lemma MulAtLeast(a: int, n: int)
    requires a >= 1 && n > 0
    ensures a * n >= n
  {
    assert a * n == (a - 1) * n + n;
  }

  lemma ModShift(i: int, n: int)
    requires n > 0
    ensures (i + n) % n == i % n
  {
    var q, r := i / n, i % n;
    assert i == q * n + r;
    assert i + n == (q + 1) * n + r;
    ModUnique(i + n, n, q + 1, r);
  }

  /** A non-negative index below the length walks down to its element. */
  lemma {:induction false} GetInRange<A>(s: Stream<A>, i: int)
    requires 0 <= i < |Elems(s)|
    ensures Get(s, i) == Ok(Elems(s)[i])
    decreases s
  {
    LengthIsCount(s);
    if i > 0 {
      GetInRange(s.t, i - 1);
    }
  }

  /**
   * `get(i)` on a non-empty finite stream of length `n`: an error when `i >= n`,
   * otherwise the element at `i mod n`, so negative indices count from the end.
   */
  lemma {:induction false} GetSpec<A>(s: Stream<A>, i: int)
    ensures s.Nil? ==> Get(s, i) == Err(TypeError)
    ensures s.Cons? && i >= |Elems(s)| ==> Get(s, i) == Err(RangeError)
    ensures s.Cons? && i < |Elems(s)| ==> Get(s, i) == Ok(Elems(s)[i % |Elems(s)|])
    decreases if i < 0 then -i else 0
  {
    if s.Cons? {
      LengthIsCount(s);
      var n := |Elems(s)|;
      if i < 0 {
        GetSpec(s, n + i);
        ModShift(i, n);
      } else if i < n {
        ModUnique(i, n, 0, i);
        GetInRange(s, i);
      }
    }
  }

  /** `get(-1)` is the last element. */
  lemma GetLast<A>(s: Stream<A>)
    requires s.Cons?
    ensures Get(s, -1) == Ok(Elems(s)[|Elems(s)| - 1])
  {
    GetSpec(s, -1);
    var n := |Elems(s)|;
    ModShift(-1, n);
  }

  // ---------------------------------------------------------------------------
  // Append, flatMap, map, filter

  lemma {:induction false} AppendSpec<A>(s: Stream<A>, that: () -> Stream<A>)
    ensures Elems(Append(s, that)) == Elems(s) + Elems(that())
    decreases s
  {
    match s
    case Nil =>
    case Cons(h, t) => AppendSpec(t, that);
  }

  lemma {:induction false} FlatMapSpec<A, B>(s: Stream<A>, f: A -> Stream<B>)
    ensures Elems(FlatMap(s, f)) == Flatten(MapSeq((a: A) => Elems(f(a)), Elems(s)))
    decreases s
  {
    match s
    case Nil =>
    case Cons(h, t) =>
      var rest := () => FlatMap(t, f);
      FlatMapSpec(t, f);
      AppendSpec(f(h), rest);
      var xss := MapSeq((a: A) => Elems(f(a)), Elems(s));
      assert xss[1..] == MapSeq((a: A) => Elems(f(a)), Elems(t));
  }

  lemma {:induction false} MapSpec<A, B>(s: Stream<A>, f: A -> B)
    ensures Elems(Map(s, f)) == MapSeq(f, Elems(s))
    decreases s
  {
    match s
    case Nil =>
    case Cons(h, t) =>
      MapSpec(t, f);
      var g := MapStep(f);
      FlatMapSpec(s, g);
      FlatMapSpec(t, g);
      assert MapSeq(f, Elems(s)) == [f(h)] + MapSeq(f, Elems(t));
      var xss := MapSeq((a: A) => Elems(g(a)), Elems(s));
      assert xss[1..] == MapSeq((a: A) => Elems(g(a)), Elems(t));
  }

  lemma {:induction false} FilterSpec<A>(s: Stream<A>, p: A -> bool)
    ensures Elems(Filter(s, p)) == Seqs.Filter(p, Elems(s))
    decreases s
  {
    match s
    case Nil =>
    case Cons(h, t) =>
      FilterSpec(t, p);
      var g := FilterStep(p);
      FlatMapSpec(s, g);
      FlatMapSpec(t, g);
      var xss := MapSeq((a: A) => Elems(g(a)), Elems(s));
      assert xss[1..] == MapSeq((a: A) => Elems(g(a)), Elems(t));
      assert Elems(s)[1..] == Elems(t);
  }

  /** `takeWhile` as written keeps exactly what `filter` keeps. */
  lemma {:induction false} TakeWhileIsFilter<A>(s: Stream<A>, p: A -> bool)
    ensures Elems(TakeWhile(s, p)) == Elems(Filter(s, p))
    decreases s
  {
    FilterSpec(s, p);
    match s
    case Nil =>
    case Cons(h, t) =>
      TakeWhileIsFilter(t, p);
      FilterSpec(t, p);
      assert Elems(s)[1..] == Elems(t);
  }

  /** The counterexample: with `p = x > 0` on 1, -1, 2 it keeps 1 and 2, not just 1. */
  lemma TakeWhileDoesNotStop()
    ensures Elems(TakeWhile(Of([1, -1, 2]), (x: int) => x > 0)) == [1, 2]
    ensures Elems(TakeWhileCut(Of([1, -1, 2]), (x: int) => x > 0)) == [1]
  {
    var p := (x: int) => x > 0;
    var s := Of([1, -1, 2]);
    TakeWhileIsFilter(s, p);
    FilterSpec(s, p);
    TakeWhileCutSpec(s, p);
    assert Elems(s) == [1, -1, 2];
    assert Elems(s)[1..] == [-1, 2];
    assert Elems(s)[1..][1..] == [2];
    assert Elems(s)[1..][1..][1..] == [];
  }

  /** The corrected `takeWhile` yields the longest prefix whose elements satisfy `p`. */
  lemma {:induction false} TakeWhileCutSpec<A>(s: Stream<A>, p: A -> bool)
    ensures Elems(TakeWhileCut(s, p)) == PrefixWhile(p, Elems(s))
    decreases s
  {
    match s
    case Nil =>
    case Cons(h, t) =>
      TakeWhileCutSpec(t, p);
      assert Elems(s)[1..] == Elems(t);
  }

  // ---------------------------------------------------------------------------
  // zip, exists, forall

  lemma {:induction false} ZipWithSpec<A, B, C>(s: Stream<A>, that: () -> Stream<B>, f: (A, B) -> C)
    ensures |Elems(ZipWith(s, that, f))| == Min(|Elems(s)|, |Elems(that())|)
    ensures forall i :: 0 <= i < |Elems(ZipWith(s, that, f))| ==>
      Elems(ZipWith(s, that, f))[i] == f(Elems(s)[i], Elems(that())[i])
    decreases s
  {
    var another := that();
    if s.Cons? && another.Cons? {
      var rest := () => another.t;
      ZipWithSpec(s.t, rest, f);
    }
  }

  lemma {:induction false} ZipSpec<A, B>(s: Stream<A>, that: () -> Stream<B>)
    ensures |Elems(Zip(s, that))| == Min(|Elems(s)|, |Elems(that())|)
    ensures forall i :: 0 <= i < |Elems(Zip(s, that))| ==>
      Elems(Zip(s, that))[i] == (Elems(s)[i], Elems(that())[i])
    decreases s
  {
    var another := that();
    if s.Cons? && another.Cons? {
      var rest := () => another.t;
      ZipSpec(s.t, rest);
    }
  }

  lemma {:induction false} ExistsSpec<A>(s: Stream<A>, p: A -> bool)
    ensures Exists(s, p) <==> exists i :: 0 <= i < |Elems(s)| && p(Elems(s)[i])
    decreases s
  {
    match s
    case Nil =>
    case Cons(h, t) =>
      ExistsSpec(t, p);
      assert Exists(s, p) == (p(h) || Exists(t, p));
      assert forall i :: 0 < i < |Elems(s)| ==> Elems(s)[i] == Elems(t)[i - 1];
      if p(h) {
        assert Elems(s)[0] == h;
      } else if Exists(t, p) {
        var j :| 0 <= j < |Elems(t)| && p(Elems(t)[j]);
        assert Elems(s)[j + 1] == Elems(t)[j];
      } else {
        assert Elems(s)[0] == h;
      }
  }

  lemma {:induction false} ForallSpec<A>(s: Stream<A>, p: A -> bool)
    ensures Forall(s, p) <==> forall i :: 0 <= i < |Elems(s)| ==> p(Elems(s)[i])
    decreases s
  {
    match s
    case Nil =>
    case Cons(h, t) =>
      ForallSpec(t, p);
      assert Forall(s, p) == (p(h) && Forall(t, p));
      assert forall i :: 0 < i < |Elems(s)| ==> Elems(s)[i] == Elems(t)[i - 1];
      if !p(h) {
        assert Elems(s)[0] == h;
      } else if !Forall(t, p) {
        var j :| 0 <= j < |Elems(t)| && !p(Elems(t)[j]);
        assert Elems(s)[j + 1] == Elems(t)[j];
      } else {
        assert Elems(s)[0] == h;
      }
  }

  lemma SecondSpec<A>(s: Stream<A>)
    ensures |Elems(s)| < 2 ==> Second(s) == Err(ShapeError)
    ensures |Elems(s)| >= 2 ==> Second(s) == Ok(Elems(s)[1])
  {
    TakeSpec(s, 2);
    LengthIsCount(Take(s, 2));
  }

  /**
   * `exists` stops at the first element that satisfies `p`: whatever follows it, the result
   * is `true`. Dually `forall` is `false` at the first element that fails `p`.
   */
  lemma ExistsDecidedAtHead<A>(h: A, t1: Stream<A>, t2: Stream<A>, p: A -> bool)
    requires p(h)
    ensures Exists(Cons(h, t1), p) && Exists(Cons(h, t2), p)
  {
  }

  lemma ForallDecidedAtHead<A>(h: A, t1: Stream<A>, t2: Stream<A>, p: A -> bool)
    requires !p(h)
    ensures !Forall(Cons(h, t1), p) && !Forall(Cons(h, t2), p)
  {
  }
}
