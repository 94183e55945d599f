/**
 * The convergence truncators `within` and `withre` of lab11/ch5.ts, code/ch4.ts and
 * lab1/zutil.ts. Each copy looks at the first two elements, returns them and stops when
 * they are close, and otherwise keeps the head and goes on with the tail. The closeness
 * test is a parameter; `Within` and `Withre` are its absolute and relative instances.
 */
module Truncation {
  import opened Streams

  /** The common truncator. A single element has no partner and is kept. */
  function Truncate<T>(close: (T, T) -> bool, s: Stream<T>): Stream<T>
    decreases s
  {
    match s
    case Nil => Nil
    case Cons(a, t) =>
      if t.Cons? && close(a, t.h) then Cons(a, Cons(t.h, Nil))
      else Cons(a, Truncate(close, t))
  }

  function Abs(x: real): real { if x < 0.0 then -x else x }

  /** The absolute test of `within`: `|a - b| <= eps`. */
  function AbsClose(eps: real): (real, real) -> bool {
    (a: real, b: real) => Abs(a - b) <= eps
  }

  /** The relative test of `withre`: `|a - b| <= eps * |b|`. */
  function RelClose(eps: real): (real, real) -> bool {
    (a: real, b: real) => Abs(a - b) <= eps * Abs(b)
  }

  function Within(eps: real, s: Stream<real>): Stream<real> {
    Truncate(AbsClose(eps), s)
  }

  function Withre(eps: real, s: Stream<real>): Stream<real> {
    Truncate(RelClose(eps), s)
  }

  /**
   * The `withre` method of lab1/zutil.ts as written: the relative test is made on the
   * first pair only, because its recursive call is `within`, not `withre`.
   */
  function WithreAsWritten(eps: real, s: Stream<real>): Stream<real> {
    match s
    case Nil => Nil
    case Cons(a, t) =>
      if t.Cons? && RelClose(eps)(a, t.h) then Cons(a, Cons(t.h, Nil))
      else Cons(a, Within(eps, t))
  }

  /** Adjacent positions `k`, `k + 1` of `xs` exist and pass the test. */
  predicate CloseAt<T>(close: (T, T) -> bool, xs: seq<T>, k: int) {
    0 <= k && k + 1 < |xs| && close(xs[k], xs[k + 1])
  }

  /**
   * What the truncator yields: a prefix of the input in which no adjacent pair passes
   * the test except possibly the last one, and which is either all of the input or
   * ends with a passing pair. These three facts determine the result.
   */
  lemma {:induction false} TruncateSpec<T>(close: (T, T) -> bool, s: Stream<T>)
    ensures Elems(Truncate(close, s)) <= Elems(s)
    ensures forall k :: 0 <= k < |Elems(Truncate(close, s))| - 2 ==> !CloseAt(close, Elems(Truncate(close, s)), k)
    ensures Elems(Truncate(close, s)) == Elems(s)
         || CloseAt(close, Elems(Truncate(close, s)), |Elems(Truncate(close, s))| - 2)
    decreases s
  {
    match s
    case Nil =>
    case Cons(a, t) =>
      if t.Cons? && close(a, t.h) {
        assert Truncate(close, s) == Cons(a, Cons(t.h, Nil));
        assert Elems(Cons(t.h, Nil)) == [t.h];
      } else {
        TruncateSpec(close, t);
        var r, rt := Elems(Truncate(close, s)), Elems(Truncate(close, t));
        assert r == [a] + rt;
        forall k | 0 <= k < |r| - 2 ensures !CloseAt(close, r, k) {
          if k == 0 {
            assert r[0] == a && r[1] == t.h by {
              assert |rt| >= 2 && rt[0] == t.h;
            }
          } else {
            assert r[k] == rt[k - 1] && r[k + 1] == rt[k];
            assert !CloseAt(close, rt, k - 1);
          }
        }
        if rt != Elems(t) {
          assert CloseAt(close, rt, |rt| - 2);
          assert r[|r| - 2] == rt[|rt| - 2] && r[|r| - 1] == rt[|rt| - 1];
        }
      }
  }

  /** With no passing adjacent pair the whole input is kept, and conversely. */
  lemma NoCloseKeepsAll<T>(close: (T, T) -> bool, s: Stream<T>)
    ensures Elems(Truncate(close, s)) == Elems(s) <==>
      forall k :: 0 <= k < |Elems(s)| - 2 ==> !CloseAt(close, Elems(s), k)
  {
    TruncateSpec(close, s);
    var r, xs := Elems(Truncate(close, s)), Elems(s);
    if r != xs {
      var k := |r| - 2;
      assert CloseAt(close, r, k);
      assert r == xs[..|r|];
      assert r[k] == xs[k] && r[k + 1] == xs[k + 1];
      assert 0 <= k < |xs| - 2 && CloseAt(close, xs, k);
    }
  }

  /**
   * The counterexample for `WithreAsWritten`: with `eps = 0.01` on 1, 2, 1000, 1001, 5000
   * the pair 1000, 1001 passes the relative test (1 <= 10.01) but not the absolute
   * one, so the relative truncator stops there while the as-written one runs to the end.
   */
  lemma WithreAsWrittenDiffers()
    ensures Elems(Withre(0.01, Of([1.0, 2.0, 1000.0, 1001.0, 5000.0]))) == [1.0, 2.0, 1000.0, 1001.0]
    ensures Elems(WithreAsWritten(0.01, Of([1.0, 2.0, 1000.0, 1001.0, 5000.0]))) == [1.0, 2.0, 1000.0, 1001.0, 5000.0]
  {
    var s4 := Cons(5000.0, Nil);
    var s3 := Cons(1001.0, s4);
    var s2 := Cons(1000.0, s3);
    var s1 := Cons(2.0, s2);
    var s0 := Cons(1.0, s1);
    assert Of([1.0, 2.0, 1000.0, 1001.0, 5000.0]) == s0 by {
      assert Of([5000.0]) == s4;
      assert [1.0, 2.0, 1000.0, 1001.0, 5000.0][1..] == [2.0, 1000.0, 1001.0, 5000.0];
      assert [2.0, 1000.0, 1001.0, 5000.0][1..] == [1000.0, 1001.0, 5000.0];
      assert [1000.0, 1001.0, 5000.0][1..] == [1001.0, 5000.0];
      assert [1001.0, 5000.0][1..] == [5000.0];
    }
    var rel, abs := RelClose(0.01), AbsClose(0.01);
    assert Abs(1.0 - 2.0) == 1.0 && Abs(2.0 - 1000.0) == 998.0 && Abs(1000.0 - 1001.0) == 1.0;
    assert Abs(1001.0 - 5000.0) == 3999.0 && Abs(2.0) == 2.0 && Abs(1000.0) == 1000.0 && Abs(1001.0) == 1001.0;
    assert !rel(1.0, 2.0) && !rel(2.0, 1000.0) && rel(1000.0, 1001.0);
    assert Truncate(rel, s2) == Cons(1000.0, Cons(1001.0, Nil));
    assert Truncate(rel, s0) == Cons(1.0, Cons(2.0, Cons(1000.0, Cons(1001.0, Nil))));
    assert !abs(2.0, 1000.0) && !abs(1000.0, 1001.0) && !abs(1001.0, 5000.0);
    assert Truncate(abs, s4) == s4;
    assert Truncate(abs, s3) == s3;
    assert Truncate(abs, s2) == s2;
    assert Truncate(abs, s1) == s1;
    assert WithreAsWritten(0.01, s0) == s0;
    assert Elems(s4) == [5000.0];
    assert Elems(s3) == [1001.0, 5000.0];
    assert Elems(s2) == [1000.0, 1001.0, 5000.0];
    assert Elems(Cons(1001.0, Nil)) == [1001.0];
  }
}
