/**
 * The generator `repeat(f, x)` of lab11/ch5.ts and code/ch4.ts: the infinite stream
 * x, f(x), f(f(x)), ... whose tail thunk rebuilds `repeat(f, f(x))`. A `Gen` is that
 * stream; the operations that can consume it without diverging (`take`, `drop`,
 * `second` and the truncators when some adjacent pair passes the test) are modelled here.
 */
module Unfold {
  import opened Outcomes
  import opened Seqs
  import opened Streams
  import opened Truncation

  datatype Gen<!T> = Repeat(f: T -> T, x: T)

  /** `f` applied `i` times to `x`. */
  function Iterate<T>(f: T -> T, x: T, i: nat): T
    decreases i
  {
    if i == 0 then x else f(Iterate(f, x, i - 1))
  }

  /** The node behind the tail thunk: `repeat(f, f(x))`. */
  function Tail<T>(g: Gen<T>): Gen<T> {
    Repeat(g.f, g.f(g.x))
  }

  /** Element `i` of the generated stream. */
  function At<T>(g: Gen<T>, i: nat): T {
    Iterate(g.f, g.x, i)
  }

  lemma {:induction false} IterateShift<T>(f: T -> T, x: T, i: nat)
    ensures Iterate(f, f(x), i) == Iterate(f, x, i + 1)
    decreases i
  {
    if i > 0 {
      IterateShift(f, x, i - 1);
    }
  }

  /** `take(n)` on the generated stream. */
  function TakeGen<T>(g: Gen<T>, n: int): Stream<T>
    decreases Max(n, 0)
  {
    if n <= 0 then Nil else Cons(g.x, TakeGen(Tail(g), n - 1))
  }

  /** `drop(n)` on the generated stream: the generator from the `n`-th seed on. */
  function DropGen<T>(g: Gen<T>, n: int): Gen<T>
    decreases Max(n, 0)
  {
    if n <= 0 then g else DropGen(Tail(g), n - 1)
  }

  /** `take(n)` yields exactly `n` elements, element `i` being `f^i(x)`. */
  lemma {:induction false} TakeGenSpec<T>(g: Gen<T>, n: int)
    ensures |Elems(TakeGen(g, n))| == Max(n, 0)
    ensures forall i :: 0 <= i < |Elems(TakeGen(g, n))| ==> Elems(TakeGen(g, n))[i] == At(g, i)
    decreases Max(n, 0)
  {
    if n > 0 {
      TakeGenSpec(Tail(g), n - 1);
      forall i | 0 < i < n ensures Elems(TakeGen(g, n))[i] == At(g, i) {
        IterateShift(g.f, g.x, i - 1);
      }
    }
  }

  /** `drop(n)` keeps the step function and restarts from `f^n(x)`. */
  lemma {:induction false} DropGenSpec<T>(g: Gen<T>, n: int)
    ensures DropGen(g, n).f == g.f
    ensures DropGen(g, n).x == At(g, Max(n, 0))
    decreases Max(n, 0)
  {
    if n > 0 {
      DropGenSpec(Tail(g), n - 1);
      IterateShift(g.f, g.x, n - 1);
    }
  }

  /** Taking `n`, then `m` more after dropping `n`, is taking `n + m`. */
  lemma TakeDropGen<T>(g: Gen<T>, n: nat, m: nat)
    ensures Elems(TakeGen(g, n)) + Elems(TakeGen(DropGen(g, n), m)) == Elems(TakeGen(g, n + m))
  {
    var a, b, c := Elems(TakeGen(g, n)), Elems(TakeGen(DropGen(g, n), m)), Elems(TakeGen(g, n + m));
    TakeGenSpec(g, n);
    TakeGenSpec(DropGen(g, n), m);
    TakeGenSpec(g, n + m);
    DropGenSpec(g, n);
    forall i | 0 <= i < m ensures b[i] == c[n + i] {
      IterateAdd(g.f, g.x, n, i);
    }
    assert a + b == c;
  }

  lemma {:induction false} IterateAdd<T>(f: T -> T, x: T, n: nat, i: nat)
    ensures Iterate(f, Iterate(f, x, n), i) == Iterate(f, x, n + i)
    decreases i
  {
    if i > 0 {
      IterateAdd(f, x, n, i - 1);
    }
  }

  /** `second` of the generated stream always succeeds, with `f(x)`. */
  lemma SecondGen<T>(g: Gen<T>)
    ensures Second(TakeGen(g, 2)) == Ok(g.f(g.x))
  {
    TakeGenSpec(g, 2);
    SecondSpec(TakeGen(g, 2));
    assert At(g, 1) == g.f(g.x);
  }

  /**
   * A truncator applied to the generated stream. It terminates when some adjacent pair
   * passes the test; `k` is the position of one such pair and only bounds the recursion.
   */
  function TruncateGen<T>(close: (T, T) -> bool, g: Gen<T>, k: nat): Stream<T>
    requires close(At(g, k), At(g, k + 1))
    decreases k
  {
    if close(g.x, g.f(g.x)) then Cons(g.x, Cons(g.f(g.x), Nil))
    else
      IterateShift(g.f, g.x, k - 1);
      IterateShift(g.f, g.x, k);
      Cons(g.x, TruncateGen(close, Tail(g), k - 1))
  }

  /**
   * On the generated stream the truncator yields what it yields on any finite prefix
   * that reaches past the pair at `k`; so `TruncateSpec` describes it, and the choice of
   * `k` does not matter.
   */
  lemma {:induction false} TruncateGenIsTruncate<T>(close: (T, T) -> bool, g: Gen<T>, k: nat, n: int)
    requires close(At(g, k), At(g, k + 1))
    requires n >= k + 2
    ensures TruncateGen(close, g, k) == Truncate(close, TakeGen(g, n))
    decreases k
  {
    if !close(g.x, g.f(g.x)) {
      IterateShift(g.f, g.x, k - 1);
      IterateShift(g.f, g.x, k);
      TruncateGenIsTruncate(close, Tail(g), k - 1, n - 1);
    }
  }

  lemma TruncateGenAnyWitness<T>(close: (T, T) -> bool, g: Gen<T>, k1: nat, k2: nat)
    requires close(At(g, k1), At(g, k1 + 1))
    requires close(At(g, k2), At(g, k2 + 1))
    ensures TruncateGen(close, g, k1) == TruncateGen(close, g, k2)
  {
    var n := Max(k1, k2) + 2;
    TruncateGenIsTruncate(close, g, k1, n);
    TruncateGenIsTruncate(close, g, k2, n);
  }

  /** `within(1/8, repeat(halve, 1))` stops after 1/4, 1/8, whose distance is 1/8. */
  lemma HalvingWithin()
    ensures AbsClose(0.125)(At(Repeat((x: real) => x / 2.0, 1.0), 2), At(Repeat((x: real) => x / 2.0, 1.0), 3))
    ensures Elems(TruncateGen(AbsClose(0.125), Repeat((x: real) => x / 2.0, 1.0), 2)) == [1.0, 0.5, 0.25, 0.125]
  {
    var halve := (x: real) => x / 2.0;
    var close := AbsClose(0.125);
    var g := Repeat(halve, 1.0);
    assert At(g, 2) == 0.25 && At(g, 3) == 0.125 by {
      assert Iterate(halve, 1.0, 1) == 0.5;
      assert Iterate(halve, 1.0, 2) == 0.25;
    }
    assert Abs(1.0 - 0.5) == 0.5 && Abs(0.5 - 0.25) == 0.25 && Abs(0.25 - 0.125) == 0.125;
    assert !close(1.0, 0.5) && !close(0.5, 0.25) && close(0.25, 0.125);
    var g1 := Tail(g);
    var g2 := Tail(g1);
    assert g1.x == 0.5 && g2.x == 0.25 && g2.f == halve;
    assert TruncateGen(close, g2, 0) == Cons(0.25, Cons(0.125, Nil));
    assert Elems(Cons(0.125, Nil)) == [0.125];
  }
}
