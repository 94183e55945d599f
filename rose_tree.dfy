/**
 * The rose tree of lab11/ch3.ts: a node holds a label and the list of its subtrees.
 * `foldtree(f, g, a)` replaces every node by `f(value)` of the fold of its subtree list,
 * every list node by `g`, and every empty list by `a`; `sumtree`, `labels` and `maptree`
 * are instances of it.
 */
module RoseTree {
  import opened Seqs
  import opened EagerList
  import C = CurriedList

  datatype Tree<T> = Node(value: T, subtrees: List<Tree<T>>)

  /** `tree(h)(...subtrees)`. */
  function MakeTree<T>(h: T, subtrees: seq<Tree<T>>): Tree<T> {
    Node(h, FromSeq(subtrees))
  }

  /** `foldtree` on a node. */
  function FoldTree<T, U, V>(f: T -> V -> U, g: U -> V -> V, a: V, t: Tree<T>): U
    decreases t
  {
    f(t.value)(FoldForest(f, g, a, t.subtrees))
  }

  /** `foldtree` on a list of subtrees. */
  function FoldForest<T, U, V>(f: T -> V -> U, g: U -> V -> V, a: V, ts: List<Tree<T>>): V
    decreases ts
  {
    match ts
    case Nil => a
    case Cons(h, rest) => g(FoldTree(f, g, a, h))(FoldForest(f, g, a, rest))
  }

  /** `sumtree = foldtree(add, add, 0)`. */
  function SumTree(t: Tree<int>): int {
    FoldTree(C.Add(), C.Add(), 0, t)
  }

  /** The curried `append` of lab11/ch3.ts. */
  function AppendC<T>(): List<T> -> List<T> -> List<T> {
    a => b => C.Append(a, b)
  }

  /** `labels = foldtree(cons, append, none())`. */
  function Labels<T>(t: Tree<T>): List<T> {
    FoldTree(C.ConsC(), AppendC(), Nil, t)
  }

  /** The curried `node = h => l => Node(h, l)`. */
  function NodeC<T>(): T -> List<Tree<T>> -> Tree<T> {
    h => l => Node(h, l)
  }

  /** `maptree(f) = foldtree(compose(node)(f), cons, none())`. */
  function MapTree<T, S>(f: T -> S, t: Tree<T>): Tree<S> {
    FoldTree(C.Compose(NodeC(), f), C.ConsC(), Nil, t)
  }

  function DoubleTree(t: Tree<int>): Tree<int> {
    MapTree((n: int) => 2 * n, t)
  }

  // ---------------------------------------------------------------------------
  // Reference definitions

  /** The labels in pre-order: a node's value, then those of its subtrees left to right. */
  function PreOrder<T>(t: Tree<T>): seq<T>
    decreases t
  {
    [t.value] + PreOrderForest(t.subtrees)
  }

  function PreOrderForest<T>(ts: List<Tree<T>>): seq<T>
    decreases ts
  {
    match ts
    case Nil => []
    case Cons(h, rest) => PreOrder(h) + PreOrderForest(rest)
  }

  /** Two trees with the same branching everywhere. */
  predicate SameShape<T, S>(a: Tree<T>, b: Tree<S>)
    decreases a
  {
    SameShapeForest(a.subtrees, b.subtrees)
  }

  predicate SameShapeForest<T, S>(xs: List<Tree<T>>, ys: List<Tree<S>>)
    decreases xs
  {
    match xs
    case Nil => ys.Nil?
    case Cons(h, rest) => ys.Cons? && SameShape(h, ys.h) && SameShapeForest(rest, ys.t)
  }

  // ---------------------------------------------------------------------------

  lemma {:induction false} SumTreeSpec(t: Tree<int>)
    ensures SumTree(t) == Seqs.Sum(PreOrder(t))
    decreases t, 1
  {
    SumForestSpec(t.subtrees);
    SumAppend([t.value], PreOrderForest(t.subtrees));
  }

  lemma {:induction false} SumForestSpec(ts: List<Tree<int>>)
    ensures FoldForest(C.Add(), C.Add(), 0, ts) == Seqs.Sum(PreOrderForest(ts))
    decreases ts, 0
  {
    match ts
    case Nil =>
    case Cons(h, rest) =>
      SumTreeSpec(h);
      SumForestSpec(rest);
      SumAppend(PreOrder(h), PreOrderForest(rest));
  }

  /** `labels` lists the labels in pre-order. */
  lemma {:induction false} LabelsSpec<T>(t: Tree<T>)
    ensures Items(Labels(t)) == PreOrder(t)
    decreases t, 1
  {
    LabelsForestSpec(t.subtrees);
  }

  lemma {:induction false} LabelsForestSpec<T>(ts: List<Tree<T>>)
    ensures Items(FoldForest(C.ConsC(), AppendC(), Nil, ts)) == PreOrderForest(ts)
    decreases ts, 0
  {
    match ts
    case Nil =>
    case Cons(h, rest) =>
      LabelsSpec(h);
      LabelsForestSpec(rest);
      C.AppendSpec(Labels(h), FoldForest(C.ConsC(), AppendC(), Nil, rest));
  }

  /** `maptree(f)` keeps the shape and maps every value, in pre-order. */
  lemma {:induction false} MapTreeSpec<T, S>(f: T -> S, t: Tree<T>)
    ensures SameShape(t, MapTree(f, t))
    ensures PreOrder(MapTree(f, t)) == MapSeq(f, PreOrder(t))
    decreases t, 1
  {
    MapForestSpec(f, t.subtrees);
  }

  lemma {:induction false} MapForestSpec<T, S>(f: T -> S, ts: List<Tree<T>>)
    ensures SameShapeForest(ts, FoldForest(C.Compose(NodeC(), f), C.ConsC(), Nil, ts))
    ensures PreOrderForest(FoldForest(C.Compose(NodeC(), f), C.ConsC(), Nil, ts)) == MapSeq(f, PreOrderForest(ts))
    decreases ts, 0
  {
    match ts
    case Nil =>
    case Cons(h, rest) =>
      MapTreeSpec(f, h);
      MapForestSpec(f, rest);
      assert MapSeq(f, PreOrder(h) + PreOrderForest(rest)) == MapSeq(f, PreOrder(h)) + MapSeq(f, PreOrderForest(rest));
  }

  // ---------------------------------------------------------------------------
  // The expected outputs recorded beside the calls in lab11/ch3.ts

  /** `tree1 = tree(1)(tree(2)(), tree(3)(tree(4)()))`. */
  function Tree1(): Tree<int> {
    MakeTree(1, [MakeTree(2, []), MakeTree(3, [MakeTree(4, [])])])
  }

  lemma PreOrderTree1()
    ensures PreOrder(Tree1()) == [1, 2, 3, 4]
  {
    var t4 := MakeTree(4, []);
    var t3 := MakeTree(3, [t4]);
    var t2 := MakeTree(2, []);
    assert t4.subtrees == Nil && t2.subtrees == Nil;
    assert t3.subtrees == Cons(t4, Nil);
    assert PreOrder(t4) == [4] && PreOrder(t2) == [2];
    assert PreOrder(t3) == [3, 4];
    assert Tree1().subtrees == Cons(t2, Cons(t3, Nil));
    assert PreOrderForest(Tree1().subtrees) == [2] + ([3, 4] + []);
  }

  lemma SumTree1()
    ensures SumTree(Tree1()) == 10
  {
    SumTreeSpec(Tree1());
    PreOrderTree1();
    assert Seqs.Sum([1, 2, 3, 4]) == 10 by {
      var xs := [1, 2, 3, 4];
      assert xs[1..] == [2, 3, 4] && xs[1..][1..] == [3, 4] && xs[1..][1..][1..] == [4];
    }
  }

  lemma LabelsTree1()
    ensures Labels(Tree1()) == FromSeq([1, 2, 3, 4])
  {
    LabelsSpec(Tree1());
    PreOrderTree1();
    ItemsInjective(Labels(Tree1()), FromSeq([1, 2, 3, 4]));
  }

  lemma DoubleTree1()
    ensures DoubleTree(Tree1()) == MakeTree(2, [MakeTree(4, []), MakeTree(6, [MakeTree(8, [])])])
  {
    var double := (n: int) => 2 * n;
    var t4 := MakeTree(4, []);
    var t3 := MakeTree(3, [t4]);
    var t2 := MakeTree(2, []);
    assert t4.subtrees == Nil && t2.subtrees == Nil;
    assert t3.subtrees == Cons(t4, Nil);
    assert Tree1().subtrees == Cons(t2, Cons(t3, Nil));
    var m4 := MapTree(double, t4);
    var m3 := MapTree(double, t3);
    var m2 := MapTree(double, t2);
    assert m4 == Node(8, Nil);
    assert m2 == Node(4, Nil);
    assert m3 == Node(6, Cons(m4, Nil));
    assert DoubleTree(Tree1()) == Node(2, Cons(m2, Cons(m3, Nil)));
    assert MakeTree(8, []) == m4;
    assert MakeTree(6, [MakeTree(8, [])]) == m3 by {
      assert [MakeTree(8, [])][1..] == [];
    }
    assert MakeTree(2, [MakeTree(4, []), MakeTree(6, [MakeTree(8, [])])]) == Node(2, Cons(m2, Cons(m3, Nil))) by {
      var ys := [MakeTree(4, []), MakeTree(6, [MakeTree(8, [])])];
      assert ys[1..] == [MakeTree(6, [MakeTree(8, [])])];
      assert ys[1..][1..] == [];
    }
  }

  // ---------------------------------------------------------------------------
  // toString on a node

  /**
   * What the node case of `toString` renders: "Node " and the value, then the rendering
   * of the subtree list in parentheses when that list is not empty.
   */
  function RenderTree<T>(show: T -> string, t: Tree<T>): string
    decreases t, 1
  {
    "Node " + show(t.value) + (if t.subtrees.Cons? then "(List[" + Join(RenderForest(show, t.subtrees)) + "])" else "")
  }

  /** The renderings of the trees of a subtree list. */
  function RenderForest<T>(show: T -> string, ts: List<Tree<T>>): seq<string>
    decreases ts, 0
  {
    match ts
    case Nil => []
    case Cons(h, rest) => [RenderTree(show, h)] + RenderForest(show, rest)
  }

  /** The list case of `toString`, with each element rendered as a node, gives the same strings. */
  lemma {:induction false} RenderForestItems<T>(show: T -> string, ts: List<Tree<T>>)
    ensures MapSeq((x: Tree<T>) => RenderTree(show, x), Items(ts)) == RenderForest(show, ts)
    decreases ts
  {
    match ts
    case Nil =>
    case Cons(h, rest) =>
      RenderForestItems(show, rest);
      assert MapSeq((x: Tree<T>) => RenderTree(show, x), Items(ts))
          == [RenderTree(show, h)] + MapSeq((x: Tree<T>) => RenderTree(show, x), Items(rest));
  }

  /** `toString` on a node: the subtree list is rendered by the list case, which renders each node. */
  method TreeToString<T>(t: Tree<T>, show: T -> string) returns (msg: string)
    ensures msg == RenderTree(show, t)
  {
    msg := "Node " + show(t.value);
    if t.subtrees.Cons? {
      var inner := EagerList.ToString(t.subtrees, (x: Tree<T>) => RenderTree(show, x));
      RenderForestItems(show, t.subtrees);
      msg := msg + "(" + inner + ")";
    }
  }

  /** A node with no subtrees renders without parentheses. */
  lemma RenderLeaf<T>(show: T -> string, v: T)
    ensures RenderTree(show, MakeTree(v, [])) == "Node " + show(v)
  {
    assert MakeTree(v, []).subtrees == Nil;
  }

  /** A node with one subtree. */
  lemma RenderOneChild<T>(show: T -> string, v: T, c: Tree<T>)
    ensures RenderTree(show, MakeTree(v, [c])) == "Node " + show(v) + "(List[" + RenderTree(show, c) + "])"
  {
    assert MakeTree(v, [c]).subtrees == Cons(c, Nil) by {
      assert [c][1..] == [];
    }
    assert RenderForest(show, Cons(c, Nil)) == [RenderTree(show, c)];
  }

  /** A node with two subtrees: the two renderings are joined with ", ". */
  lemma RenderTwoChildren<T>(show: T -> string, v: T, c: Tree<T>, d: Tree<T>)
    ensures RenderTree(show, MakeTree(v, [c, d]))
         == "Node " + show(v) + "(List[" + RenderTree(show, c) + ", " + RenderTree(show, d) + "])"
  {
    assert FromSeq([d]) == Cons(d, Nil) by {
      assert [d][1..] == [];
    }
    assert MakeTree(v, [c, d]).subtrees == Cons(c, Cons(d, Nil)) by {
      assert [c, d][1..] == [d];
    }
    assert RenderForest(show, Cons(d, Nil)) == [RenderTree(show, d)];
    var rs := RenderForest(show, Cons(c, Cons(d, Nil)));
    assert rs == [RenderTree(show, c), RenderTree(show, d)];
    assert rs[..1] == [RenderTree(show, c)];
    assert Join(rs) == RenderTree(show, c) + ", " + RenderTree(show, d);
  }

  lemma Digits()
    ensures IntToString(1) == "1" && IntToString(2) == "2" && IntToString(3) == "3" && IntToString(4) == "4"
    ensures IntToString(6) == "6" && IntToString(8) == "8"
  {
  }

  lemma RenderTree1()
    ensures RenderTree(IntToString, Tree1()) == "Node 1(List[Node 2, Node 3(List[Node 4])])"
  {
    Digits();
    var t4 := MakeTree(4, []);
    var t2 := MakeTree(2, []);
    var t3 := MakeTree(3, [t4]);
    RenderLeaf(IntToString, 4);
    RenderLeaf(IntToString, 2);
    RenderOneChild(IntToString, 3, t4);
    RenderTwoChildren(IntToString, 1, t2, t3);
  }

  lemma RenderDoubled()
    ensures RenderTree(IntToString, MakeTree(2, [MakeTree(4, []), MakeTree(6, [MakeTree(8, [])])]))
         == "Node 2(List[Node 4, Node 6(List[Node 8])])"
  {
    Digits();
    var t8 := MakeTree(8, []);
    var t4 := MakeTree(4, []);
    var t6 := MakeTree(6, [t8]);
    RenderLeaf(IntToString, 8);
    RenderLeaf(IntToString, 4);
    RenderOneChild(IntToString, 6, t8);
    RenderTwoChildren(IntToString, 2, t4, t6);
  }

  lemma RenderDoubleTree1()
    ensures RenderTree(IntToString, DoubleTree(Tree1())) == "Node 2(List[Node 4, Node 6(List[Node 8])])"
  {
    DoubleTree1();
    RenderDoubled();
  }
}
