# Lazy streams, eager lists and rose trees

This project models a small functional-programming library written in TypeScript:

- A persistent stream: `Nil`, or a node holding a head thunk and a tail thunk. Its operations
  are written through a lazy right fold `foldRight(z, f)`, where `f` receives the rest of the
  fold as a thunk.
- A strict list, in two flavours: an uncurried one and a curried one.
- A rose tree whose nodes hold a value and a list of subtrees, with its fold `foldtree`.
- The strict clients of the stream (`reduce`, `sum`, `product`, ...).

The stream is modelled as a finite `datatype`. The sequence it denotes is `Streams.Elems`, and
each combinator is proved against a reference definition on that sequence. The infinite
generator `repeat(f, x)` is modelled separately as `Unfold.Gen`, the index function
`i => f^i(x)`, and related to the finite streams through `take`. The truncators
`within`/`withre` are one generic function `Truncation.Truncate` over a closeness test. Both
tests are written over `real`: the absolute test `|a - b| <= eps` and the relative test
`|a - b| <= eps * |b|`. The memoising wrapper `memorize` is a class, `Memo.Memoized`, with a
mutable cell and a counter of how many times the thunk has run; each run of the thunk has
its own outcome (a value, `null`, or a throw), so the contracts say which run a force hands
back. The `toList` and
`toString` loops are methods with loop invariants, proved against a rendering function.

The stream library exists in three copies: `lab11/ch5.ts` (methods), `lab1/zutil.ts`
(methods) and `code/ch4.ts` (free functions and the `take`/`toList`/`toString` methods). Where a
copy has the same body as the `lab11/ch5.ts` member, the `Streams` member models it too. The
one copy that differs, the `withre` of `lab1/zutil.ts`, has a member of its own
(`Truncation.WithreAsWritten`). Besides the copied library, `code/ch4.ts` has clients of its
own, which are not copies of any stream member: the lazy `sum`, `doubleall` and `summatrix`
(`StreamClients.Sum`, `StreamClients.DoubleAll`, `StreamClients.Summatrix`).

The curried list of `lab11/ch3.ts` uses the same `EagerList.List` datatype, and its `toString`
is the same loop as the one in `lab11/util.ts`.

Modules:

- `Outcomes`: the `Option` and `Result` types. In the modelled operations the source throws a
  plain `Error` at three places (lab11/ch5.ts:51, 56, 272). The model gives them names of its
  own: `TypeError` (`get` on `Nil`), `RangeError` (`get` at or past the length) and
  `ShapeError` (`second` with fewer than two elements). These are not the JavaScript error
  classes.
- `Seqs`: the reference definitions on sequences (folds, sum, filter, map, flatten, prefix
  while, the `", "` join, decimal rendering of integers).
- `Streams`: the stream and its combinators.
- `Truncation`: the truncators.
- `Unfold`: `repeat`.
- `Memo`: the memoising wrapper.
- `StrictFolds`: the `lab1/zch3.ts` clients.
- `StreamClients`: the `code/ch4.ts` clients and their recorded outputs.
- `EagerList`: the `lab11/util.ts` list.
- `CurriedList`: the curried `lab11/ch3.ts` list.
- `RoseTree`: the tree.

## Model

| member | source | states |
|---|---|---|
| Streams.Of | lab11/ch5.ts:193-198 | `stream(...s)` denotes exactly `s`; no arguments give the empty stream |
| Streams.FoldRightStrict | lab11/ch5.ts:19-25 | whenever the combining function forces its thunk, the lazy right fold equals the right fold of the elements: `z()` on `Nil`, `f(head, fold of the tail)` on a node |
| Streams.FoldLeftStrict | lab11/ch5.ts:27-33 | the left fold accumulates from left to right: it equals the sequence left fold starting from `z()` |
| Streams.LengthIsCount | lab11/ch5.ts:138-140 | `length` is the number of elements |
| Streams.TakeSpec | lab11/ch5.ts:36-42 | `take(n)` is `Nil` when `n <= 0` or the stream is `Nil`, and otherwise denotes the first `min(n, length)` elements |
| Streams.DropSpec | lab11/ch5.ts:66-70 | `drop(n)` is the stream itself when `n <= 0` or it is `Nil`, and otherwise denotes the elements from position `min(n, length)` on |
| Streams.TakeDropSplit | lab11/ch5.ts:66-70 | `take(n)` followed by `drop(n)` gives back the whole stream, for every `n` |
| Streams.GetInRange | lab11/ch5.ts:49-63 | `get(i)` with `0 <= i < length` is element `i` |
| Streams.GetSpec | lab11/ch5.ts:49-63 | `get` on `Nil` is the type error; any index at or past the length is the range error; every other index, negative ones included, gives element `i mod length`, because a negative index is retried as `length + i` |
| Streams.GetLast | lab11/ch5.ts:57-58 | `get(-1)` on a non-empty stream is the last element |
| Streams.AppendSpec | lab11/ch5.ts:118-120 | `append(s, that)` denotes the elements of `s` followed by those of `that()` |
| Streams.FlatMapSpec | lab11/ch5.ts:123-125 | `flatMap(f)` denotes the concatenation of `f(a)` over the elements `a`, in order |
| Streams.MapSpec | lab11/ch5.ts:128-131 | `map(f)` applies `f` to each element, keeping length and order |
| Streams.FilterSpec | lab11/ch5.ts:134-136 | `filter(p)` keeps exactly the elements satisfying `p`, in order |
| Streams.TakeWhileIsFilter | lab11/ch5.ts:44-46 | `takeWhile(p)` as written denotes the same elements as `filter(p)` |
| Streams.TakeWhileDoesNotStop | lab11/ch5.ts:44-46 | on `1, -1, 2` with `x > 0`, `takeWhile` as written gives `1, 2`, while the cut version gives `1` |
| Streams.TakeWhileCutSpec | lab11/ch5.ts:44-46 | the corrected `takeWhile` denotes the longest prefix whose elements all satisfy `p` |
| Streams.ZipSpec | lab11/ch5.ts:88-94 | `zip` has length `min` of the two lengths, and element `i` is the pair of the elements at `i` |
| Streams.ZipWithSpec | lab11/ch5.ts:97-105 | `zipWith(f)` has length `min` of the two lengths, and element `i` is `f` of the elements at `i` |
| Streams.ExistsSpec | lab11/ch5.ts:108-110 | `exists(p)` holds if and only if some element satisfies `p` |
| Streams.ForallSpec | lab11/ch5.ts:113-115 | `forall(p)` holds if and only if every element satisfies `p` |
| Streams.ExistsDecidedAtHead | lab11/ch5.ts:108-110 | once the head satisfies `p`, `exists` is `true` whatever the tail is |
| Streams.ForallDecidedAtHead | lab11/ch5.ts:113-115 | once the head fails `p`, `forall` is `false` whatever the tail is |
| Streams.SecondSpec | lab11/ch5.ts:269-277 | `second` is the shape error on fewer than two elements, and element 1 otherwise |
| Streams.ToList | lab11/ch5.ts:142-150 | the loop collects exactly the elements, in order |
| Streams.ToString | lab11/ch5.ts:152-167 | the loop yields `Stream(` followed by the renderings of the elements separated by `, ` and then `)`; the empty stream gives `Stream()` |
| Truncation.TruncateSpec | lab11/ch5.ts:211-220 | `within` keeps a prefix of its input; no adjacent pair before its last two elements passes the test; and it is either the whole input or ends with a passing pair, so it stops right after the first passing pair. A one-element tail has no pair and is kept. The `withre` method (lines 75-85) gets the same three facts with the relative test |
| Truncation.NoCloseKeepsAll | lab1/zutil.ts:58-68 | the whole input is kept if and only if no adjacent pair before the last one passes the test; the last pair never cuts anything, since both of its elements are kept either way |
| Truncation.WithreAsWrittenDiffers | lab1/zutil.ts:69-79 | with `eps = 0.01` on `1, 2, 1000, 1001, 5000`, `withre` stops after `1001` (relative test), while the copy whose recursion calls `within` keeps all five elements |
| Unfold.IterateShift | lab11/ch5.ts:204-205 | the generator restarted at `f(x)` is the original one shifted by one step |
| Unfold.IterateAdd | lab11/ch5.ts:204-205 | restarting the generator after `n` steps and taking `i` more steps reaches step `n + i` |
| Unfold.TakeGenSpec | lab11/ch5.ts:204-205 | `repeat(f, x).take(n)` has `max(n, 0)` elements, and element `i` is `f` applied `i` times to `x` |
| Unfold.DropGenSpec | lab11/ch5.ts:204-205 | `repeat(f, x).drop(n)` is the generator with the same `f` that starts at `f^max(n,0)(x)` |
| Unfold.TakeDropGen | lab11/ch5.ts:204-205 | the first `n` elements followed by the first `m` after dropping `n` are the first `n + m` elements |
| Unfold.SecondGen | lab11/ch5.ts:269-277 | `second` of the generator's first two elements is `f(x)` |
| Unfold.TruncateGenIsTruncate | lab11/ch5.ts:211-220 | on an infinite generator that has a passing pair at `k`, `within` equals the truncation of every finite prefix reaching past `k + 1`, so `TruncateSpec` describes it |
| Unfold.TruncateGenAnyWitness | lab11/ch5.ts:211-220 | the result does not depend on which passing pair is used to bound the recursion |
| Unfold.HalvingWithin | lab11/ch5.ts:211-220 | `within(0.125)` over the halvings of `1` is `1, 0.5, 0.25, 0.125` |
| Memo.Memoized.constructor | lab11/ch5.ts:5-12 | a new wrapper has an empty cell and has not run its thunk |
| Memo.Memoized.Force | lab11/ch5.ts:5-12 | while the cell is empty a force runs the thunk once more and hands back what that run did; it keeps the value unless it is `null` or the run threw, in which case the cell stays empty and the next force runs the thunk again. Once the cell holds a value, a force returns it without running the thunk |
| Memo.ForceTwice | lab11/ch5.ts:5-12 | on a fresh wrapper, the first force hands back the first run. If that run returned a value other than `null`, the second force returns it again after one run in all; after a `null` or a throw, the second force hands back a second run. Afterwards the wrapper is still valid and its cell holds the last value kept |
| StrictFolds.ReduceSpec | lab1/zch3.ts:4-8 | `reduce(l, z, f)` is the strict right fold of the elements |
| StrictFolds.SumSpec | lab1/zch3.ts:10-11 | `sum` is the sum of the elements, 0 on empty |
| StrictFolds.ProductSpec | lab1/zch3.ts:13-20 | `product` and `multiply` are both the product of the elements, 1 on empty |
| StrictFolds.AllTrueSpec | lab1/zch3.ts:16-17 | `alltrue` holds if and only if every element is `true`; it is `true` on empty |
| StrictFolds.DoubleAllSpec | lab1/zch3.ts:22-23 | `doubleall` keeps the length and doubles every element |
| StrictFolds.SummatrixSpec | lab1/zch3.ts:25-26 | `summatrix` is the sum of the row sums |
| StreamClients.SumSpec | code/ch4.ts:83-94 | the lazy `foldr(add, () => 0)` is the sum of the elements |
| StreamClients.SumIsStrictSum | code/ch4.ts:92-94 | the lazy `sum` agrees with the strict `sum` built on `reduce` |
| StreamClients.DoubleAllSpec | code/ch4.ts:107-108 | `doubleall` doubles every element, in order |
| StreamClients.SummatrixSpec | code/ch4.ts:111-112 | `summatrix` is the sum of the row sums |
| StreamClients.SumXs | code/ch4.ts:88-95 | `sum(Xs)` is 54 |
| StreamClients.LengthXs | code/ch4.ts:101-102 | `length(Xs)` is 8 |
| StreamClients.AppendZ | code/ch4.ts:97-98 | `append(Z1, Z2)` denotes `1, 2, 3, 4` |
| StreamClients.DoubleAllXs | code/ch4.ts:107-108 | `doubleall(Xs)` denotes `2, 2, 4, 6, 10, 16, 26, 42` |
| StreamClients.SummatrixM1 | code/ch4.ts:88-91 | `summatrix(M1)` is 64 |
| StreamClients.ZipZ | code/ch4.ts:219-226 | `zip2(Z1, Z2)` denotes the pairs `(1, 3), (2, 4)` |
| EagerList.FromSeq | lab11/util.ts:45-50 | `list(...s)` has the elements `s` in order, and is `Nil` exactly when `s` is empty |
| EagerList.FoldRSpec | lab11/util.ts:58-62 | `foldr(f, x)` is `x` on `Nil` and `f(h, foldr(f, x)(t))` on a node, that is, the right fold of the elements |
| EagerList.SumSpec | lab11/util.ts:63-64 | `sum` is the sum of the elements |
| EagerList.AppendSpec | lab11/util.ts:70-72 | `append(a, b)` is concatenation |
| EagerList.LengthSpec | lab11/util.ts:76-77 | `length` counts the elements |
| EagerList.DoubleAllSpec | lab11/util.ts:81-84 | `doubleall` doubles every element, keeping length and order |
| EagerList.ToString | lab11/util.ts:6-21 | the loop yields `List[` followed by the renderings of the elements separated by `, ` and then `]`; the `toString` loop of the curried list in lab11/ch3.ts (lines 13-21) is the same |
| EagerList.SumXs | lab11/util.ts:64-66 | `sum(Xs)` is 54 |
| EagerList.LengthXs | lab11/util.ts:77-79 | `length(Xs)` is 8 |
| EagerList.AppendExample | lab11/util.ts:73-74 | `append(List[1, 2], List[3, 4])` is `List[1, 2, 3, 4]` |
| EagerList.DoubleAllXs | lab11/util.ts:84-86 | `doubleall(Xs)` is `List[2, 2, 4, 6, 10, 16, 26, 42]` |
| EagerList.RenderXs | lab11/util.ts:54-56 | `Xs.toString()` is `List[1, 1, 2, 3, 5, 8, 13, 21]` |
| EagerList.RenderEmpty | lab11/util.ts:6-21 | the empty list renders as `List[]` |
| CurriedList.FoldCIsFoldR | lab11/ch3.ts:82-87 | the curried `foldr` is the uncurried one applied to the uncurried function |
| CurriedList.SumSpec | lab11/ch3.ts:88 | `sum` is the sum of the elements |
| CurriedList.AppendSpec | lab11/ch3.ts:91 | `append(a)(b)` is concatenation |
| CurriedList.LengthSpec | lab11/ch3.ts:94-95 | `length` counts the elements |
| CurriedList.MapSpec | lab11/ch3.ts:102-104 | `map(f)` applies `f` to every element, keeping length and order |
| CurriedList.SummatrixSpec | lab11/ch3.ts:107 | `summatrix` is the sum of the row sums |
| CurriedList.Examples | lab11/ch3.ts:117-122 | `sum(Xs)` is 54, `length(Xs)` is 8, and `append(Z1)(Z2)` is `List[1, 2, 3, 4]` |
| CurriedList.DoubleAllXs | lab11/ch3.ts:123-124 | `doubleall(Xs)` is `List[2, 2, 4, 6, 10, 16, 26, 42]` |
| CurriedList.SummatrixM1 | lab11/ch3.ts:125-126 | `summatrix(M1)` is 64 |
| RoseTree.SumTreeSpec | lab11/ch3.ts:133-143 | `sumtree` is the sum of the values in pre-order |
| RoseTree.SumForestSpec | lab11/ch3.ts:133-143 | on a subtree list, the fold with `add, add, 0` is the sum of the values of the trees in the list |
| RoseTree.LabelsSpec | lab11/ch3.ts:146 | `labels` lists the values in pre-order |
| RoseTree.LabelsForestSpec | lab11/ch3.ts:146 | on a subtree list, the fold with `cons, append, none` lists the pre-orders of the trees one after another |
| RoseTree.MapTreeSpec | lab11/ch3.ts:149-151 | `maptree(f)` keeps the shape of the tree and applies `f` to every value, in pre-order |
| RoseTree.MapForestSpec | lab11/ch3.ts:149-151 | the same for a subtree list |
| RoseTree.PreOrderTree1 | lab11/ch3.ts:153-156 | `tree1` has values `1, 2, 3, 4` in pre-order |
| RoseTree.SumTree1 | lab11/ch3.ts:165-166 | `sumtree(tree1)` is 10 |
| RoseTree.LabelsTree1 | lab11/ch3.ts:167-168 | `labels(tree1)` is `List[1, 2, 3, 4]` |
| RoseTree.DoubleTree1 | lab11/ch3.ts:169-170 | `doubletree(tree1)` is the tree `2(4, 6(8))` |
| RoseTree.RenderForestItems | lab11/ch3.ts:23-29 | the list `toString` applied to a subtree list renders each subtree as a node |
| RoseTree.TreeToString | lab11/ch3.ts:23-29 | a node renders as `Node ` and its value, followed by the parenthesised subtree list only when that list is not empty |
| RoseTree.RenderLeaf | lab11/ch3.ts:23-29 | a node without subtrees renders as `Node v` |
| RoseTree.RenderOneChild | lab11/ch3.ts:23-29 | a node with one subtree renders as `Node v(List[...])` |
| RoseTree.RenderTwoChildren | lab11/ch3.ts:23-29 | a node with two subtrees renders them separated by `, ` |
| RoseTree.RenderTree1 | lab11/ch3.ts:157-164 | `tree1.toString()` is `Node 1(List[Node 2, Node 3(List[Node 4])])` |
| RoseTree.RenderDoubleTree1 | lab11/ch3.ts:169-170 | `doubletree(tree1).toString()` is `Node 2(List[Node 4, Node 6(List[Node 8])])` |

## Left out

- Laziness, sharing and forcing order. A stream here is its fully evaluated spine. When a head or tail thunk is forced, and how often, is not observable in the model. The memoising wrapper is modelled on its own in `Memo`, not wired into every cell.
- Infinite streams, except through `Unfold.Gen`. `length`, `get`, `toList` and `toString` diverge on an infinite stream; their contracts are stated for finite streams only.
- Unfold.TruncateGen: `within`/`withre` over a generator with no passing adjacent pair is not modelled. The source returns an infinite lazy stream there, and only a later `get(-1)`, `toList` or `toString` diverges; the model requires a passing pair, because its result is a finite stream.
- Unfold.TakeGenSpec: states the elements of `repeat(f, x).take(n)` but not how many times `f` is run while they are forced.
- None of the numerical clients is modelled, because they are IEEE floating-point code whose results depend on rounding: `next`/`sqrt`/`resqrt`, `easydiff`, `differentiate`, `elimerror`, `order`, `improve`, `superman`, `easyintegrate`, `integ`, the `integrate` family and `addpair`. The same holds for all of `lab1/zch4.ts`, whose `repeat` and unchecked `second` duplicate the modelled ones.
- Floating point in `within`/`withre`: the tests are written over `real`. A last element with no successor gives `NaN` in the source, so the test fails and the element is kept; the model reaches the same outcome by having no pair to test.
- TypeScript numbers are modelled as unbounded `int` in the integer clients (`sum`, `length`, `doubleall`, ...); overflow to floating point is not modelled.
- Streams.TakeSpec, Streams.DropSpec, Streams.GetSpec: the count of `take`/`drop` and the index of `get` are `int`, while the source takes any number. Fractional arguments behave differently there and are not modelled: `take(1.5)` yields two elements, and `get(0.5)` on a two-element stream walks down to `get(-0.5)` on the rest, which is retried there as `get(0.5)` and walks down to `get(-0.5)` on `Nil`, the `Nil` error.
- Printing: `log`, the top-level `log(...)` calls, and the `toString` of `lab1/zutil.ts` that prints instead of returning a string. The `toString` methods take the string conversion of an element as a parameter; integers use a decimal rendering.
- The class hierarchy, the `Nil` singletons and `this`-typed dispatch of the source, which the `datatype`s replace.
- The free `foldr`, `append`, `length`, `flatMap`, `map` and `zip2` of `code/ch4.ts`, and the `within`/`withre` of `code/ch4.ts` and the `within` of `lab1/zutil.ts`: each has the body of the corresponding `lab11/ch5.ts` member, and that member models it.
- Thrown exceptions are modelled as values: `Result` for `get` and `second`, and `Memo.Run.Throws` for a throwing thunk. The messages are not modelled.

## Findings

| source | as written | input that shows it | evidently intended | confidence | as-written member | corrected member |
|---|---|---|---|---|---|---|
| lab1/zutil.ts:69-79 | `withre` recurses into `within`, so the relative test is applied only to the first pair and the absolute test to every later pair | `eps = 0.01` over `1, 2, 1000, 1001, 5000`: the pair `1000, 1001` fails the absolute test, and all five elements are kept | recurse into `withre`, as `lab11/ch5.ts:75-85` and `code/ch4.ts:133-142` do, so that the result stops after `1001` | not executed; proved on the model | Truncation.WithreAsWritten (Truncation.WithreAsWrittenDiffers) | Truncation.Withre (Truncation.TruncateSpec) |
| lab11/ch5.ts:44-46 | `takeWhile` continues with the rest of the fold when `p` fails, so it drops failing elements instead of stopping | `1, -1, 2` with `x > 0` gives `1, 2` | stop at the first failing element: `1` | not executed; proved on the model | Streams.TakeWhile (Streams.TakeWhileIsFilter, Streams.TakeWhileDoesNotStop) | Streams.TakeWhileCut (Streams.TakeWhileCutSpec) |
