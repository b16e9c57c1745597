# ts-btree in Dafny

A model of the `BinaryTree` library of ts-btree: an immutable binary tree
whose operations are computed at the type level in TypeScript. Each
TypeScript conditional type becomes a Dafny datatype or recursive function:

- `binary_tree.dfy`, module `BinaryTree`. It holds the tree shape
  (`Tree<V> = Empty | Leaf | Node`, where the source's `New` is the `Node`
  constructor and `null` children are `Empty`) and the mirror (`Reverse`).
  It also holds the depth-first membership test (`DFS`) and the
  path-directed update (`Path = L | R | Terminal`, `Set`). Helper functions
  `Subtree`, `ValueAt`, `Address` and `Flip` name positions by their
  left/right address. The contracts use them to say which positions an
  operation changes.
- `test_helpers.dfy`, module `TestHelpers`. It models the range generator:
  `RecurseTestCases` grows a sequence of search results up to the bound.
  `RunTests` keeps the indices of that sequence whose entry is true, which
  is what the source's `Keys` does (BinaryTree.ts:124-126).
- `samples.dfy`, module `Samples`. It holds the sample tree from the file
  header and the three worked results shown there.

`Set` has two error cases. `Set` returns `Err(PayloadNotNode)` when the
terminal payload is not a node. In the source a leaf value or `null`
payload fails the `Traversal` constraint of `L`, `R` and `Set`
(BinaryTree.ts:95, 102-103, 105) before any conditional is evaluated. The
`never` branch of `Set` (BinaryTree.ts:112) is reached only by a
`Traverse` whose `traverse` is neither `'left'` nor `'right'`. Such a path
has no counterpart in the model, whose paths are built only from `L`, `R`
and `Terminal`. `Set` returns `Err(PathOutOfBounds)` when a step must be
taken at a leaf or `Empty` position. The source leaves that case
undefined, because it indexes `left`/`right` of a non-node. When both
apply, `PathOutOfBounds` is reported.

Below the root, a node, a leaf or `Empty` may be the position being
replaced. Only the positions on the way there must be nodes.

## Model

| member | source | states |
|---|---|---|
| `BinaryTree.Reverse` | BinaryTree.ts:69-72 | The result is a node exactly when the argument is one. Leaves and `Empty` are returned unchanged. The root value is kept. The multiset of values is preserved. |
| `BinaryTree.ReverseInvolution` | BinaryTree.ts:69-72 | Reversing twice gives back the original tree, for every tree. |
| `BinaryTree.ReverseAt` | BinaryTree.ts:69-72 | The position at address `a` of the mirror is the mirrored position at the flipped address of the original, or is absent in both. |
| `BinaryTree.ReverseValueAt` | BinaryTree.ts:69-72 | The mirror holds at the flipped address the same value that the original holds at `a`. |
| `BinaryTree.DFS` | BinaryTree.ts:79-88 | The search answers true exactly when the target is in the multiset of node and leaf values. `Empty` contributes no value. |
| `BinaryTree.DFSWitness` | BinaryTree.ts:79-88 | A successful search yields an address whose position holds the target. |
| `BinaryTree.DFSFindsValueAt` | BinaryTree.ts:79-88 | A target held at any address is found by the search. |
| `BinaryTree.DFSIsMembership` | BinaryTree.ts:79-88 | The search is true if and only if some leaf or node position holds the target. |
| `BinaryTree.ReversePreservesDFS` | BinaryTree.ts:69-88 | Mirroring does not change the answer of the search, for every target. |
| `BinaryTree.Set` | BinaryTree.ts:105-112 | Succeeds exactly when the path's directions lead to a position of the tree and the payload is a node. Otherwise it gives `PathOutOfBounds` or `PayloadNotNode`. On success the path leads to the payload. An `L` step keeps the node value and the right child, and an `R` step keeps the value and the left child. |
| `BinaryTree.SetBelow` | BinaryTree.ts:105-111 | Every address below the updated position leads to the same subtree as in the payload. |
| `BinaryTree.SetOffPath` | BinaryTree.ts:105-111 | Every address that is neither a prefix nor an extension of the path's address leads to the same subtree as before. |
| `BinaryTree.SetOnPath` | BinaryTree.ts:105-109 | The positions strictly above the updated one keep their values. |
| `BinaryTree.SetIdempotent` | BinaryTree.ts:105-111 | Applying the same path a second time gives the same tree as applying it once. |
| `BinaryTree.SetReverse` | BinaryTree.ts:69-112 | Setting in the mirror along the mirrored path, with the mirrored payload, gives the mirror of the result. Errors are the same as for the original. |
| `TestHelpers.RecurseTestCases` | BinaryTree.ts:117-122 | The result has exactly `n` entries. It starts with the accumulator, and each later entry `i` is the search for `i`. From the empty accumulator, which is how the source calls it, every entry `i` in `[0, n)` is the search for `i`. |
| `TestHelpers.RunTests` | BinaryTree.ts:117-128 | The hits are exactly the integers `i` in `[0, n)` for which the search finds `i`. |
| `TestHelpers.RunTestsAreValuesInRange` | BinaryTree.ts:117-128 | The hits are exactly the tree's values that lie in `[0, n)`. |
| `Samples.ReverseSample` | BinaryTree.ts:17-31 | The mirror of the sample tree is the tree shown in the header. |
| `Samples.RunTestsSample` | BinaryTree.ts:33-35 | The hits below 15 in the sample tree are 1, 2, 5, 6, 7, 9 and 11. |
| `Samples.SetSample` | BinaryTree.ts:37-51 | Setting `left.right` of the sample tree to any node payload replaces that position only. The result is the tree shown, with the payload in place of `{6, 5, 11}`. |

## Left out

- TypeScript type-system semantics are not modelled: subtyping through
  `extends`, distribution over unions, `infer`, `any` and `never`. A target
  matches by value equality. A union-typed target, which the source's
  `Value extends V` would test as membership in a set of literals, is not
  modelled. Nor is a `null` target, which would match `Empty` positions.
- A path step whose `traverse` is neither `'left'` nor `'right'`. In the
  source it reaches the `never` branch (BinaryTree.ts:112), which leaves
  `never` at that position inside an otherwise rebuilt tree. The model's
  paths cannot express such a step. The payload constraint errors that do
  arise are reported as a failure of the whole update.
- The string-literal keys of RunTests' result and the filtering away of
  tuple members such as `length`. The model returns a set of integers.
- The compiler's limits on type-instantiation depth, which bound the usable
  bound and tree depth. Dafny's integers are unbounded.
- Mixed value kinds in one tree. The sample tree holds numbers, while the
  update example splices in string values `'A'`, `'B'`, `'C'`.
  `Samples.SetSample` is therefore stated for any node payload over
  integers.
- Structural sharing of unchanged subtrees. Dafny datatype values have
  no identity, so sharing cannot be observed.
- The short-circuit order of `DFS` (node value, then left, then right) is
  kept in its definition. For a pure equality test it cannot be observed in
  the boolean result.
- `TestHelpers.RecurseTestCases` requires the accumulator to be no longer
  than the bound. The source starts from an empty accumulator, and a longer
  one would never reach the bound.
- `TestHelpers.RecurseTestCases`: the bound is modelled as a `nat`. The
  source accepts any `N extends number` (BinaryTree.ts:117). For a
  negative or fractional `N`, `Length extends N` never holds, so the source
  recurses until the compiler's depth limit instead of producing a result.
- `BinaryTree.Set` accepts a root that is a leaf or `Empty` when the path
  is a bare `Terminal`, and replaces it with the payload. The source
  constrains the tree argument to be a node (`T extends BinaryTree.Any`,
  BinaryTree.ts:105) and rejects a non-node root. Only the recursive
  calls on `T['left']` and `T['right']` meet non-node positions.
- `TestHelpers.RunTests` and `TestHelpers.RecurseTestCases` accept any
  tree. The source constrains the tree argument of both to be a node
  (`T extends BinaryTree.Any`, BinaryTree.ts:117, 128).
