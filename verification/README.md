# Red-black tree insertion and lookup, modelled in Dafny

This project models `RedBlackTree` from `src/main/java/RedBlackTree.java`. It is a set of
comparable values kept in a red-black tree, with four operations: `put`, `find`, `size` and `isEmpty`.

- `put` runs `putHelper`, a plain binary-search descent. The descent hangs a new RED `Node`
  at the empty slot it reaches, or returns null when the value is already stored.
- If a node was made, `put` counts it and runs `repair` from it. `repair` is a walk towards
  the root. At each node it classifies the node, its parent, its grandparent and the uncle:
  - a red uncle means recolouring;
  - a black uncle with a triangle shape means rotating the parent;
  - a black uncle with a flat-line shape means rotating the grandparent and recolouring.
- Finally `put` paints the root BLACK.
- `find` is a binary-search descent to an exact match.

The Java nodes carry mutable parent links. The model uses immutable trees instead (`Trees.Tree`),
plus a zipper (`Zippers.Zipper`): a subtree in focus, together with the path of ancestors up to
the root. "Parent", "grandparent" and "uncle" are read off the path. A rotation rewrites the
subtree in focus and leaves the path alone. Because each ancestor on the path records exactly one
side, parent and child links always agree. So `getUncle` cannot throw, and the shape tests are
exhaustive.

Module layout:
- `Trees` (trees.dfy): colours, trees, the red-black invariants, and the height bound. The invariants are the class comment's BLACK root and equal black counts (lines 9 and 11-12), plus binary-search order and the textbook rule that no RED node has a RED child. The class comment does not list those two; the descent relies on the first, and the height bound of line 13 needs the second.
- `Zippers` (zippers.dfy): the path-to-root context that replaces parent links.
- `Rotations` (rotations.dfy): `rotateRight` and `rotateLeft`.
- `Rebalance` (rebalance.dfy): `repair`, with its shape tests and uncle lookup. It has two versions:
  - `Repair`, the corrected walk;
  - `RepairAsWritten`, the walk exactly as written.
- `Search` (search.dfy): `putHelper`, `findNode` and `Node` creation.
- `RedBlackTrees` (red_black_tree.dfy): the container, with its `size` counter, `put`, `find`,
  `size` and `isEmpty`.
- `Scenarios` (scenarios.dfy): the insertion sequences of the demo builders, evaluated on the
  model, and the counterexample from Findings.

Values are `int`. `compareTo` contributes only its sign, which on `int` is that of `<`.

## Model

| member | source | states |
|---|---|---|
| Rotations.RotateRight | src/main/java/RedBlackTree.java:22-47 | The left child is promoted and the rotated node becomes its right child, taking over the crossing grandchild as its left subtree. Colours stay with their nodes. The in-order sequence is unchanged exactly when the left child is present. Without a left child the node's slot is cleared (the result is empty). |
| Rotations.RotateLeft | src/main/java/RedBlackTree.java:49-72 | Mirror image of RotateRight: the right child is promoted and the crossing grandchild moves across. The in-order sequence is unchanged exactly when the right child is present. |
| Rotations.RotateLeftUndoesRotateRight | src/main/java/RedBlackTree.java:22-72 | When there is a child to promote, a left rotation gives back the tree a right rotation started from. |
| Rotations.RotateRightUndoesRotateLeft | src/main/java/RedBlackTree.java:22-72 | When there is a child to promote, a right rotation gives back the tree a left rotation started from. |
| Rotations.RotateRightAt | src/main/java/RedBlackTree.java:26-41 | A rotation in place keeps the path above the node, and the right rotation of the node fills the node's slot. When the node was the root, that rotation is the whole tree. The whole tree's in-order sequence is unchanged when the left child is present. |
| Rotations.RotateLeftAt | src/main/java/RedBlackTree.java:53-66 | Mirror image of RotateRightAt: the left rotation of the node fills its slot under the same path. |
| Zippers.Up | src/main/java/RedBlackTree.java:97-98 | Moving to the parent leaves the whole tree unchanged and removes exactly one ancestor from the path. |
| Zippers.DownLeft | src/main/java/RedBlackTree.java:246-248 | Moving to the left child and then back up returns the starting position. |
| Zippers.DownRight | src/main/java/RedBlackTree.java:246-248 | Moving to the right child and then back up returns the starting position. |
| Zippers.PlugBalanced | src/main/java/RedBlackTree.java:11-12 | A whole tree has equal black counts iff the subtree in focus does and every sibling along the path matches the black count the focus brings to that level. |
| Zippers.PlugRedOk | src/main/java/RedBlackTree.java:13 | The no-red-red rule is not in the class comment, but the height bound of line 13 needs it. A whole tree has no red node with a red child iff the focus has none and no such edge exists along the path, the focus's root colour included. |
| Rebalance.Uncle | src/main/java/RedBlackTree.java:174-183 | The uncle is the grandparent's child that is not the parent: its right child when the parent hangs on the left, and its left child otherwise. |
| Rebalance.FormTriangle | src/main/java/RedBlackTree.java:157-172 | True iff node, parent and grandparent exist and the node is the left child of a right child or the right child of a left child, read off the moves between them. |
| Rebalance.FormFlatLine | src/main/java/RedBlackTree.java:141-156 | True iff node, parent and grandparent exist and both links go left or both go right. |
| Rebalance.Classify | src/main/java/RedBlackTree.java:84-139 | Picks the branch of repair in the source's order of tests. The fallback branch of line 139 is never picked. |
| Rebalance.ShapeTestsExclusive | src/main/java/RedBlackTree.java:141-172 | When node, parent and grandparent are present, exactly one of the triangle test and the flat-line test holds. |
| Rebalance.RecolorRedUncle | src/main/java/RedBlackTree.java:100-107 | Case 1 keeps the in-order sequence. Only the parent and uncle (now BLACK) and the grandparent (now RED) change colour. The node's subtree, the shape and the path above the grandparent are unchanged. The walk resumes two levels up, at the grandparent. |
| Rebalance.RotateParentRight | src/main/java/RedBlackTree.java:109-115 | Case 2 with a left child keeps the in-order sequence and changes no colour. The walk resumes at the old parent (line 113), at the same depth: it is now the right child of the node, holding the node's old right subtree and its own old right subtree, under the same grandparent. |
| Rebalance.RotateParentLeft | src/main/java/RedBlackTree.java:116-121 | Mirror image of RotateParentRight: no colour changes, and the walk resumes at the old parent (line 119), now the node's left child. |
| Rebalance.RotateGrandparentRight | src/main/java/RedBlackTree.java:122-129 | Case 3 with left children keeps the in-order sequence. The parent, painted BLACK, takes the grandparent's slot under the unchanged path above. The grandparent, painted RED, becomes the parent's right child and takes over the parent's old right subtree. The node stays in focus, one level higher, under the BLACK parent. |
| Rebalance.RotateGrandparentLeft | src/main/java/RedBlackTree.java:131-138 | Mirror image of RotateGrandparentRight: the grandparent, painted RED, becomes the BLACK parent's left child, holding the parent's old left subtree, and the path above is unchanged. |
| Rebalance.Repair | src/main/java/RedBlackTree.java:84-140 | The corrected walk terminates. It only relinks and recolours, so the whole tree's in-order sequence is the one it started from. |
| Rebalance.RepairAsWritten | src/main/java/RedBlackTree.java:84-140 | The walk exactly as written also terminates and also keeps the in-order sequence. |
| Rebalance.TriangleLeadsToLine | src/main/java/RedBlackTree.java:109-121 | After the case-2 rotation on a RED node, the next step is the matching flat-line case (3). On a BLACK node the walk stops at line 91. |
| Rebalance.LineEndsWalk | src/main/java/RedBlackTree.java:122-138 | In the corrected walk, the step after a flat-line rotation returns at line 91. |
| Rebalance.LineAsWrittenGoesOn | src/main/java/RedBlackTree.java:127 | As written, when the node above the rotated subtree is RED, the flat-line case resumes at a node whose parent is RED, so the walk does not stop at line 91. When that RED node has a parent too, the walk also passes line 94 and takes another case step (recolouring or rotating) around the BLACK node it resumed at. |
| Rebalance.RedUncleKeepsEntry | src/main/java/RedBlackTree.java:100-107 | Case 1 keeps the walk's entry state. That state is: a RED focus that satisfies the colour invariants (no red-red edge, equal black counts), equal black counts in the whole tree, and no red-red edge except possibly between the focus and its parent. |
| Rebalance.TriangleKeepsEntry | src/main/java/RedBlackTree.java:109-121 | Case 2 keeps the walk's entry state. |
| Rebalance.LineKeepsEntry | src/main/java/RedBlackTree.java:122-138 | Case 3 keeps the walk's entry state. |
| Rebalance.RepairRestores | src/main/java/RedBlackTree.java:84-140 | Entered from that state, the corrected walk leaves equal black counts and no red-red edge below the root. |
| Search.NewNode | src/main/java/RedBlackTree.java:250-254 | A new node is a RED tree holding exactly its value, with no red-red edge and black height 0, so hanging it in an empty slot keeps the black counts. |
| Search.FindNode | src/main/java/RedBlackTree.java:217-228 | A found node holds the query value. |
| Search.FindNodeIffStored | src/main/java/RedBlackTree.java:217-228 | On an ordered tree a node is found iff the value is stored. |
| Search.Descend | src/main/java/RedBlackTree.java:190-209 | The descent below a present node hangs a new RED leaf at an empty slot, so removing it gives the old tree back. The result is the reference binary-search insertion. No node is made iff findNode succeeds. |
| Search.PutHelper | src/main/java/RedBlackTree.java:185-210 | The same as Descend, started at the root. An empty tree gets the new node as its root. |
| Search.InsertLeafAddsValue | src/main/java/RedBlackTree.java:185-210 | On an ordered tree, the reference insertion keeps the order and adds exactly the value. It changes nothing when the value is stored, and adds one node otherwise. |
| Search.OrderedCountIsCardinality | src/main/java/RedBlackTree.java:231-233 | On an ordered tree the number of nodes is the number of distinct stored values. |
| RedBlackTrees.Put | src/main/java/RedBlackTree.java:76-83 | After put the root is present and BLACK. |
| RedBlackTrees.PutAsWritten | src/main/java/RedBlackTree.java:76-83 | After put with the walk as written the root is present and BLACK. |
| RedBlackTrees.PutAsWrittenKeepsContents | src/main/java/RedBlackTree.java:76-83 | With the walk as written, put on an ordered tree with a correct counter keeps the order and the counter right and stores exactly one more value. Size grows by one exactly when that value was new. A stored value under a BLACK root changes nothing. |
| RedBlackTrees.Find | src/main/java/RedBlackTree.java:213-215 | A found node holds the query value. In a valid tree a node is found iff the value is stored. |
| RedBlackTrees.IsEmpty | src/main/java/RedBlackTree.java:236-238 | In a valid tree, isEmpty holds iff there is no root. |
| RedBlackTrees.PutKeepsValid | src/main/java/RedBlackTree.java:6-15 | Put on a valid tree gives a valid tree again. Valid means the class comment's BLACK root and equal black counts, plus binary-search order, the no-red-red rule, and a counter equal to the number of nodes. It stores exactly one more value, the put one. Size grows by one exactly when that value was new. |
| RedBlackTrees.PutStoredIsNoOp | src/main/java/RedBlackTree.java:76-82 | Putting a stored value into a valid tree changes nothing: not the shape, not the colours, not the size. |
| RedBlackTrees.FindAfterPut | src/main/java/RedBlackTree.java:213-228 | After put, find succeeds for exactly the put value and the values found before. |
| RedBlackTrees.ValidHeightBound | src/main/java/RedBlackTree.java:13 | A valid tree of n nodes has height h with 2^h <= (n+1)^2, that is h <= 2 log2(n+1). |
| RedBlackTrees.PutAllKeepsValid | src/main/java/RedBlackTree.java:76-83 | Putting a sequence of values into a valid tree keeps it valid and adds exactly those values. |
| RedBlackTrees.ReachableTrees | src/main/java/RedBlackTree.java:16-19 | Every tree built by put from the empty tree is valid and stores exactly the values put. Its size counter equals the number of distinct values. |
| RedBlackTrees.PutAllAppend | src/main/java/RedBlackTree.java:76-83 | Putting a + b is putting a and then b. |
| Trees.Paint | src/main/java/RedBlackTree.java:82 | Recolouring a node leaves the in-order sequence alone and sets the root colour. |
| Trees.BalancedIffUniformPaths | src/main/java/RedBlackTree.java:11-12 | Equal black heights of the two children at every node is the class comment's "every path to null has the same number of black nodes". |
| Trees.OrderedIffIncreasing | src/main/java/RedBlackTree.java:185-228 | The binary-search order that putHelper and findNode rely on holds iff the in-order sequence is strictly increasing. |
| Trees.HeightBound | src/main/java/RedBlackTree.java:13 | A tree with the colour invariants and a BLACK root has 2^height <= (nodes+1)^2. |
| Scenarios.FirstTest | src/main/java/RedBlackTree.java:271-289 | Put 15, 9, 25, 30 gives 15B(9B, 25B(-, 30R)) under both walks, as the comment's "After fix" shows. |
| Scenarios.SecondTest | src/main/java/RedBlackTree.java:291-308 | Put 15, 5, 1 gives 5B(1R, 15R) under both walks. |
| Scenarios.ThirdTest | src/main/java/RedBlackTree.java:310-374 | Putting 10 into the hand-built tree gives 12B(8R(5B, 9B(-, 10R)), 15R(13B, 19B(-, 23R))) under both walks. The hand-built tree's counter was never raised, so size becomes 1. |
| Scenarios.FourthTest | src/main/java/RedBlackTree.java:376-390 | Put 17, 9, 19, 18, 75, 81 gives 17B(9B, 19R(18B, 75B(-, 81R))) under both walks. |
| Scenarios.FifthTest | src/main/java/RedBlackTree.java:405-419 | Put 17, 9, 19, 24, 75 gives 17B(9B, 24B(19R, 75R)) under both walks. |
| Scenarios.SixthTest | src/main/java/RedBlackTree.java:431-454 | Put 17, 9, 18, 24, 75 gives 17B(9B, 24B(18R, 75R)) under both walks. |
| Scenarios.SeventhTest | src/main/java/RedBlackTree.java:457-496 | Putting 120 into the hand-built tree gives 50B(25B(-, 35R), 100B(80R, 120R)) under both walks. |
| Scenarios.EighthTest | src/main/java/RedBlackTree.java:498-517 | Put 50, 25, 35, 80, 100, 120 gives 35B(25B, 80R(50B, 100B(-, 120R))) under both walks. |
| Scenarios.NinthTest | src/main/java/RedBlackTree.java:519-538 | Put 50, 25, 35, 80, 100, 120, 11, 9, 1 gives 35B(11R(9B(1R, -), 25B), 80R(50B, 100B(-, 120R))) under both walks. |
| Scenarios.DuplicatePut | src/main/java/RedBlackTree.java:209 | Put 10 twice stores one node and counts it once. |
| Scenarios.TriangleInsert | src/main/java/RedBlackTree.java:109-128 | Put 15, 5, 10 is a triangle followed by a flat line, giving 10B(5R, 15R). |
| Scenarios.ResumeAtParentBreaksInvariants | src/main/java/RedBlackTree.java:127 | As written, put 10, 5, 20, 15, 25, 13, 12 gives 10B(5B, 13B(12R, 20R(15R, 25B))). That tree has a red-red edge and unequal black counts. |
| Scenarios.ResumeAtNodeKeepsInvariants | src/main/java/RedBlackTree.java:127 | With the correction, the same sequence gives the valid tree 10B(5B, 20R(13B(12R, 15R), 25B)). |

## Left out

- The Lombok annotations (`@Data`, `@ToString.Exclude`, `@EqualsAndHashCode.Exclude`, `@NonNull`). They only generate accessors, equality and null checks. `int` values cannot be null.
- `src/main/java/Tree.java` is not part of this model. It declares the four operations and holds no behaviour.
- The generic `Comparable` bound: values are `int`, so comparators that break the order contract cannot arise.
- The `size` field is a Java `int`; the model's counter is unbounded and does not wrap after 2^31 - 1 insertions.
- Java object identity: the zipper encodes the parent and child links, so no other node identity is modelled.
- Recursion depth and stack overflow in `repair`, `putHelper` and `findNode`.
- `main` and the demo builders are not executable code here. Their insertion sequences appear only as scenario lemmas.
- The drawings at lines 392-399 and 421-426 do not match what the code builds: the first shows a red 75 with a red child 81, the second an 18 that is never put. FourthTest and FifthTest state what the code builds instead.
- Deletion: the source has none.
- The fallback at line 139 (`repair(node.getParent())`) is kept as a branch that `Classify` never picks, so `Repair` ends it with `assert false`.
- The exception of `getUncle` (line 182) has no counterpart: on a zipper the parent is always a child of the grandparent.
- Rotations.RotateRight and Rotations.RotateLeft take a present node (`@NonNull`, lines 22 and 49). A null argument would throw in the source.
- Size has no contract of its own. What the counter means is stated by ReachableTrees and PutKeepsValid.

## Findings

| source | as written | input that shows it | evidently intended | confidence | as-written member | corrected member |
|---|---|---|---|---|---|---|
| src/main/java/RedBlackTree.java:127 and :136 | After the case-3 rotation, the walk resumes at `node.getParent()`, the parent just painted BLACK. `repair` never checks the colour of the node it is given. If that parent's new parent is RED, the resumed walk does not stop at line 91. It takes another case step (recolouring or rotating), and that step can break the invariants, as the input shows. | put 10, 5, 20, 15, 25, 13, 12 into an empty tree. The result is 10B(5B, 13B(12R, 20R(15R, 25B))): 15 is RED under RED 20, and the path to 5 has two black nodes (10, 5) while the path through 25 has three (10, 13, 25). | Case 3 ends the walk, as in the textbook algorithm, and as the class comment's equal black counts (lines 11-12) and height bound (line 13) need. Resuming at `node` does that, since its parent is now BLACK and the next call returns at line 91. That gives 10B(5B, 20R(13B(12R, 15R), 25B)). | not executed; derived from the model | Rebalance.RepairAsWritten, shown by Scenarios.ResumeAtParentBreaksInvariants and Rebalance.LineAsWrittenGoesOn | Rebalance.Repair, proved by Rebalance.RepairRestores and RedBlackTrees.PutKeepsValid |
