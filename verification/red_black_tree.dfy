/**
  The container class RedBlackTree (lines 16-19, 75-83, 212-238): a root
  and a size counter, with put, find, size and isEmpty as in the `Tree`
  interface. `Put` uses the corrected repair walk; `PutAsWritten` uses the
  walk exactly as the source writes it.
 */
module RedBlackTrees {
  import opened Options
  import opened Trees
  import opened Zippers
  import opened Rebalance
  import opened Search

  datatype RedBlackTree = RedBlackTree(root: Tree, size: int)

  function Empty(): RedBlackTree {
    RedBlackTree(Nil, 0)
  }

  /**
    The class comment's BLACK root and equal black counts, plus binary-search
    order and the no-red-red rule that the height bound needs, and `size`
    counting the nodes.
   */
  predicate Valid(t: RedBlackTree) {
    IsRedBlack(t.root) && t.size == Count(t.root)
  }

  /**
    put (lines 76-83): descend, and if a node was created count it and
    repair from it; in every case paint the root BLACK. The root is never
    missing afterwards.
   */
  function Put(t: RedBlackTree, v: int): (r: RedBlackTree)
    ensures r.root.Node? && r.root.color == Black
  {
    match PutHelper(t.root, v)
    case None => RedBlackTree(Paint(t.root, Black), t.size)
    case Some(z) => RedBlackTree(Paint(Repair(z), Black), t.size + 1)
  }

  /** put with the repair walk exactly as written. */
  function PutAsWritten(t: RedBlackTree, v: int): (r: RedBlackTree)
    ensures r.root.Node? && r.root.color == Black
  {
    match PutHelper(t.root, v)
    case None => RedBlackTree(Paint(t.root, Black), t.size)
    case Some(z) => RedBlackTree(Paint(RepairAsWritten(z), Black), t.size + 1)
  }

  /** find (lines 213-215). */
  function Find(t: RedBlackTree, v: int): (r: Option<Tree>)
    ensures r.Some? ==> r.value.Node? && r.value.value == v
    ensures Valid(t) ==> (r.Some? <==> v in Elems(t.root))
  {
    FindNodeIffStored(t.root, v);
    FindNode(t.root, v)
  }

  /** size (lines 231-233). */
  function Size(t: RedBlackTree): int {
    t.size
  }

  /** isEmpty (lines 236-238). */
  function IsEmpty(t: RedBlackTree): (b: bool)
    ensures Valid(t) ==> (b <==> t.root.Nil?)
  {
    t.size == 0
  }

  /** `put` applied to each value in turn, first to last. */
  function PutAll(t: RedBlackTree, vs: seq<int>): RedBlackTree
    decreases |vs|
  {
    if |vs| == 0 then t else PutAll(Put(t, vs[0]), vs[1..])
  }

  /** `PutAll` with the repair walk exactly as written. */
  function PutAllAsWritten(t: RedBlackTree, vs: seq<int>): RedBlackTree
    decreases |vs|
  {
    if |vs| == 0 then t else PutAllAsWritten(PutAsWritten(t, vs[0]), vs[1..])
  }

  /** Putting `a + b` is putting `a` and then `b`. */
  lemma {:induction false} PutAllAppend(t: RedBlackTree, a: seq<int>, b: seq<int>)
    ensures PutAll(t, a + b) == PutAll(PutAll(t, a), b)
    decreases |a|
  {
    if |a| > 0 {
      assert (a + b)[0] == a[0] && (a + b)[1..] == a[1..] + b;
      PutAllAppend(Put(t, a[0]), a[1..], b);
    } else {
      assert a + b == b;
    }
  }

  /** `PutAllAppend` for the walk as written. */
  lemma {:induction false} PutAllAsWrittenAppend(t: RedBlackTree, a: seq<int>, b: seq<int>)
    ensures PutAllAsWritten(t, a + b) == PutAllAsWritten(PutAllAsWritten(t, a), b)
    decreases |a|
  {
    if |a| > 0 {
      assert (a + b)[0] == a[0] && (a + b)[1..] == a[1..] + b;
      PutAllAsWrittenAppend(PutAsWritten(t, a[0]), a[1..], b);
    } else {
      assert a + b == b;
    }
  }

  lemma EmptyIsValid()
    ensures Valid(Empty()) && IsEmpty(Empty()) && Size(Empty()) == 0
  {
  }

  /**
    put on a valid tree gives a valid tree (order, no red-red edge, equal
    black counts, BLACK root, size counting the nodes) that stores exactly
    one more value, `v`; size grows by one exactly when `v` was not stored.
   */
  lemma PutKeepsValid(t: RedBlackTree, v: int)
    requires Valid(t)
    ensures Valid(Put(t, v))
    ensures Elems(Put(t, v).root) == Elems(t.root) + {v}
    ensures Size(Put(t, v)) == Size(t) + (if v in Elems(t.root) then 0 else 1)
  {
    InsertLeafAddsValue(t.root, v);
    FindNodeIffStored(t.root, v);
    match PutHelper(t.root, v)
    case None =>
      assert Put(t, v) == t;
    case Some(z) =>
      InsertionEntry(t.root, v, z);
      RepairRestores(z);
      SameInorderSameContents(Repair(z), InsertLeaf(t.root, v));
      assert Put(t, v).root == Repair(z).(color := Black);
  }

  /**
    put with the walk as written still behaves as a set: on an ordered tree
    whose counter is right it keeps the order, stores exactly one more value,
    `v`, counts the node it makes, and changes nothing when `v` is stored
    and the root is already BLACK. Only the colour invariants are lost.
   */
  lemma PutAsWrittenKeepsContents(t: RedBlackTree, v: int)
    requires Ordered(t.root) && t.size == Count(t.root)
    ensures Ordered(PutAsWritten(t, v).root)
    ensures Elems(PutAsWritten(t, v).root) == Elems(t.root) + {v}
    ensures PutAsWritten(t, v).size == Count(PutAsWritten(t, v).root)
    ensures Size(PutAsWritten(t, v)) == Size(t) + (if v in Elems(t.root) then 0 else 1)
    ensures v in Elems(t.root) && ColorOf(t.root) == Black ==> PutAsWritten(t, v) == t
  {
    InsertLeafAddsValue(t.root, v);
    FindNodeIffStored(t.root, v);
    match PutHelper(t.root, v)
    case None =>
      SameInorderSameContents(PutAsWritten(t, v).root, t.root);
    case Some(z) =>
      SameInorderSameContents(RepairAsWritten(z), InsertLeaf(t.root, v));
      SameInorderSameContents(PutAsWritten(t, v).root, RepairAsWritten(z));
  }

  /** The new node and its path are a state in which the repair walk may be entered. */
  lemma InsertionEntry(root: Tree, v: int, z: Zipper)
    requires RedOk(root) && Balanced(root) && PutHelper(root, v) == Some(z)
    ensures Entry(z)
  {
    PlugBalanced(Nil, z.ctx);
    PlugRedOk(Nil, z.ctx);
  }

  /** Putting a stored value into a valid tree changes nothing: no node, same size, same shape and colours. */
  lemma PutStoredIsNoOp(t: RedBlackTree, v: int)
    requires Valid(t) && v in Elems(t.root)
    ensures Put(t, v) == t
  {
    FindNodeIffStored(t.root, v);
  }

  /** find never reports a value that `put` has not stored, and always finds one it has. */
  lemma FindAfterPut(t: RedBlackTree, v: int, w: int)
    requires Valid(t)
    ensures Find(Put(t, v), w).Some? <==> w == v || Find(t, w).Some?
  {
    PutKeepsValid(t, v);
  }

  /** Valid trees obey the height bound of the class comment: height <= 2 * log2(size + 1). */
  lemma ValidHeightBound(t: RedBlackTree)
    requires Valid(t)
    ensures Pow2(Height(t.root)) <= (Size(t) + 1) * (Size(t) + 1)
  {
    HeightBound(t.root);
  }

  /** Putting values one by one into a valid tree stores exactly those values and keeps it valid. */
  lemma {:induction false} PutAllKeepsValid(t: RedBlackTree, vs: seq<int>)
    requires Valid(t)
    ensures Valid(PutAll(t, vs))
    ensures Elems(PutAll(t, vs).root) == Elems(t.root) + set i | 0 <= i < |vs| :: vs[i]
    decreases |vs|
  {
    if |vs| > 0 {
      PutKeepsValid(t, vs[0]);
      PutAllKeepsValid(Put(t, vs[0]), vs[1..]);
      assert (set i | 0 <= i < |vs| :: vs[i]) == {vs[0]} + set i | 0 <= i < |vs[1..]| :: vs[1..][i];
    }
  }

  /**
    Every tree reachable through put from the empty tree is valid, stores
    exactly the values put, and its size is the number of distinct values.
   */
  lemma ReachableTrees(vs: seq<int>)
    ensures Valid(PutAll(Empty(), vs))
    ensures Elems(PutAll(Empty(), vs).root) == set i | 0 <= i < |vs| :: vs[i]
    ensures Size(PutAll(Empty(), vs)) == |set i | 0 <= i < |vs| :: vs[i]|
  {
    var t := PutAll(Empty(), vs);
    PutAllKeepsValid(Empty(), vs);
    assert Elems(t.root) == set i | 0 <= i < |vs| :: vs[i] by {
      assert Elems(Empty().root) == {};
    }
    OrderedCountIsCardinality(t.root);
  }

}
