/**
  The two downward walks of RedBlackTree.java: putHelper (lines 185-210),
  which hangs a new RED node at the empty slot the descent reaches, and
  findNode (lines 217-228), which looks for an exact match. `compareTo`
  contributes only its sign, which on `int` is the sign of `v - x`.
 */
module Search {
  import opened Options
  import opened Trees
  import opened Zippers

  /** `new Node<>(value, parent)` (lines 250-254): RED, no children. */
  function NewNode(v: int): (r: Tree)
    ensures Inorder(r) == [v] && ColorOf(r) == Red
    ensures RedOk(r) && Balanced(r) && BlackHeight(r) == 0
  {
    Node(Red, Nil, v, Nil)
  }

  /**
    Textbook binary-search-tree insertion of a RED leaf with no rebalancing,
    the reference against which the zipper-building descent is checked.
   */
  function InsertLeaf(t: Tree, v: int): (r: Tree)
    ensures r.Node?
  {
    match t
    case Nil => NewNode(v)
    case Node(c, l, x, rt) =>
      if v < x then Node(c, InsertLeaf(l, v), x, rt)
      else if v > x then Node(c, l, x, InsertLeaf(rt, v))
      else t
  }

  /** findNode: the subtree whose root compares equal to `v`, or None. */
  function FindNode(t: Tree, v: int): (r: Option<Tree>)
    ensures r.Some? ==> r.value.Node? && r.value.value == v
  {
    match t
    case Nil => None
    case Node(_, l, x, rt) =>
      if v < x then FindNode(l, v)
      else if v > x then FindNode(rt, v)
      else Some(t)
  }

  /**
    putHelper below a present root (lines 190-209). `ctx` is the path walked
    so far. The result is the new node in focus at the empty slot, with the
    path to it; None when a node compares equal to `v`.
   */
  function Descend(node: Tree, v: int, ctx: Context): (r: Option<Zipper>)
    ensures r.Some? ==> r.value.focus == NewNode(v) && PlugInto(Nil, r.value.ctx) == PlugInto(node, ctx)
    ensures r.Some? ==> Plug(r.value) == PlugInto(InsertLeaf(node, v), ctx)
    ensures node.Node? ==> (r.None? <==> FindNode(node, v).Some?)
    decreases node
  {
    match node
    case Nil => None
    case Node(c, l, x, rt) =>
      if v < x && l.Nil? then Some(Zipper(NewNode(v), LeftOf(c, x, rt, ctx)))
      else if v > x && rt.Nil? then Some(Zipper(NewNode(v), RightOf(c, l, x, ctx)))
      else if v < x then Descend(l, v, LeftOf(c, x, rt, ctx))
      else if v > x then Descend(rt, v, RightOf(c, l, x, ctx))
      else None
  }

  /**
    putHelper from the root (lines 185-189 for an empty tree): the new RED
    node hangs at an empty slot of `root` (so that taking it out again gives
    back `root`), the result is the textbook insertion, and no node is made
    exactly when `find` would succeed.
   */
  function PutHelper(root: Tree, v: int): (r: Option<Zipper>)
    ensures r.Some? ==> r.value.focus == NewNode(v) && PlugInto(Nil, r.value.ctx) == root
    ensures r.Some? ==> Plug(r.value) == InsertLeaf(root, v)
    ensures r.None? <==> FindNode(root, v).Some?
  {
    if root.Nil? then Some(Zipper(NewNode(v), Top)) else Descend(root, v, Top)
  }

  /** On an ordered tree findNode finds a node exactly when `v` is stored. */
  lemma {:induction false} FindNodeIffStored(t: Tree, v: int)
    ensures Ordered(t) ==> (FindNode(t, v).Some? <==> v in Elems(t))
  {
    match t
    case Nil =>
    case Node(_, l, x, rt) =>
      FindNodeIffStored(l, v);
      FindNodeIffStored(rt, v);
  }

  /** On an ordered tree the textbook insertion adds exactly `v`, and changes nothing when `v` is stored. */
  lemma {:induction false} InsertLeafAddsValue(t: Tree, v: int)
    requires Ordered(t)
    ensures Ordered(InsertLeaf(t, v))
    ensures Elems(InsertLeaf(t, v)) == Elems(t) + {v}
    ensures v in Elems(t) ==> InsertLeaf(t, v) == t
    ensures v !in Elems(t) ==> Count(InsertLeaf(t, v)) == Count(t) + 1
  {
    match t
    case Nil =>
    case Node(c, l, x, rt) =>
      InsertLeafAddsValue(l, v);
      InsertLeafAddsValue(rt, v);
  }

  /** On an ordered tree distinct nodes hold distinct values. */
  lemma {:induction false} OrderedCountIsCardinality(t: Tree)
    requires Ordered(t)
    ensures |Elems(t)| == Count(t)
  {
    match t
    case Nil =>
    case Node(_, l, x, rt) =>
      OrderedCountIsCardinality(l);
      OrderedCountIsCardinality(rt);
      var L, R := Elems(l), Elems(rt) + {x};
      assert x !in Elems(rt);
      assert |R| == |Elems(rt)| + 1;
      assert forall y :: y in L ==> y !in R;
      assert L * R == {};
      assert |L + R| == |L| + |R|;
  }

}
