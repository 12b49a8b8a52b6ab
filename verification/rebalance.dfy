/**
  The post-insertion repair of RedBlackTree.java:84-183: the walk from the
  new node towards the root that recolours and rotates until no RED node has
  a RED child, except possibly the root (which `put` then paints BLACK).

  `Classify` reproduces the order of the source's tests (lines 85-139) and
  names the branch taken; `Repair` runs the walk. `RepairAsWritten` is the
  walk exactly as the source writes it, whose flat-line case (lines 127 and
  136) resumes at the node's parent; `Repair` resumes at the node itself,
  which ends the walk, as the textbook algorithm does and as the class
  invariants need.
 */
module Rebalance {
  import opened Trees
  import opened Zippers
  import opened Rotations

  /** The branch of repair taken for a given node, in the source's order. */
  datatype RepairCase =
    | NoNode          // line 85
    | NoParent        // line 88: the node is the root
    | BlackParent     // line 91
    | NoGrandparent   // line 94
    | RedUncle        // case 1, lines 101-107
    | TriangleLeft    // case 2, lines 111-114: the node is its parent's left child
    | TriangleRight   // case 2, lines 117-120: the node is its parent's right child
    | LineLeft        // case 3, lines 123-128: node and parent are left children
    | LineRight       // case 3, lines 132-137: node and parent are right children
    | Fallback        // line 139

  /** getUncle (lines 174-183): the grandparent's child on the side away from the parent. */
  function Uncle(z: Zipper): (r: Tree)
    requires !z.ctx.Top? && !z.ctx.up.Top?
    ensures var p, g := Up(z), Up(Up(z));
            (p.focus == g.focus.left && r == g.focus.right) || (p.focus == g.focus.right && r == g.focus.left)
    ensures z.ctx.up.LeftOf? ==> r == Up(Up(z)).focus.right
    ensures z.ctx.up.RightOf? ==> r == Up(Up(z)).focus.left
  {
    z.ctx.up.sibling
  }

  /**
    childAndParentFormTriangle (lines 157-172): the node is the inner
    grandchild, the left child of a right child or the right child of a left
    child, read off the moves between node, parent and grandparent.
   */
  function FormTriangle(z: Zipper): (b: bool)
    ensures b <==> && z.focus.Node? && Depth(z.ctx) >= 2
                   && ((DownLeft(Up(z)) == z && DownRight(Up(Up(z))) == Up(z))
                       || (DownRight(Up(z)) == z && DownLeft(Up(Up(z))) == Up(z)))
  {
    if z.ctx.Top? then false
    else if z.focus.Nil? then false
    else if z.ctx.up.Top? then false
    else (z.ctx.LeftOf? && z.ctx.up.RightOf?) || (z.ctx.RightOf? && z.ctx.up.LeftOf?)
  }

  /**
    childAndParentFormFlatLine (lines 141-156): node, parent and grandparent
    in a straight line, both links going left or both going right.
   */
  function FormFlatLine(z: Zipper): (b: bool)
    ensures b <==> && z.focus.Node? && Depth(z.ctx) >= 2
                   && ((DownLeft(Up(z)) == z && DownLeft(Up(Up(z))) == Up(z))
                       || (DownRight(Up(z)) == z && DownRight(Up(Up(z))) == Up(z)))
  {
    if z.ctx.Top? then false
    else if z.focus.Nil? then false
    else if z.ctx.up.Top? then false
    else (z.ctx.up.RightOf? && z.ctx.RightOf?) || (z.ctx.up.LeftOf? && z.ctx.LeftOf?)
  }

  /** The tests of lines 85-139 in the source's order. The fallback of line 139 is never selected. */
  function Classify(z: Zipper): (r: RepairCase)
    ensures r != Fallback
  {
    if z.focus.Nil? then NoNode
    else if z.ctx.Top? then NoParent
    else if z.ctx.color == Black then BlackParent
    else if z.ctx.up.Top? then NoGrandparent
    else
      var uncle := Uncle(z);
      var uncleIsRed := uncle.Node? && uncle.color == Red;
      var uncleIsBlack := uncle.Nil? || uncle.color == Black;
      if uncleIsRed then RedUncle
      else if uncleIsBlack && FormTriangle(z) && z.ctx.LeftOf? then TriangleLeft
      else if uncleIsBlack && FormTriangle(z) && z.ctx.RightOf? then TriangleRight
      else if uncleIsBlack && FormFlatLine(z) && z.ctx.LeftOf? then LineLeft
      else if uncleIsBlack && FormFlatLine(z) && z.ctx.RightOf? then LineRight
      else Fallback
  }

  /** With a parent and a grandparent present, exactly one of the two shape tests holds. */
  lemma ShapeTestsExclusive(z: Zipper)
    requires z.focus.Node? && !z.ctx.Top? && !z.ctx.up.Top?
    ensures FormTriangle(z) != FormFlatLine(z)
  {
  }

  /**
    Case 1 (lines 103-106): parent and uncle become BLACK, the grandparent
    RED, and the walk resumes at the grandparent, two levels up. Nothing
    else changes: not the node's subtree, not the path above the grandparent.
   */
  function RecolorRedUncle(z: Zipper): (r: Zipper)
    requires !z.ctx.Top? && !z.ctx.up.Top? && Uncle(z).Node?
    ensures Inorder(Plug(r)) == Inorder(Plug(z))
    ensures Depth(r.ctx) + 2 == Depth(z.ctx)
    ensures r.focus.Node? && r.focus.color == Red
    ensures ColorOf(r.focus.left) == Black && ColorOf(r.focus.right) == Black
    ensures r.ctx == z.ctx.up.up
    ensures r.focus == Attach(z.ctx.up.(color := Red, sibling := Paint(Uncle(z), Black)),
                              Attach(z.ctx.(color := Black), z.focus))
  {
    var p := z.ctx;
    var g := p.up;
    var g' := g.(color := Red, sibling := Paint(g.sibling, Black));
    var r := Up(Up(Zipper(z.focus, p.(color := Black, up := g'))));
    PlugKeepsInorder(r.focus, Up(Up(z)).focus, r.ctx);
    r
  }

  /**
    Case 2 with the node a left child (lines 112-113): rotating the parent
    right puts the node in the parent's slot and the old parent under it as
    a right child, taking over the node's right subtree; no colour changes,
    and the walk resumes at the old parent, at the same depth.
   */
  function RotateParentRight(z: Zipper): (r: Zipper)
    requires z.focus.Node? && z.ctx.LeftOf?
    ensures Inorder(Plug(r)) == Inorder(Plug(z))
    ensures Depth(r.ctx) == Depth(z.ctx)
    ensures r.ctx.RightOf? && r.ctx.up == z.ctx.up
    ensures r == Zipper(Node(z.ctx.color, z.focus.right, z.ctx.value, z.ctx.sibling),
                        RightOf(z.focus.color, z.focus.left, z.focus.value, z.ctx.up))
  {
    DownRight(RotateRightAt(Up(z)))
  }

  /** Case 2 with the node a right child (lines 118-119), the mirror image. */
  function RotateParentLeft(z: Zipper): (r: Zipper)
    requires z.focus.Node? && z.ctx.RightOf?
    ensures Inorder(Plug(r)) == Inorder(Plug(z))
    ensures Depth(r.ctx) == Depth(z.ctx)
    ensures r.ctx.LeftOf? && r.ctx.up == z.ctx.up
    ensures r == Zipper(Node(z.ctx.color, z.ctx.sibling, z.ctx.value, z.focus.left),
                        LeftOf(z.focus.color, z.focus.value, z.focus.right, z.ctx.up))
  {
    DownLeft(RotateLeftAt(Up(z)))
  }

  /**
    Case 3 with node and parent left children (lines 124-126): rotating the
    grandparent right lifts the parent into its slot; the grandparent is
    painted RED and becomes the parent's right child, taking over the
    parent's old right subtree; the parent is painted BLACK. The path above
    is unchanged, and the result stays focused on the node, whose parent is
    now BLACK.
   */
  function RotateGrandparentRight(z: Zipper): (r: Zipper)
    requires z.focus.Node? && z.ctx.LeftOf? && z.ctx.up.LeftOf?
    ensures Inorder(Plug(r)) == Inorder(Plug(z))
    ensures Depth(r.ctx) + 1 == Depth(z.ctx)
    ensures r.focus == z.focus && r.ctx.LeftOf? && r.ctx.color == Black
    ensures r.ctx == LeftOf(Black, z.ctx.value, Node(Red, z.ctx.sibling, z.ctx.up.value, z.ctx.up.sibling), z.ctx.up.up)
  {
    var g := RotateRightAt(Up(Up(z)));
    var t := g.focus;
    var t' := t.(color := Black, right := Paint(t.right, Red));
    PlugKeepsInorder(t', t, g.ctx);
    DownLeft(Zipper(t', g.ctx))
  }

  /** Case 3 with node and parent right children (lines 133-135), the mirror image. */
  function RotateGrandparentLeft(z: Zipper): (r: Zipper)
    requires z.focus.Node? && z.ctx.RightOf? && z.ctx.up.RightOf?
    ensures Inorder(Plug(r)) == Inorder(Plug(z))
    ensures Depth(r.ctx) + 1 == Depth(z.ctx)
    ensures r.focus == z.focus && r.ctx.RightOf? && r.ctx.color == Black
    ensures r.ctx == RightOf(Black, Node(Red, z.ctx.up.sibling, z.ctx.up.value, z.ctx.sibling), z.ctx.value, z.ctx.up.up)
  {
    var g := RotateLeftAt(Up(Up(z)));
    var t := g.focus;
    var t' := t.(color := Black, left := Paint(t.left, Red));
    PlugKeepsInorder(t', t, g.ctx);
    DownRight(Zipper(t', g.ctx))
  }

  function TriangleRank(z: Zipper): nat {
    if FormTriangle(z) then 1 else 0
  }

  /**
    repair with the flat-line case resuming at the node: the whole tree once
    the walk has stopped. Only links and colours change, so the in-order
    sequence is that of the tree the walk started on.
   */
  function Repair(z: Zipper): (t: Tree)
    ensures Inorder(t) == Inorder(Plug(z))
    decreases Depth(z.ctx), TriangleRank(z)
  {
    match Classify(z)
    case NoNode | NoParent | BlackParent | NoGrandparent => Plug(z)
    case RedUncle => Repair(RecolorRedUncle(z))
    case TriangleLeft => Repair(RotateParentRight(z))
    case TriangleRight => Repair(RotateParentLeft(z))
    case LineLeft => Repair(RotateGrandparentRight(z))
    case LineRight => Repair(RotateGrandparentLeft(z))
    case Fallback => assert false; Plug(z)
  }

  /** repair exactly as written: the flat-line case resumes at `node.getParent()`. */
  function RepairAsWritten(z: Zipper): (t: Tree)
    ensures Inorder(t) == Inorder(Plug(z))
    decreases Depth(z.ctx), TriangleRank(z)
  {
    match Classify(z)
    case NoNode | NoParent | BlackParent | NoGrandparent => Plug(z)
    case RedUncle => RepairAsWritten(RecolorRedUncle(z))
    case TriangleLeft => RepairAsWritten(RotateParentRight(z))
    case TriangleRight => RepairAsWritten(RotateParentLeft(z))
    case LineLeft => RepairAsWritten(Up(RotateGrandparentRight(z)))
    case LineRight => RepairAsWritten(Up(RotateGrandparentLeft(z)))
    case Fallback => assert false; Plug(z)
  }

  /**
    The state in which the walk is entered: a RED node whose own subtree
    satisfies the colour invariants (no red-red edge, equal black counts),
    equal black counts over the whole tree, and no red-red edge anywhere
    except possibly between the node and its parent.
   */
  predicate Entry(z: Zipper) {
    && z.focus.Node? && z.focus.color == Red
    && RedOk(z.focus) && Balanced(z.focus)
    && CtxBalanced(z.ctx, BlackHeight(z.focus))
    && CtxRedOk(z.ctx, Black)
  }

  /** What the walk leaves: equal black counts and no red-red edge, except possibly at a RED root. */
  predicate RedBelowRootOk(t: Tree) {
    t.Node? && Balanced(t) && RedOk(t.left) && RedOk(t.right)
  }

  /** After a triangle rotation on a RED node the next step is the matching flat-line case. */
  lemma TriangleLeadsToLine(z: Zipper)
    requires Classify(z) == TriangleLeft || Classify(z) == TriangleRight
    ensures z.focus.color == Red && Classify(z) == TriangleLeft ==> Classify(RotateParentRight(z)) == LineRight
    ensures z.focus.color == Red && Classify(z) == TriangleRight ==> Classify(RotateParentLeft(z)) == LineLeft
    ensures z.focus.color == Black && Classify(z) == TriangleLeft ==> Classify(RotateParentRight(z)) == BlackParent
    ensures z.focus.color == Black && Classify(z) == TriangleRight ==> Classify(RotateParentLeft(z)) == BlackParent
  {
  }

  /** With the correction, the step after a flat-line rotation stops at line 91. */
  lemma LineEndsWalk(z: Zipper)
    requires Classify(z) == LineLeft || Classify(z) == LineRight
    ensures Classify(z) == LineLeft ==> Classify(RotateGrandparentRight(z)) == BlackParent
    ensures Classify(z) == LineRight ==> Classify(RotateGrandparentLeft(z)) == BlackParent
  {
  }

  /**
    As written, the flat-line case resumes at the parent, now BLACK and in
    the grandparent's old slot. When the node above that slot is RED the
    resumed walk does not stop at line 91. When that RED node has a parent
    of its own the walk also passes line 94 and takes another case step:
    it recolours or rotates around a BLACK node.
   */
  lemma LineAsWrittenGoesOn(z: Zipper)
    requires Classify(z) == LineLeft || Classify(z) == LineRight
    requires !z.ctx.up.up.Top? && z.ctx.up.up.color == Red
    ensures Classify(z) == LineLeft ==> Classify(Up(RotateGrandparentRight(z))) !in {NoNode, NoParent, BlackParent}
    ensures Classify(z) == LineRight ==> Classify(Up(RotateGrandparentLeft(z))) !in {NoNode, NoParent, BlackParent}
    ensures Classify(z) == LineLeft && !z.ctx.up.up.up.Top? ==>
      var w := Up(RotateGrandparentRight(z));
      ColorOf(w.focus) == Black && Classify(w) in {RedUncle, TriangleLeft, TriangleRight, LineLeft, LineRight}
    ensures Classify(z) == LineRight && !z.ctx.up.up.up.Top? ==>
      var w := Up(RotateGrandparentLeft(z));
      ColorOf(w.focus) == Black && Classify(w) in {RedUncle, TriangleLeft, TriangleRight, LineLeft, LineRight}
  {
  }

  lemma RedUncleKeepsEntry(z: Zipper)
    requires Entry(z) && Classify(z) == RedUncle
    ensures Entry(RecolorRedUncle(z))
  {
    var n, p := z.focus, z.ctx;
    var g, h := p.up, BlackHeight(n);
    var u := g.sibling;
    assert CtxRedOk(p, Black) && CtxBalanced(p, h);
    assert CtxRedOk(g, Red) && CtxBalanced(g, h);
    assert g.color == Black && CtxRedOk(g.up, Black) && RedOk(u) && RedOk(p.sibling);
    assert CtxBalanced(g.up, h + 1) && BlackHeight(u) == h && BlackHeight(p.sibling) == h;
    var p' := p.(color := Black, up := g.(color := Red, sibling := Paint(u, Black)));
    var P := Attach(p', n);
    assert RedOk(P) && Balanced(P) && BlackHeight(P) == h + 1;
    var U := Paint(u, Black);
    assert RedOk(U) && Balanced(U) && BlackHeight(U) == h + 1;
    var G := Attach(p'.up, P);
    assert RedOk(G) && Balanced(G) && BlackHeight(G) == h + 1;
    assert RecolorRedUncle(z) == Zipper(G, g.up);
  }

  lemma TriangleKeepsEntry(z: Zipper)
    requires Entry(z) && (Classify(z) == TriangleLeft || Classify(z) == TriangleRight)
    ensures Classify(z) == TriangleLeft ==> Entry(RotateParentRight(z))
    ensures Classify(z) == TriangleRight ==> Entry(RotateParentLeft(z))
  {
  }

  lemma LineKeepsEntry(z: Zipper)
    requires Entry(z) && (Classify(z) == LineLeft || Classify(z) == LineRight)
    ensures Classify(z) == LineLeft ==> Entry(RotateGrandparentRight(z))
    ensures Classify(z) == LineRight ==> Entry(RotateGrandparentLeft(z))
  {
    var n, p := z.focus, z.ctx;
    var g, h := p.up, BlackHeight(n);
    var u, c := g.sibling, p.sibling;
    assert CtxRedOk(p, Black) && CtxBalanced(p, h);
    assert CtxRedOk(g, Red) && CtxBalanced(g, h);
    assert g.color == Black && CtxRedOk(g.up, Black) && RedOk(u) && RedOk(c);
    assert ColorOf(u) == Black && ColorOf(c) == Black;
    assert CtxBalanced(g.up, h + 1) && BlackHeight(u) == h && BlackHeight(c) == h;
    assert Balanced(u) && Balanced(c);
    if Classify(z) == LineLeft {
      var G := Node(Red, c, g.value, u);
      assert RedOk(G) && Balanced(G) && BlackHeight(G) == h;
      assert RotateGrandparentRight(z) == Zipper(n, LeftOf(Black, p.value, G, g.up));
    } else {
      var G := Node(Red, u, g.value, c);
      assert RedOk(G) && Balanced(G) && BlackHeight(G) == h;
      assert RotateGrandparentLeft(z) == Zipper(n, RightOf(Black, G, p.value, g.up));
    }
  }

  /** Entered in the state above, the corrected walk leaves only a possibly RED root to fix. */
  lemma {:induction false} RepairRestores(z: Zipper)
    requires Entry(z)
    ensures RedBelowRootOk(Repair(z))
    decreases Depth(z.ctx), TriangleRank(z)
  {
    match Classify(z)
    case NoNode | Fallback =>
    case NoParent =>
    case BlackParent =>
      PlugBalanced(z.focus, z.ctx);
      PlugRedOk(z.focus, z.ctx);
    case NoGrandparent =>
      assert Repair(z) == Plug(z) == PlugInto(Attach(z.ctx, z.focus), Top);
    case RedUncle =>
      RedUncleKeepsEntry(z);
      RepairRestores(RecolorRedUncle(z));
    case TriangleLeft =>
      TriangleKeepsEntry(z);
      RepairRestores(RotateParentRight(z));
    case TriangleRight =>
      TriangleKeepsEntry(z);
      RepairRestores(RotateParentLeft(z));
    case LineLeft =>
      LineKeepsEntry(z);
      RepairRestores(RotateGrandparentRight(z));
    case LineRight =>
      LineKeepsEntry(z);
      RepairRestores(RotateGrandparentLeft(z));
  }

}
