/**
  The rotation primitives rotateRight and rotateLeft (RedBlackTree.java:22-72).
  The source rewires the links of the rotated node, its promoted child, the
  "crossing" grandchild and the parent's child slot (or the root field). On
  immutable trees the same effect is a rewrite of the subtree rooted at the
  rotated node, and hanging the result back in the same context is what puts
  the promoted child into the rotated node's slot.
 */
module Rotations {
  import opened Trees
  import opened Zippers

  /**
    rotateRight: the left child is promoted, the rotated node becomes its
    right child and takes the left child's old right subtree (the crossing
    grandchild) as its new left subtree. Colours stay with their nodes. With
    no left child the source stores null into the node's slot, so the node
    and its right subtree are cut off; the in-order sequence survives exactly
    when the left child is present.
   */
  function RotateRight(t: Tree): (r: Tree)
    requires t.Node?
    ensures Inorder(r) == Inorder(t) <==> t.left.Node?
    ensures t.left.Nil? ==> r == Nil
    ensures t.left.Node? ==>
              && r.Node? && r.value == t.left.value && r.color == t.left.color && r.left == t.left.left
              && r.right.Node? && r.right.value == t.value && r.right.color == t.color
              && r.right.left == t.left.right && r.right.right == t.right
  {
    match t.left
    case Nil => Nil
    case Node(lc, a, x, b) => Node(lc, a, x, Node(t.color, b, t.value, t.right))
  }

  /** rotateLeft, the mirror image of `RotateRight`. */
  function RotateLeft(t: Tree): (r: Tree)
    requires t.Node?
    ensures Inorder(r) == Inorder(t) <==> t.right.Node?
    ensures t.right.Nil? ==> r == Nil
    ensures t.right.Node? ==>
              && r.Node? && r.value == t.right.value && r.color == t.right.color && r.right == t.right.right
              && r.left.Node? && r.left.value == t.value && r.left.color == t.color
              && r.left.right == t.right.left && r.left.left == t.left
  {
    match t.right
    case Nil => Nil
    case Node(rc, b, x, c) => Node(rc, Node(t.color, t.left, t.value, b), x, c)
  }

  /** A left rotation undoes a right rotation that had a child to promote. */
  lemma RotateLeftUndoesRotateRight(t: Tree)
    requires t.Node? && t.left.Node?
    ensures RotateRight(t).Node? && RotateLeft(RotateRight(t)) == t
  {
  }

  /** A right rotation undoes a left rotation that had a child to promote. */
  lemma RotateRightUndoesRotateLeft(t: Tree)
    requires t.Node? && t.right.Node?
    ensures RotateLeft(t).Node? && RotateRight(RotateLeft(t)) == t
  {
  }

  /**
    rotateRight in place: the result occupies the rotated node's slot in the
    same context, and is the new root when the rotated node was the root
    (lines 39-41).
   */
  function RotateRightAt(z: Zipper): (r: Zipper)
    requires z.focus.Node?
    ensures r.ctx == z.ctx && r.focus == RotateRight(z.focus)
    ensures z.ctx.Top? ==> Plug(r) == RotateRight(z.focus)
    ensures z.focus.left.Node? ==> Inorder(Plug(r)) == Inorder(Plug(z))
  {
    var r := Zipper(RotateRight(z.focus), z.ctx);
    if z.focus.left.Node? then PlugKeepsInorder(r.focus, z.focus, z.ctx); r else r
  }

  /** rotateLeft in place (lines 64-66). */
  function RotateLeftAt(z: Zipper): (r: Zipper)
    requires z.focus.Node?
    ensures r.ctx == z.ctx && r.focus == RotateLeft(z.focus)
    ensures z.ctx.Top? ==> Plug(r) == RotateLeft(z.focus)
    ensures z.focus.right.Node? ==> Inorder(Plug(r)) == Inorder(Plug(z))
  {
    var r := Zipper(RotateLeft(z.focus), z.ctx);
    if z.focus.right.Node? then PlugKeepsInorder(r.focus, z.focus, z.ctx); r else r
  }

}
