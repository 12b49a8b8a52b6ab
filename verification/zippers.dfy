/**
  The zipper that stands in for the source's parent back-links
  (`Node.parent`, RedBlackTree.java:246). A `Zipper` is a subtree in focus
  together with its `Context`: for each ancestor, from the parent up to the
  root, the ancestor's colour and value, the subtree on the other side and
  which side the focus hangs from. Because every ancestor records exactly one
  side, "p.left == n or p.right == n, never both, never neither" holds by
  construction.
 */
module Zippers {
  import opened Trees

  datatype Context =
    | Top
      /** The hole is the left child of this ancestor; `sibling` is its right subtree. */
    | LeftOf(color: Color, value: int, sibling: Tree, up: Context)
      /** The hole is the right child of this ancestor; `sibling` is its left subtree. */
    | RightOf(color: Color, sibling: Tree, value: int, up: Context)

  datatype Zipper = Zipper(focus: Tree, ctx: Context)

  /** The ancestor node of the innermost frame, with `s` hung in the hole. */
  function Attach(ctx: Context, s: Tree): (r: Tree)
    requires !ctx.Top?
    ensures r.Node? && r.color == ctx.color && r.value == ctx.value
    ensures ctx.LeftOf? ==> r.left == s && r.right == ctx.sibling
    ensures ctx.RightOf? ==> r.left == ctx.sibling && r.right == s
  {
    match ctx
    case LeftOf(c, x, sib, _) => Node(c, s, x, sib)
    case RightOf(c, sib, x, _) => Node(c, sib, x, s)
  }

  /** The whole tree: `s` hung in the hole of `ctx`, rebuilt up to the root. */
  function PlugInto(s: Tree, ctx: Context): (r: Tree)
    ensures s.Node? || !ctx.Top? ==> r.Node?
    decreases ctx
  {
    if ctx.Top? then s else PlugInto(Attach(ctx, s), ctx.up)
  }

  function Plug(z: Zipper): Tree {
    PlugInto(z.focus, z.ctx)
  }

  /** The number of ancestors. */
  function Depth(ctx: Context): nat {
    if ctx.Top? then 0 else 1 + Depth(ctx.up)
  }

  /** Moves the focus to the parent (`node.getParent()`). */
  function Up(z: Zipper): (r: Zipper)
    requires !z.ctx.Top?
    ensures Plug(r) == Plug(z)
    ensures Depth(r.ctx) + 1 == Depth(z.ctx)
    ensures r.focus.Node?
  {
    Zipper(Attach(z.ctx, z.focus), z.ctx.up)
  }

  /** Moves the focus to the left child. */
  function DownLeft(z: Zipper): (r: Zipper)
    requires z.focus.Node?
    ensures !r.ctx.Top? && Up(r) == z
  {
    Zipper(z.focus.left, LeftOf(z.focus.color, z.focus.value, z.focus.right, z.ctx))
  }

  /** Moves the focus to the right child. */
  function DownRight(z: Zipper): (r: Zipper)
    requires z.focus.Node?
    ensures !r.ctx.Top? && Up(r) == z
  {
    Zipper(z.focus.right, RightOf(z.focus.color, z.focus.left, z.focus.value, z.ctx))
  }

  /** Every sibling subtree in `ctx` is balanced, and a hole of black height `h` makes the whole tree balanced. */
  predicate CtxBalanced(ctx: Context, h: nat)
    decreases ctx
  {
    ctx.Top? ||
    (&& Balanced(ctx.sibling) && BlackHeight(ctx.sibling) == h
     && CtxBalanced(ctx.up, h + Weight(ctx.color)))
  }

  /** No red-red edge in `ctx` once a subtree with root colour `hole` fills the hole. */
  predicate CtxRedOk(ctx: Context, hole: Color)
    decreases ctx
  {
    ctx.Top? ||
    (&& RedOk(ctx.sibling)
     && (ctx.color == Red ==> ColorOf(ctx.sibling) == Black && hole == Black)
     && CtxRedOk(ctx.up, ctx.color))
  }

  /** Replacing the focus by a subtree with the same in-order sequence keeps the whole tree's. */
  lemma {:induction false} PlugKeepsInorder(s: Tree, s': Tree, ctx: Context)
    requires Inorder(s) == Inorder(s')
    ensures Inorder(PlugInto(s, ctx)) == Inorder(PlugInto(s', ctx))
    decreases ctx
  {
    if !ctx.Top? {
      PlugKeepsInorder(Attach(ctx, s), Attach(ctx, s'), ctx.up);
    }
  }

  lemma {:induction false} PlugBalanced(s: Tree, ctx: Context)
    ensures Balanced(PlugInto(s, ctx)) <==> Balanced(s) && CtxBalanced(ctx, BlackHeight(s))
    decreases ctx
  {
    if !ctx.Top? {
      PlugBalanced(Attach(ctx, s), ctx.up);
    }
  }

  lemma {:induction false} PlugRedOk(s: Tree, ctx: Context)
    ensures RedOk(PlugInto(s, ctx)) <==> RedOk(s) && CtxRedOk(ctx, ColorOf(s))
    decreases ctx
  {
    if !ctx.Top? {
      PlugRedOk(Attach(ctx, s), ctx.up);
    }
  }

}
