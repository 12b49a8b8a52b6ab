/**
  Coloured binary trees of `int` values (the source's `Node<V>` with `V`
  reduced to `int`, `compareTo` reduced to `<`), and the red-black
  invariants. The class comment of RedBlackTree.java:6-15 lists two
  colours, a BLACK root, black null leaves, equal black counts on all
  paths and the height bound; binary-search order and the rule that no RED
  node has a RED child are not listed there, but the descent relies on the
  first and the height bound needs the second. A missing child is `Nil`,
  which counts as a black leaf.
 */
module Trees {

  /** RedBlackTreeColor. */
  datatype Color = Red | Black

  datatype Tree = Nil | Node(color: Color, left: Tree, value: int, right: Tree)

  /** The colour of a subtree's root, a missing node being black. */
  function ColorOf(t: Tree): Color {
    if t.Nil? then Black else t.color
  }

  /** Sets the colour of a present node; a missing node stays missing. */
  function Paint(t: Tree, c: Color): (r: Tree)
    ensures Inorder(r) == Inorder(t)
    ensures t.Node? ==> ColorOf(r) == c
  {
    if t.Nil? then Nil else t.(color := c)
  }

  /** The in-order value sequence. */
  function Inorder(t: Tree): seq<int> {
    match t
    case Nil => []
    case Node(_, l, x, r) => Inorder(l) + [x] + Inorder(r)
  }

  /** The set of stored values. */
  function Elems(t: Tree): set<int> {
    match t
    case Nil => {}
    case Node(_, l, x, r) => Elems(l) + {x} + Elems(r)
  }

  /** The number of nodes. */
  function Count(t: Tree): nat {
    |Inorder(t)|
  }

  /** The number of nodes on a longest root-to-leaf path. */
  function Height(t: Tree): nat {
    match t
    case Nil => 0
    case Node(_, l, _, r) => 1 + (if Height(l) < Height(r) then Height(r) else Height(l))
  }

  /** Binary-search-tree order: everything left of a node is smaller, everything right is larger. */
  predicate Ordered(t: Tree) {
    match t
    case Nil => true
    case Node(_, l, x, r) =>
      && Ordered(l) && Ordered(r)
      && (forall y :: y in Elems(l) ==> y < x)
      && (forall y :: y in Elems(r) ==> x < y)
  }

  predicate Increasing(s: seq<int>) {
    forall i, j :: 0 <= i < j < |s| ==> s[i] < s[j]
  }

  /** No RED node has a RED child: the textbook rule, not stated in the class comment. */
  predicate RedOk(t: Tree) {
    match t
    case Nil => true
    case Node(c, l, _, r) =>
      && RedOk(l) && RedOk(r)
      && (c == Red ==> ColorOf(l) == Black && ColorOf(r) == Black)
  }

  function Weight(c: Color): nat {
    if c == Black then 1 else 0
  }

  /** The number of BLACK nodes on the leftmost root-to-nil path. */
  function BlackHeight(t: Tree): nat {
    match t
    case Nil => 0
    case Node(c, l, _, _) => BlackHeight(l) + Weight(c)
  }

  /** Left and right subtrees of every node have the same black height. */
  predicate Balanced(t: Tree) {
    match t
    case Nil => true
    case Node(_, l, _, r) => Balanced(l) && Balanced(r) && BlackHeight(l) == BlackHeight(r)
  }

  /** The black counts of all root-to-nil paths, the class comment's own wording of invariant 4. */
  function PathBlackCounts(t: Tree): set<nat> {
    match t
    case Nil => {0}
    case Node(c, l, _, r) => set n | n in PathBlackCounts(l) + PathBlackCounts(r) :: n + Weight(c)
  }

  /**
    A red-black tree: the class comment's BLACK root and equal black counts,
    plus binary-search order and the no-red-red rule.
   */
  predicate IsRedBlack(t: Tree) {
    Ordered(t) && RedOk(t) && Balanced(t) && ColorOf(t) == Black
  }

  function Pow2(n: nat): nat {
    if n == 0 then 1 else 2 * Pow2(n - 1)
  }

  lemma {:induction false} ElemsAreInorder(t: Tree)
    ensures forall y :: y in Elems(t) <==> y in Inorder(t)
  {
    match t
    case Nil =>
    case Node(_, l, x, r) =>
      ElemsAreInorder(l);
      ElemsAreInorder(r);
  }

  /** A strictly increasing sequence split around `x`: both parts increase, and `x` lies between them. */
  lemma IncreasingSplit(a: seq<int>, x: int, b: seq<int>)
    ensures Increasing(a + [x] + b) <==>
              && Increasing(a) && Increasing(b)
              && (forall y :: y in a ==> y < x)
              && (forall y :: y in b ==> x < y)
  {
    if Increasing(a + [x] + b) {
      IncreasingParts(a, x, b);
    }
    if && Increasing(a) && Increasing(b)
       && (forall y :: y in a ==> y < x)
       && (forall y :: y in b ==> x < y)
    {
      IncreasingJoin(a, x, b);
    }
  }

  lemma IncreasingParts(a: seq<int>, x: int, b: seq<int>)
    requires Increasing(a + [x] + b)
    ensures Increasing(a) && Increasing(b)
    ensures forall y :: y in a ==> y < x
    ensures forall y :: y in b ==> x < y
  {
    var s := a + [x] + b;
    assert s[|a|] == x;
    forall y | y in a ensures y < x {
      var i :| 0 <= i < |a| && a[i] == y;
      assert s[i] == y;
      assert s[i] < s[|a|];
    }
    forall y | y in b ensures x < y {
      var i :| 0 <= i < |b| && b[i] == y;
      assert s[|a| + 1 + i] == y;
      assert s[|a|] < s[|a| + 1 + i];
    }
    forall i, j | 0 <= i < j < |a| ensures a[i] < a[j] {
      assert s[i] == a[i] && s[j] == a[j];
    }
    forall i, j | 0 <= i < j < |b| ensures b[i] < b[j] {
      assert s[|a| + 1 + i] == b[i] && s[|a| + 1 + j] == b[j];
      assert s[|a| + 1 + i] < s[|a| + 1 + j];
    }
  }

  lemma IncreasingJoin(a: seq<int>, x: int, b: seq<int>)
    requires Increasing(a) && Increasing(b)
    requires forall y :: y in a ==> y < x
    requires forall y :: y in b ==> x < y
    ensures Increasing(a + [x] + b)
  {
    var s := a + [x] + b;
    forall i, j | 0 <= i < j < |s| ensures s[i] < s[j] {
      if j < |a| {
        assert s[i] == a[i] && s[j] == a[j];
      } else if j == |a| {
        assert s[i] == a[i] && a[i] in a && s[j] == x;
      } else if i < |a| {
        assert s[i] == a[i] && a[i] in a && s[j] == b[j - |a| - 1] && b[j - |a| - 1] in b;
      } else if i == |a| {
        assert s[i] == x && s[j] == b[j - |a| - 1] && b[j - |a| - 1] in b;
      } else {
        assert s[i] == b[i - |a| - 1] && s[j] == b[j - |a| - 1];
      }
    }
  }

  /** The bounds definition of order agrees with a strictly increasing in-order sequence. */
  lemma {:induction false} OrderedIffIncreasing(t: Tree)
    ensures Ordered(t) <==> Increasing(Inorder(t))
  {
    match t
    case Nil =>
    case Node(_, l, x, r) =>
      OrderedIffIncreasing(l);
      OrderedIffIncreasing(r);
      ElemsAreInorder(l);
      ElemsAreInorder(r);
      IncreasingSplit(Inorder(l), x, Inorder(r));
  }

  /** Trees with the same in-order sequence store the same values and are ordered alike. */
  lemma SameInorderSameContents(a: Tree, b: Tree)
    requires Inorder(a) == Inorder(b)
    ensures Elems(a) == Elems(b)
    ensures Count(a) == Count(b)
    ensures Ordered(a) <==> Ordered(b)
  {
    ElemsAreInorder(a);
    ElemsAreInorder(b);
    forall y | y in Elems(a) ensures y in Elems(b) {
      assert y in Inorder(a);
    }
    forall y | y in Elems(b) ensures y in Elems(a) {
      assert y in Inorder(b);
    }
    OrderedIffIncreasing(a);
    OrderedIffIncreasing(b);
  }

  lemma {:induction false} PathBlackCountsNonEmpty(t: Tree)
    ensures BlackHeight(t) in PathBlackCounts(t)
  {
    match t
    case Nil =>
    case Node(c, l, _, r) =>
      PathBlackCountsNonEmpty(l);
  }

  /** `Balanced` says what the class comment says: every root-to-nil path carries the same number of BLACK nodes. */
  lemma {:induction false} BalancedIffUniformPaths(t: Tree)
    ensures Balanced(t) <==> PathBlackCounts(t) == {BlackHeight(t)}
  {
    match t
    case Nil =>
    case Node(c, l, x, r) =>
      BalancedIffUniformPaths(l);
      BalancedIffUniformPaths(r);
      PathBlackCountsNonEmpty(l);
      PathBlackCountsNonEmpty(r);
      if Balanced(t) {
        UniformFromChildren(c, l, x, r);
      }
      if PathBlackCounts(t) == {BlackHeight(t)} {
        ChildrenFromUniform(c, l, x, r);
      }
  }

  lemma UniformFromChildren(c: Color, l: Tree, x: int, r: Tree)
    requires PathBlackCounts(l) == {BlackHeight(l)} && PathBlackCounts(r) == {BlackHeight(r)}
    requires BlackHeight(l) == BlackHeight(r)
    ensures PathBlackCounts(Node(c, l, x, r)) == {BlackHeight(l) + Weight(c)}
  {
    var s := PathBlackCounts(Node(c, l, x, r));
    assert PathBlackCounts(l) + PathBlackCounts(r) == {BlackHeight(l)};
    assert BlackHeight(l) + Weight(c) in s;
  }

  lemma ChildrenFromUniform(c: Color, l: Tree, x: int, r: Tree)
    requires BlackHeight(l) in PathBlackCounts(l) && BlackHeight(r) in PathBlackCounts(r)
    requires PathBlackCounts(Node(c, l, x, r)) == {BlackHeight(l) + Weight(c)}
    ensures PathBlackCounts(l) == {BlackHeight(l)} && PathBlackCounts(r) == {BlackHeight(r)}
    ensures BlackHeight(l) == BlackHeight(r)
  {
    var w := Weight(c);
    var both := PathBlackCounts(l) + PathBlackCounts(r);
    assert PathBlackCounts(Node(c, l, x, r)) == set n | n in both :: n + w;
    forall n | n in both ensures n == BlackHeight(l) {
      assert n + w in PathBlackCounts(Node(c, l, x, r));
    }
    assert BlackHeight(r) in both;
  }

  lemma {:induction false} Pow2Add(a: nat, b: nat)
    ensures Pow2(a + b) == Pow2(a) * Pow2(b)
  {
    if a > 0 {
      Pow2Add(a - 1, b);
      assert Pow2(a + b) == 2 * Pow2(a - 1 + b);
      assert 2 * (Pow2(a - 1) * Pow2(b)) == (2 * Pow2(a - 1)) * Pow2(b);
    }
  }

  lemma {:induction false} Pow2Monotone(a: nat, b: nat)
    requires a <= b
    ensures Pow2(a) <= Pow2(b)
  {
    if a < b {
      Pow2Monotone(a, b - 1);
    }
  }

  /** A tree with equal black counts holds at least 2^bh - 1 nodes. */
  lemma {:induction false} CountLowerBound(t: Tree)
    requires Balanced(t)
    ensures Pow2(BlackHeight(t)) <= Count(t) + 1
  {
    match t
    case Nil =>
    case Node(c, l, _, r) =>
      CountLowerBound(l);
      CountLowerBound(r);
  }

  /** Without two reds in a row, a path is at most twice its black count (one more under a red root). */
  lemma {:induction false} HeightUpperBound(t: Tree)
    requires RedOk(t) && Balanced(t)
    ensures Height(t) <= 2 * BlackHeight(t) + (if ColorOf(t) == Red then 1 else 0)
  {
    match t
    case Nil =>
    case Node(c, l, _, r) =>
      HeightUpperBound(l);
      HeightUpperBound(r);
  }

  lemma SquareMonotone(p: nat, n: nat)
    requires p <= n
    ensures p * p <= n * n
  {
    assert p * p <= p * n;
  }

  /** The class comment's height bound, height <= 2 * log2(n + 1), stated without logarithms. */
  lemma HeightBound(t: Tree)
    requires RedOk(t) && Balanced(t) && ColorOf(t) == Black
    ensures Pow2(Height(t)) <= (Count(t) + 1) * (Count(t) + 1)
  {
    var b := BlackHeight(t);
    HeightUpperBound(t);
    CountLowerBound(t);
    Pow2Monotone(Height(t), b + b);
    Pow2Add(b, b);
    SquareMonotone(Pow2(b), Count(t) + 1);
  }

}
