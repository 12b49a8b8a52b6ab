/**
  The insertion sequences of the demo builders in RedBlackTree.java
  (lines 268-538), evaluated step by step on the model, and the sequence
  that shows the flat-line case resuming one level too high. Each put is
  traced through the descent, the branch `Classify` picks at every step of
  the walk, and the zipper each step leaves. For the demo sequences every
  lemma states the corrected walk and the walk as written side by side: they
  reach the same trees. A `...Walk` lemma is the repair walk from one new
  node; a `...Part` lemma is a few consecutive puts; a lemma shared by
  several sequences says so. `B`, `R`, `BL` and `RL` abbreviate black and
  red nodes, with and without children.
 */
module Scenarios {
  import opened Options
  import opened Trees
  import opened Zippers
  import opened Rebalance
  import opened Search
  import opened RedBlackTrees

  function B(l: Tree, x: int, r: Tree): Tree {
    Node(Black, l, x, r)
  }

  function R(l: Tree, x: int, r: Tree): Tree {
    Node(Red, l, x, r)
  }

  function BL(x: int): Tree {
    Node(Black, Nil, x, Nil)
  }

  function RL(x: int): Tree {
    Node(Red, Nil, x, Nil)
  }

  /** Puts 15, 9, 25 into the empty tree, for `FirstTest`. */
  lemma FirstTestPart1()
    ensures PutAll(Empty(), [15, 9, 25]) == RedBlackTree(B(RL(9), 15, RL(25)), 3)
    ensures PutAllAsWritten(Empty(), [15, 9, 25]) == RedBlackTree(B(RL(9), 15, RL(25)), 3)
  {
    var t0 := RedBlackTree(Nil, 0);
    assert PutHelper(t0.root, 15) == Some(Zipper(RL(15), Top));
    var t1 := RedBlackTree(BL(15), 1);
    assert Put(t0, 15) == t1;
    assert PutAsWritten(t0, 15) == t1;
    assert PutHelper(t1.root, 9) == Some(Zipper(RL(9), LeftOf(Black, 15, Nil, Top)));
    var t2 := RedBlackTree(B(RL(9), 15, Nil), 2);
    assert Put(t1, 9) == t2;
    assert PutAsWritten(t1, 9) == t2;
    assert PutHelper(t2.root, 25) == Some(Zipper(RL(25), RightOf(Black, RL(9), 15, Top)));
    var t3 := RedBlackTree(B(RL(9), 15, RL(25)), 3);
    assert Put(t2, 25) == t3;
    assert PutAsWritten(t2, 25) == t3;
    assert PutAll(t0, [15, 9, 25])
        == PutAll(t1, [9, 25])
        == PutAll(t2, [25])
        == PutAll(t3, []);
    assert PutAllAsWritten(t0, [15, 9, 25])
        == PutAllAsWritten(t1, [9, 25])
        == PutAllAsWritten(t2, [25])
        == PutAllAsWritten(t3, []);
  }

  /** The repair walk from the new node 30, for `FirstTest`. */
  lemma FirstTestWalk1()
    ensures Repair(Zipper(RL(30), RightOf(Red, Nil, 25, RightOf(Black, RL(9), 15, Top))))
            == R(BL(9), 15, B(Nil, 25, RL(30)))
    ensures RepairAsWritten(Zipper(RL(30), RightOf(Red, Nil, 25, RightOf(Black, RL(9), 15, Top))))
            == R(BL(9), 15, B(Nil, 25, RL(30)))
  {
    var z0 := Zipper(RL(30), RightOf(Red, Nil, 25, RightOf(Black, RL(9), 15, Top)));
    var z1 := Zipper(R(BL(9), 15, B(Nil, 25, RL(30))), Top);
    assert Classify(z0) == RedUncle;
    assert RecolorRedUncle(z0) == z1;
    assert Classify(z1) == NoParent;
    assert Repair(z0) == Repair(z1) == Plug(z1);
    assert RepairAsWritten(z0) == RepairAsWritten(z1) == Plug(z1);
  }

  /** Puts 30, for `FirstTest`. */
  lemma FirstTestPart2()
    ensures Put(RedBlackTree(B(RL(9), 15, RL(25)), 3), 30)
            == RedBlackTree(B(BL(9), 15, B(Nil, 25, RL(30))), 4)
    ensures PutAsWritten(RedBlackTree(B(RL(9), 15, RL(25)), 3), 30)
            == RedBlackTree(B(BL(9), 15, B(Nil, 25, RL(30))), 4)
  {
    var t0 := RedBlackTree(B(RL(9), 15, RL(25)), 3);
    assert PutHelper(t0.root, 30)
           == Some(Zipper(RL(30), RightOf(Red, Nil, 25, RightOf(Black, RL(9), 15, Top))));
    FirstTestWalk1();
    var t1 := RedBlackTree(B(BL(9), 15, B(Nil, 25, RL(30))), 4);
    assert Put(t0, 30) == t1;
    assert PutAsWritten(t0, 30) == t1;
  }

  /**
    firstTest (lines 271-289): the uncle of 30 is RED, so the walk only recolours. Both walks agree.
   */
  lemma FirstTest()
    ensures PutAll(Empty(), [15, 9, 25] + [30]) == RedBlackTree(B(BL(9), 15, B(Nil, 25, RL(30))), 4)
    ensures PutAllAsWritten(Empty(), [15, 9, 25] + [30])
            == RedBlackTree(B(BL(9), 15, B(Nil, 25, RL(30))), 4)
  {
    FirstTestPart1();
    FirstTestPart2();
    PutAllAppend(Empty(), [15, 9, 25], [30]);
    PutAllAsWrittenAppend(Empty(), [15, 9, 25], [30]);
  }

  /** The repair walk from the new node 1, for `SecondTest`. */
  lemma SecondTestWalk1()
    ensures Repair(Zipper(RL(1), LeftOf(Red, 5, Nil, LeftOf(Black, 15, Nil, Top))))
            == B(RL(1), 5, RL(15))
    ensures RepairAsWritten(Zipper(RL(1), LeftOf(Red, 5, Nil, LeftOf(Black, 15, Nil, Top))))
            == B(RL(1), 5, RL(15))
  {
    var z0 := Zipper(RL(1), LeftOf(Red, 5, Nil, LeftOf(Black, 15, Nil, Top)));
    var z1 := Zipper(RL(1), LeftOf(Black, 5, RL(15), Top));
    assert Classify(z0) == LineLeft;
    assert RotateGrandparentRight(z0) == z1;
    assert Classify(z1) == BlackParent;
    assert Repair(z0) == Repair(z1) == Plug(z1);
    var z2 := Zipper(B(RL(1), 5, RL(15)), Top);
    assert Up(RotateGrandparentRight(z0)) == z2;
    assert Classify(z2) == NoParent;
    assert RepairAsWritten(z0) == RepairAsWritten(z2) == Plug(z2);
  }

  /**
    secondTest (lines 291-308): 1, 5 and 15 form a left flat line, fixed by one rotation at the
    grandparent. Both walks agree.
   */
  lemma SecondTest()
    ensures PutAll(Empty(), [15, 5, 1]) == RedBlackTree(B(RL(1), 5, RL(15)), 3)
    ensures PutAllAsWritten(Empty(), [15, 5, 1]) == RedBlackTree(B(RL(1), 5, RL(15)), 3)
  {
    var t0 := RedBlackTree(Nil, 0);
    assert PutHelper(t0.root, 15) == Some(Zipper(RL(15), Top));
    var t1 := RedBlackTree(BL(15), 1);
    assert Put(t0, 15) == t1;
    assert PutAsWritten(t0, 15) == t1;
    assert PutHelper(t1.root, 5) == Some(Zipper(RL(5), LeftOf(Black, 15, Nil, Top)));
    var t2 := RedBlackTree(B(RL(5), 15, Nil), 2);
    assert Put(t1, 5) == t2;
    assert PutAsWritten(t1, 5) == t2;
    assert PutHelper(t2.root, 1)
           == Some(Zipper(RL(1), LeftOf(Red, 5, Nil, LeftOf(Black, 15, Nil, Top))));
    SecondTestWalk1();
    var t3 := RedBlackTree(B(RL(1), 5, RL(15)), 3);
    assert Put(t2, 1) == t3;
    assert PutAsWritten(t2, 1) == t3;
    assert PutAll(t0, [15, 5, 1])
        == PutAll(t1, [5, 1])
        == PutAll(t2, [1])
        == PutAll(t3, []);
    assert PutAllAsWritten(t0, [15, 5, 1])
        == PutAllAsWritten(t1, [5, 1])
        == PutAllAsWritten(t2, [1])
        == PutAllAsWritten(t3, []);
  }

  /** The repair walk from the new node 10, for `TriangleInsert`. */
  lemma TriangleInsertWalk1()
    ensures Repair(Zipper(RL(10), RightOf(Red, Nil, 5, LeftOf(Black, 15, Nil, Top))))
            == B(RL(5), 10, RL(15))
    ensures RepairAsWritten(Zipper(RL(10), RightOf(Red, Nil, 5, LeftOf(Black, 15, Nil, Top))))
            == B(RL(5), 10, RL(15))
  {
    var z0 := Zipper(RL(10), RightOf(Red, Nil, 5, LeftOf(Black, 15, Nil, Top)));
    var z1 := Zipper(RL(5), LeftOf(Red, 10, Nil, LeftOf(Black, 15, Nil, Top)));
    var z2 := Zipper(RL(5), LeftOf(Black, 10, RL(15), Top));
    assert Classify(z0) == TriangleRight;
    assert RotateParentLeft(z0) == z1;
    assert Classify(z1) == LineLeft;
    assert RotateGrandparentRight(z1) == z2;
    assert Classify(z2) == BlackParent;
    assert Repair(z0) == Repair(z1) == Repair(z2) == Plug(z2);
    var z3 := Zipper(B(RL(5), 10, RL(15)), Top);
    assert Up(RotateGrandparentRight(z1)) == z3;
    assert Classify(z3) == NoParent;
    assert RepairAsWritten(z0) == RepairAsWritten(z1) == RepairAsWritten(z3) == Plug(z3);
  }

  /**
    10 is the inner grandchild of 15: the parent is rotated first, then the flat-line case finishes.
    Both walks agree.
   */
  lemma TriangleInsert()
    ensures PutAll(Empty(), [15, 5, 10]) == RedBlackTree(B(RL(5), 10, RL(15)), 3)
    ensures PutAllAsWritten(Empty(), [15, 5, 10]) == RedBlackTree(B(RL(5), 10, RL(15)), 3)
  {
    var t0 := RedBlackTree(Nil, 0);
    assert PutHelper(t0.root, 15) == Some(Zipper(RL(15), Top));
    var t1 := RedBlackTree(BL(15), 1);
    assert Put(t0, 15) == t1;
    assert PutAsWritten(t0, 15) == t1;
    assert PutHelper(t1.root, 5) == Some(Zipper(RL(5), LeftOf(Black, 15, Nil, Top)));
    var t2 := RedBlackTree(B(RL(5), 15, Nil), 2);
    assert Put(t1, 5) == t2;
    assert PutAsWritten(t1, 5) == t2;
    assert PutHelper(t2.root, 10)
           == Some(Zipper(RL(10), RightOf(Red, Nil, 5, LeftOf(Black, 15, Nil, Top))));
    TriangleInsertWalk1();
    var t3 := RedBlackTree(B(RL(5), 10, RL(15)), 3);
    assert Put(t2, 10) == t3;
    assert PutAsWritten(t2, 10) == t3;
    assert PutAll(t0, [15, 5, 10])
        == PutAll(t1, [5, 10])
        == PutAll(t2, [10])
        == PutAll(t3, []);
    assert PutAllAsWritten(t0, [15, 5, 10])
        == PutAllAsWritten(t1, [5, 10])
        == PutAllAsWritten(t2, [10])
        == PutAllAsWritten(t3, []);
  }

  /** The repair walk from the new node 10, for `ThirdTest`. */
  lemma ThirdTestWalk1()
    ensures Repair(
              Zipper(RL(10), RightOf(Red, Nil, 9, LeftOf(
                                                    Black, 12, RL(13),
                                                    LeftOf(
                                                      Red, 15, B(Nil, 19, RL(23)),
                                                      RightOf(Black, BL(5), 8, Top))))))
            == B(R(BL(5), 8, B(Nil, 9, RL(10))), 12, R(BL(13), 15, B(Nil, 19, RL(23))))
    ensures RepairAsWritten(
              Zipper(RL(10), RightOf(Red, Nil, 9, LeftOf(
                                                    Black, 12, RL(13),
                                                    LeftOf(
                                                      Red, 15, B(Nil, 19, RL(23)),
                                                      RightOf(Black, BL(5), 8, Top))))))
            == B(R(BL(5), 8, B(Nil, 9, RL(10))), 12, R(BL(13), 15, B(Nil, 19, RL(23))))
  {
    var z0 := Zipper(RL(10), RightOf(Red, Nil, 9, LeftOf(
                                                    Black, 12, RL(13),
                                                    LeftOf(
                                                      Red, 15, B(Nil, 19, RL(23)),
                                                      RightOf(Black, BL(5), 8, Top)))));
    var z1 := Zipper(R(B(Nil, 9, RL(10)), 12, BL(13)), LeftOf(
                                                         Red, 15, B(Nil, 19, RL(23)),
                                                         RightOf(Black, BL(5), 8, Top)));
    var z2 := Zipper(R(BL(13), 15, B(Nil, 19, RL(23))), RightOf(
                                                          Red, B(Nil, 9, RL(10)), 12,
                                                          RightOf(Black, BL(5), 8, Top)));
    var z3 := Zipper(R(BL(13), 15, B(Nil, 19, RL(23))), RightOf(
                                                          Black, R(BL(5), 8, B(Nil, 9, RL(10))), 12,
                                                          Top));
    assert Classify(z0) == RedUncle;
    assert RecolorRedUncle(z0) == z1;
    assert Classify(z1) == TriangleLeft;
    assert RotateParentRight(z1) == z2;
    assert Classify(z2) == LineRight;
    assert RotateGrandparentLeft(z2) == z3;
    assert Classify(z3) == BlackParent;
    assert Repair(z0) == Repair(z1) == Repair(z2) == Repair(z3) == Plug(z3);
    var z4 := Zipper(B(R(BL(5), 8, B(Nil, 9, RL(10))), 12, R(BL(13), 15, B(Nil, 19, RL(23)))), Top);
    assert Up(RotateGrandparentLeft(z2)) == z4;
    assert Classify(z4) == NoParent;
    assert RepairAsWritten(z0)
           == RepairAsWritten(z1)
           == RepairAsWritten(z2)
           == RepairAsWritten(z4)
           == Plug(z4);
  }

  /**
    thirdTest (lines 310-374): 10 under the hand-built tree of createThirdTree, whose size counter
    was never raised. The uncle is RED; two levels up a triangle and then a flat line follow. Both
    walks agree.
   */
  lemma ThirdTest()
    ensures PutAll(
              RedBlackTree(B(BL(5), 8, R(B(RL(9), 12, RL(13)), 15, B(Nil, 19, RL(23)))), 0), [10])
            == RedBlackTree(
                 B(R(BL(5), 8, B(Nil, 9, RL(10))), 12, R(BL(13), 15, B(Nil, 19, RL(23)))), 1)
    ensures PutAllAsWritten(
              RedBlackTree(B(BL(5), 8, R(B(RL(9), 12, RL(13)), 15, B(Nil, 19, RL(23)))), 0), [10])
            == RedBlackTree(
                 B(R(BL(5), 8, B(Nil, 9, RL(10))), 12, R(BL(13), 15, B(Nil, 19, RL(23)))), 1)
  {
    var t0 := RedBlackTree(B(BL(5), 8, R(B(RL(9), 12, RL(13)), 15, B(Nil, 19, RL(23)))), 0);
    assert PutHelper(t0.root, 10)
           == Some(
                Zipper(RL(10), RightOf(Red, Nil, 9, LeftOf(
                                                      Black, 12, RL(13),
                                                      LeftOf(
                                                        Red, 15, B(Nil, 19, RL(23)),
                                                        RightOf(Black, BL(5), 8, Top))))));
    ThirdTestWalk1();
    var t1 := RedBlackTree(
                B(R(BL(5), 8, B(Nil, 9, RL(10))), 12, R(BL(13), 15, B(Nil, 19, RL(23)))), 1);
    assert Put(t0, 10) == t1;
    assert PutAsWritten(t0, 10) == t1;
    assert PutAll(t0, [10])
        == PutAll(t1, []);
    assert PutAllAsWritten(t0, [10])
        == PutAllAsWritten(t1, []);
  }

  /** Puts 17, 9, 19 into the empty tree, for `FourthTest` and `FifthTest`. */
  lemma FourthTestPart1()
    ensures PutAll(Empty(), [17, 9, 19]) == RedBlackTree(B(RL(9), 17, RL(19)), 3)
    ensures PutAllAsWritten(Empty(), [17, 9, 19]) == RedBlackTree(B(RL(9), 17, RL(19)), 3)
  {
    var t0 := RedBlackTree(Nil, 0);
    assert PutHelper(t0.root, 17) == Some(Zipper(RL(17), Top));
    var t1 := RedBlackTree(BL(17), 1);
    assert Put(t0, 17) == t1;
    assert PutAsWritten(t0, 17) == t1;
    assert PutHelper(t1.root, 9) == Some(Zipper(RL(9), LeftOf(Black, 17, Nil, Top)));
    var t2 := RedBlackTree(B(RL(9), 17, Nil), 2);
    assert Put(t1, 9) == t2;
    assert PutAsWritten(t1, 9) == t2;
    assert PutHelper(t2.root, 19) == Some(Zipper(RL(19), RightOf(Black, RL(9), 17, Top)));
    var t3 := RedBlackTree(B(RL(9), 17, RL(19)), 3);
    assert Put(t2, 19) == t3;
    assert PutAsWritten(t2, 19) == t3;
    assert PutAll(t0, [17, 9, 19])
        == PutAll(t1, [9, 19])
        == PutAll(t2, [19])
        == PutAll(t3, []);
    assert PutAllAsWritten(t0, [17, 9, 19])
        == PutAllAsWritten(t1, [9, 19])
        == PutAllAsWritten(t2, [19])
        == PutAllAsWritten(t3, []);
  }

  /** The repair walk from the new node 18, for `FourthTest`. */
  lemma FourthTestWalk1()
    ensures Repair(Zipper(RL(18), LeftOf(Red, 19, Nil, RightOf(Black, RL(9), 17, Top))))
            == R(BL(9), 17, B(RL(18), 19, Nil))
    ensures RepairAsWritten(Zipper(RL(18), LeftOf(Red, 19, Nil, RightOf(Black, RL(9), 17, Top))))
            == R(BL(9), 17, B(RL(18), 19, Nil))
  {
    var z0 := Zipper(RL(18), LeftOf(Red, 19, Nil, RightOf(Black, RL(9), 17, Top)));
    var z1 := Zipper(R(BL(9), 17, B(RL(18), 19, Nil)), Top);
    assert Classify(z0) == RedUncle;
    assert RecolorRedUncle(z0) == z1;
    assert Classify(z1) == NoParent;
    assert Repair(z0) == Repair(z1) == Plug(z1);
    assert RepairAsWritten(z0) == RepairAsWritten(z1) == Plug(z1);
  }

  /** The repair walk from the new node 81, for `FourthTest`. */
  lemma FourthTestWalk2()
    ensures Repair(
              Zipper(RL(81), RightOf(Red, Nil, 75, RightOf(
                                                     Black, RL(18), 19,
                                                     RightOf(Black, BL(9), 17, Top)))))
            == B(BL(9), 17, R(BL(18), 19, B(Nil, 75, RL(81))))
    ensures RepairAsWritten(
              Zipper(RL(81), RightOf(Red, Nil, 75, RightOf(
                                                     Black, RL(18), 19,
                                                     RightOf(Black, BL(9), 17, Top)))))
            == B(BL(9), 17, R(BL(18), 19, B(Nil, 75, RL(81))))
  {
    var z0 := Zipper(RL(81), RightOf(Red, Nil, 75, RightOf(
                                                     Black, RL(18), 19,
                                                     RightOf(Black, BL(9), 17, Top))));
    var z1 := Zipper(R(BL(18), 19, B(Nil, 75, RL(81))), RightOf(Black, BL(9), 17, Top));
    assert Classify(z0) == RedUncle;
    assert RecolorRedUncle(z0) == z1;
    assert Classify(z1) == BlackParent;
    assert Repair(z0) == Repair(z1) == Plug(z1);
    assert RepairAsWritten(z0) == RepairAsWritten(z1) == Plug(z1);
  }

  /** Puts 18, 75, 81, for `FourthTest`. */
  lemma FourthTestPart2()
    ensures PutAll(RedBlackTree(B(RL(9), 17, RL(19)), 3), [18, 75, 81])
            == RedBlackTree(B(BL(9), 17, R(BL(18), 19, B(Nil, 75, RL(81)))), 6)
    ensures PutAllAsWritten(RedBlackTree(B(RL(9), 17, RL(19)), 3), [18, 75, 81])
            == RedBlackTree(B(BL(9), 17, R(BL(18), 19, B(Nil, 75, RL(81)))), 6)
  {
    var t0 := RedBlackTree(B(RL(9), 17, RL(19)), 3);
    assert PutHelper(t0.root, 18)
           == Some(Zipper(RL(18), LeftOf(Red, 19, Nil, RightOf(Black, RL(9), 17, Top))));
    FourthTestWalk1();
    var t1 := RedBlackTree(B(BL(9), 17, B(RL(18), 19, Nil)), 4);
    assert Put(t0, 18) == t1;
    assert PutAsWritten(t0, 18) == t1;
    assert PutHelper(t1.root, 75)
           == Some(Zipper(RL(75), RightOf(Black, RL(18), 19, RightOf(Black, BL(9), 17, Top))));
    var t2 := RedBlackTree(B(BL(9), 17, B(RL(18), 19, RL(75))), 5);
    assert Put(t1, 75) == t2;
    assert PutAsWritten(t1, 75) == t2;
    assert PutHelper(t2.root, 81)
           == Some(
                Zipper(RL(81), RightOf(Red, Nil, 75, RightOf(
                                                       Black, RL(18), 19,
                                                       RightOf(Black, BL(9), 17, Top)))));
    FourthTestWalk2();
    var t3 := RedBlackTree(B(BL(9), 17, R(BL(18), 19, B(Nil, 75, RL(81)))), 6);
    assert Put(t2, 81) == t3;
    assert PutAsWritten(t2, 81) == t3;
    assert PutAll(t0, [18, 75, 81])
        == PutAll(t1, [75, 81])
        == PutAll(t2, [81])
        == PutAll(t3, []);
    assert PutAllAsWritten(t0, [18, 75, 81])
        == PutAllAsWritten(t1, [75, 81])
        == PutAllAsWritten(t2, [81])
        == PutAllAsWritten(t3, []);
  }

  /** createFourthTest (lines 376-403). Both walks agree. */
  lemma FourthTest()
    ensures PutAll(Empty(), [17, 9, 19] + [18, 75, 81])
            == RedBlackTree(B(BL(9), 17, R(BL(18), 19, B(Nil, 75, RL(81)))), 6)
    ensures PutAllAsWritten(Empty(), [17, 9, 19] + [18, 75, 81])
            == RedBlackTree(B(BL(9), 17, R(BL(18), 19, B(Nil, 75, RL(81)))), 6)
  {
    FourthTestPart1();
    FourthTestPart2();
    PutAllAppend(Empty(), [17, 9, 19], [18, 75, 81]);
    PutAllAsWrittenAppend(Empty(), [17, 9, 19], [18, 75, 81]);
  }

  /** The repair walk from the new node 24, for `FifthTest`. */
  lemma FifthTestWalk1()
    ensures Repair(Zipper(RL(24), RightOf(Red, Nil, 19, RightOf(Black, RL(9), 17, Top))))
            == R(BL(9), 17, B(Nil, 19, RL(24)))
    ensures RepairAsWritten(Zipper(RL(24), RightOf(Red, Nil, 19, RightOf(Black, RL(9), 17, Top))))
            == R(BL(9), 17, B(Nil, 19, RL(24)))
  {
    var z0 := Zipper(RL(24), RightOf(Red, Nil, 19, RightOf(Black, RL(9), 17, Top)));
    var z1 := Zipper(R(BL(9), 17, B(Nil, 19, RL(24))), Top);
    assert Classify(z0) == RedUncle;
    assert RecolorRedUncle(z0) == z1;
    assert Classify(z1) == NoParent;
    assert Repair(z0) == Repair(z1) == Plug(z1);
    assert RepairAsWritten(z0) == RepairAsWritten(z1) == Plug(z1);
  }

  /** The repair walk from the new node 75, for `FifthTest`. */
  lemma FifthTestWalk2()
    ensures Repair(
              Zipper(RL(75), RightOf(Red, Nil, 24, RightOf(
                                                     Black, Nil, 19,
                                                     RightOf(Black, BL(9), 17, Top)))))
            == B(BL(9), 17, B(RL(19), 24, RL(75)))
    ensures RepairAsWritten(
              Zipper(RL(75), RightOf(Red, Nil, 24, RightOf(
                                                     Black, Nil, 19,
                                                     RightOf(Black, BL(9), 17, Top)))))
            == B(BL(9), 17, B(RL(19), 24, RL(75)))
  {
    var z0 := Zipper(RL(75), RightOf(Red, Nil, 24, RightOf(
                                                     Black, Nil, 19,
                                                     RightOf(Black, BL(9), 17, Top))));
    var z1 := Zipper(RL(75), RightOf(Black, RL(19), 24, RightOf(Black, BL(9), 17, Top)));
    assert Classify(z0) == LineRight;
    assert RotateGrandparentLeft(z0) == z1;
    assert Classify(z1) == BlackParent;
    assert Repair(z0) == Repair(z1) == Plug(z1);
    var z2 := Zipper(B(RL(19), 24, RL(75)), RightOf(Black, BL(9), 17, Top));
    assert Up(RotateGrandparentLeft(z0)) == z2;
    assert Classify(z2) == BlackParent;
    assert RepairAsWritten(z0) == RepairAsWritten(z2) == Plug(z2);
  }

  /** Puts 24, 75, for `FifthTest`. */
  lemma FifthTestPart2()
    ensures PutAll(RedBlackTree(B(RL(9), 17, RL(19)), 3), [24, 75])
            == RedBlackTree(B(BL(9), 17, B(RL(19), 24, RL(75))), 5)
    ensures PutAllAsWritten(RedBlackTree(B(RL(9), 17, RL(19)), 3), [24, 75])
            == RedBlackTree(B(BL(9), 17, B(RL(19), 24, RL(75))), 5)
  {
    var t0 := RedBlackTree(B(RL(9), 17, RL(19)), 3);
    assert PutHelper(t0.root, 24)
           == Some(Zipper(RL(24), RightOf(Red, Nil, 19, RightOf(Black, RL(9), 17, Top))));
    FifthTestWalk1();
    var t1 := RedBlackTree(B(BL(9), 17, B(Nil, 19, RL(24))), 4);
    assert Put(t0, 24) == t1;
    assert PutAsWritten(t0, 24) == t1;
    assert PutHelper(t1.root, 75)
           == Some(
                Zipper(RL(75), RightOf(Red, Nil, 24, RightOf(
                                                       Black, Nil, 19,
                                                       RightOf(Black, BL(9), 17, Top)))));
    FifthTestWalk2();
    var t2 := RedBlackTree(B(BL(9), 17, B(RL(19), 24, RL(75))), 5);
    assert Put(t1, 75) == t2;
    assert PutAsWritten(t1, 75) == t2;
    assert PutAll(t0, [24, 75])
        == PutAll(t1, [75])
        == PutAll(t2, []);
    assert PutAllAsWritten(t0, [24, 75])
        == PutAllAsWritten(t1, [75])
        == PutAllAsWritten(t2, []);
  }

  /** createFifthTest (lines 405-429). Both walks agree. */
  lemma FifthTest()
    ensures PutAll(Empty(), [17, 9, 19] + [24, 75])
            == RedBlackTree(B(BL(9), 17, B(RL(19), 24, RL(75))), 5)
    ensures PutAllAsWritten(Empty(), [17, 9, 19] + [24, 75])
            == RedBlackTree(B(BL(9), 17, B(RL(19), 24, RL(75))), 5)
  {
    FourthTestPart1();
    FifthTestPart2();
    PutAllAppend(Empty(), [17, 9, 19], [24, 75]);
    PutAllAsWrittenAppend(Empty(), [17, 9, 19], [24, 75]);
  }

  /** Puts 17, 9, 18 into the empty tree, for `SixthTest`. */
  lemma SixthTestPart1()
    ensures PutAll(Empty(), [17, 9, 18]) == RedBlackTree(B(RL(9), 17, RL(18)), 3)
    ensures PutAllAsWritten(Empty(), [17, 9, 18]) == RedBlackTree(B(RL(9), 17, RL(18)), 3)
  {
    var t0 := RedBlackTree(Nil, 0);
    assert PutHelper(t0.root, 17) == Some(Zipper(RL(17), Top));
    var t1 := RedBlackTree(BL(17), 1);
    assert Put(t0, 17) == t1;
    assert PutAsWritten(t0, 17) == t1;
    assert PutHelper(t1.root, 9) == Some(Zipper(RL(9), LeftOf(Black, 17, Nil, Top)));
    var t2 := RedBlackTree(B(RL(9), 17, Nil), 2);
    assert Put(t1, 9) == t2;
    assert PutAsWritten(t1, 9) == t2;
    assert PutHelper(t2.root, 18) == Some(Zipper(RL(18), RightOf(Black, RL(9), 17, Top)));
    var t3 := RedBlackTree(B(RL(9), 17, RL(18)), 3);
    assert Put(t2, 18) == t3;
    assert PutAsWritten(t2, 18) == t3;
    assert PutAll(t0, [17, 9, 18])
        == PutAll(t1, [9, 18])
        == PutAll(t2, [18])
        == PutAll(t3, []);
    assert PutAllAsWritten(t0, [17, 9, 18])
        == PutAllAsWritten(t1, [9, 18])
        == PutAllAsWritten(t2, [18])
        == PutAllAsWritten(t3, []);
  }

  /** The repair walk from the new node 24, for `SixthTest`. */
  lemma SixthTestWalk1()
    ensures Repair(Zipper(RL(24), RightOf(Red, Nil, 18, RightOf(Black, RL(9), 17, Top))))
            == R(BL(9), 17, B(Nil, 18, RL(24)))
    ensures RepairAsWritten(Zipper(RL(24), RightOf(Red, Nil, 18, RightOf(Black, RL(9), 17, Top))))
            == R(BL(9), 17, B(Nil, 18, RL(24)))
  {
    var z0 := Zipper(RL(24), RightOf(Red, Nil, 18, RightOf(Black, RL(9), 17, Top)));
    var z1 := Zipper(R(BL(9), 17, B(Nil, 18, RL(24))), Top);
    assert Classify(z0) == RedUncle;
    assert RecolorRedUncle(z0) == z1;
    assert Classify(z1) == NoParent;
    assert Repair(z0) == Repair(z1) == Plug(z1);
    assert RepairAsWritten(z0) == RepairAsWritten(z1) == Plug(z1);
  }

  /** The repair walk from the new node 75, for `SixthTest`. */
  lemma SixthTestWalk2()
    ensures Repair(
              Zipper(RL(75), RightOf(Red, Nil, 24, RightOf(
                                                     Black, Nil, 18,
                                                     RightOf(Black, BL(9), 17, Top)))))
            == B(BL(9), 17, B(RL(18), 24, RL(75)))
    ensures RepairAsWritten(
              Zipper(RL(75), RightOf(Red, Nil, 24, RightOf(
                                                     Black, Nil, 18,
                                                     RightOf(Black, BL(9), 17, Top)))))
            == B(BL(9), 17, B(RL(18), 24, RL(75)))
  {
    var z0 := Zipper(RL(75), RightOf(Red, Nil, 24, RightOf(
                                                     Black, Nil, 18,
                                                     RightOf(Black, BL(9), 17, Top))));
    var z1 := Zipper(RL(75), RightOf(Black, RL(18), 24, RightOf(Black, BL(9), 17, Top)));
    assert Classify(z0) == LineRight;
    assert RotateGrandparentLeft(z0) == z1;
    assert Classify(z1) == BlackParent;
    assert Repair(z0) == Repair(z1) == Plug(z1);
    var z2 := Zipper(B(RL(18), 24, RL(75)), RightOf(Black, BL(9), 17, Top));
    assert Up(RotateGrandparentLeft(z0)) == z2;
    assert Classify(z2) == BlackParent;
    assert RepairAsWritten(z0) == RepairAsWritten(z2) == Plug(z2);
  }

  /** Puts 24, 75, for `SixthTest`. */
  lemma SixthTestPart2()
    ensures PutAll(RedBlackTree(B(RL(9), 17, RL(18)), 3), [24, 75])
            == RedBlackTree(B(BL(9), 17, B(RL(18), 24, RL(75))), 5)
    ensures PutAllAsWritten(RedBlackTree(B(RL(9), 17, RL(18)), 3), [24, 75])
            == RedBlackTree(B(BL(9), 17, B(RL(18), 24, RL(75))), 5)
  {
    var t0 := RedBlackTree(B(RL(9), 17, RL(18)), 3);
    assert PutHelper(t0.root, 24)
           == Some(Zipper(RL(24), RightOf(Red, Nil, 18, RightOf(Black, RL(9), 17, Top))));
    SixthTestWalk1();
    var t1 := RedBlackTree(B(BL(9), 17, B(Nil, 18, RL(24))), 4);
    assert Put(t0, 24) == t1;
    assert PutAsWritten(t0, 24) == t1;
    assert PutHelper(t1.root, 75)
           == Some(
                Zipper(RL(75), RightOf(Red, Nil, 24, RightOf(
                                                       Black, Nil, 18,
                                                       RightOf(Black, BL(9), 17, Top)))));
    SixthTestWalk2();
    var t2 := RedBlackTree(B(BL(9), 17, B(RL(18), 24, RL(75))), 5);
    assert Put(t1, 75) == t2;
    assert PutAsWritten(t1, 75) == t2;
    assert PutAll(t0, [24, 75])
        == PutAll(t1, [75])
        == PutAll(t2, []);
    assert PutAllAsWritten(t0, [24, 75])
        == PutAllAsWritten(t1, [75])
        == PutAllAsWritten(t2, []);
  }

  /** createSixthTest (lines 431-455). Both walks agree. */
  lemma SixthTest()
    ensures PutAll(Empty(), [17, 9, 18] + [24, 75])
            == RedBlackTree(B(BL(9), 17, B(RL(18), 24, RL(75))), 5)
    ensures PutAllAsWritten(Empty(), [17, 9, 18] + [24, 75])
            == RedBlackTree(B(BL(9), 17, B(RL(18), 24, RL(75))), 5)
  {
    SixthTestPart1();
    SixthTestPart2();
    PutAllAppend(Empty(), [17, 9, 18], [24, 75]);
    PutAllAsWrittenAppend(Empty(), [17, 9, 18], [24, 75]);
  }

  /** The repair walk from the new node 120, for `SeventhTest`. */
  lemma SeventhTestWalk1()
    ensures Repair(
              Zipper(RL(120), RightOf(Red, Nil, 100, RightOf(
                                                       Black, Nil, 80,
                                                       RightOf(
                                                         Black, B(Nil, 25, RL(35)), 50, Top)))))
            == B(B(Nil, 25, RL(35)), 50, B(RL(80), 100, RL(120)))
    ensures RepairAsWritten(
              Zipper(RL(120), RightOf(Red, Nil, 100, RightOf(
                                                       Black, Nil, 80,
                                                       RightOf(
                                                         Black, B(Nil, 25, RL(35)), 50, Top)))))
            == B(B(Nil, 25, RL(35)), 50, B(RL(80), 100, RL(120)))
  {
    var z0 := Zipper(RL(120), RightOf(Red, Nil, 100, RightOf(
                                                       Black, Nil, 80,
                                                       RightOf(
                                                         Black, B(Nil, 25, RL(35)), 50, Top))));
    var z1 := Zipper(RL(120), RightOf(
                                Black, RL(80), 100, RightOf(Black, B(Nil, 25, RL(35)), 50, Top)));
    assert Classify(z0) == LineRight;
    assert RotateGrandparentLeft(z0) == z1;
    assert Classify(z1) == BlackParent;
    assert Repair(z0) == Repair(z1) == Plug(z1);
    var z2 := Zipper(B(RL(80), 100, RL(120)), RightOf(Black, B(Nil, 25, RL(35)), 50, Top));
    assert Up(RotateGrandparentLeft(z0)) == z2;
    assert Classify(z2) == BlackParent;
    assert RepairAsWritten(z0) == RepairAsWritten(z2) == Plug(z2);
  }

  /**
    createSeventhTest (lines 457-496): 120 under a hand-built tree whose size counter was never
    raised; a right flat line below 80. Both walks agree.
   */
  lemma SeventhTest()
    ensures PutAll(RedBlackTree(B(B(Nil, 25, RL(35)), 50, B(Nil, 80, RL(100))), 0), [120])
            == RedBlackTree(B(B(Nil, 25, RL(35)), 50, B(RL(80), 100, RL(120))), 1)
    ensures PutAllAsWritten(RedBlackTree(B(B(Nil, 25, RL(35)), 50, B(Nil, 80, RL(100))), 0), [120])
            == RedBlackTree(B(B(Nil, 25, RL(35)), 50, B(RL(80), 100, RL(120))), 1)
  {
    var t0 := RedBlackTree(B(B(Nil, 25, RL(35)), 50, B(Nil, 80, RL(100))), 0);
    assert PutHelper(t0.root, 120)
           == Some(
                Zipper(RL(120), RightOf(Red, Nil, 100, RightOf(
                                                         Black, Nil, 80,
                                                         RightOf(
                                                           Black, B(Nil, 25, RL(35)), 50, Top)))));
    SeventhTestWalk1();
    var t1 := RedBlackTree(B(B(Nil, 25, RL(35)), 50, B(RL(80), 100, RL(120))), 1);
    assert Put(t0, 120) == t1;
    assert PutAsWritten(t0, 120) == t1;
    assert PutAll(t0, [120])
        == PutAll(t1, []);
    assert PutAllAsWritten(t0, [120])
        == PutAllAsWritten(t1, []);
  }

  /** The repair walk from the new node 35, for `EighthTest`. */
  lemma EighthTestWalk1()
    ensures Repair(Zipper(RL(35), RightOf(Red, Nil, 25, LeftOf(Black, 50, Nil, Top))))
            == B(RL(25), 35, RL(50))
    ensures RepairAsWritten(Zipper(RL(35), RightOf(Red, Nil, 25, LeftOf(Black, 50, Nil, Top))))
            == B(RL(25), 35, RL(50))
  {
    var z0 := Zipper(RL(35), RightOf(Red, Nil, 25, LeftOf(Black, 50, Nil, Top)));
    var z1 := Zipper(RL(25), LeftOf(Red, 35, Nil, LeftOf(Black, 50, Nil, Top)));
    var z2 := Zipper(RL(25), LeftOf(Black, 35, RL(50), Top));
    assert Classify(z0) == TriangleRight;
    assert RotateParentLeft(z0) == z1;
    assert Classify(z1) == LineLeft;
    assert RotateGrandparentRight(z1) == z2;
    assert Classify(z2) == BlackParent;
    assert Repair(z0) == Repair(z1) == Repair(z2) == Plug(z2);
    var z3 := Zipper(B(RL(25), 35, RL(50)), Top);
    assert Up(RotateGrandparentRight(z1)) == z3;
    assert Classify(z3) == NoParent;
    assert RepairAsWritten(z0) == RepairAsWritten(z1) == RepairAsWritten(z3) == Plug(z3);
  }

  /** Puts 50, 25, 35 into the empty tree, for `EighthTest`. */
  lemma EighthTestPart1()
    ensures PutAll(Empty(), [50, 25, 35]) == RedBlackTree(B(RL(25), 35, RL(50)), 3)
    ensures PutAllAsWritten(Empty(), [50, 25, 35]) == RedBlackTree(B(RL(25), 35, RL(50)), 3)
  {
    var t0 := RedBlackTree(Nil, 0);
    assert PutHelper(t0.root, 50) == Some(Zipper(RL(50), Top));
    var t1 := RedBlackTree(BL(50), 1);
    assert Put(t0, 50) == t1;
    assert PutAsWritten(t0, 50) == t1;
    assert PutHelper(t1.root, 25) == Some(Zipper(RL(25), LeftOf(Black, 50, Nil, Top)));
    var t2 := RedBlackTree(B(RL(25), 50, Nil), 2);
    assert Put(t1, 25) == t2;
    assert PutAsWritten(t1, 25) == t2;
    assert PutHelper(t2.root, 35)
           == Some(Zipper(RL(35), RightOf(Red, Nil, 25, LeftOf(Black, 50, Nil, Top))));
    EighthTestWalk1();
    var t3 := RedBlackTree(B(RL(25), 35, RL(50)), 3);
    assert Put(t2, 35) == t3;
    assert PutAsWritten(t2, 35) == t3;
    assert PutAll(t0, [50, 25, 35])
        == PutAll(t1, [25, 35])
        == PutAll(t2, [35])
        == PutAll(t3, []);
    assert PutAllAsWritten(t0, [50, 25, 35])
        == PutAllAsWritten(t1, [25, 35])
        == PutAllAsWritten(t2, [35])
        == PutAllAsWritten(t3, []);
  }

  /** The repair walk from the new node 80, for `EighthTest`. */
  lemma EighthTestWalk2()
    ensures Repair(Zipper(RL(80), RightOf(Red, Nil, 50, RightOf(Black, RL(25), 35, Top))))
            == R(BL(25), 35, B(Nil, 50, RL(80)))
    ensures RepairAsWritten(Zipper(RL(80), RightOf(Red, Nil, 50, RightOf(Black, RL(25), 35, Top))))
            == R(BL(25), 35, B(Nil, 50, RL(80)))
  {
    var z0 := Zipper(RL(80), RightOf(Red, Nil, 50, RightOf(Black, RL(25), 35, Top)));
    var z1 := Zipper(R(BL(25), 35, B(Nil, 50, RL(80))), Top);
    assert Classify(z0) == RedUncle;
    assert RecolorRedUncle(z0) == z1;
    assert Classify(z1) == NoParent;
    assert Repair(z0) == Repair(z1) == Plug(z1);
    assert RepairAsWritten(z0) == RepairAsWritten(z1) == Plug(z1);
  }

  /** The repair walk from the new node 100, for `EighthTest`. */
  lemma EighthTestWalk3()
    ensures Repair(
              Zipper(RL(100), RightOf(Red, Nil, 80, RightOf(
                                                      Black, Nil, 50,
                                                      RightOf(Black, BL(25), 35, Top)))))
            == B(BL(25), 35, B(RL(50), 80, RL(100)))
    ensures RepairAsWritten(
              Zipper(RL(100), RightOf(Red, Nil, 80, RightOf(
                                                      Black, Nil, 50,
                                                      RightOf(Black, BL(25), 35, Top)))))
            == B(BL(25), 35, B(RL(50), 80, RL(100)))
  {
    var z0 := Zipper(RL(100), RightOf(Red, Nil, 80, RightOf(
                                                      Black, Nil, 50,
                                                      RightOf(Black, BL(25), 35, Top))));
    var z1 := Zipper(RL(100), RightOf(Black, RL(50), 80, RightOf(Black, BL(25), 35, Top)));
    assert Classify(z0) == LineRight;
    assert RotateGrandparentLeft(z0) == z1;
    assert Classify(z1) == BlackParent;
    assert Repair(z0) == Repair(z1) == Plug(z1);
    var z2 := Zipper(B(RL(50), 80, RL(100)), RightOf(Black, BL(25), 35, Top));
    assert Up(RotateGrandparentLeft(z0)) == z2;
    assert Classify(z2) == BlackParent;
    assert RepairAsWritten(z0) == RepairAsWritten(z2) == Plug(z2);
  }

  /** The repair walk from the new node 120, for `EighthTest`. */
  lemma EighthTestWalk4()
    ensures Repair(
              Zipper(RL(120), RightOf(Red, Nil, 100, RightOf(
                                                       Black, RL(50), 80,
                                                       RightOf(Black, BL(25), 35, Top)))))
            == B(BL(25), 35, R(BL(50), 80, B(Nil, 100, RL(120))))
    ensures RepairAsWritten(
              Zipper(RL(120), RightOf(Red, Nil, 100, RightOf(
                                                       Black, RL(50), 80,
                                                       RightOf(Black, BL(25), 35, Top)))))
            == B(BL(25), 35, R(BL(50), 80, B(Nil, 100, RL(120))))
  {
    var z0 := Zipper(RL(120), RightOf(Red, Nil, 100, RightOf(
                                                       Black, RL(50), 80,
                                                       RightOf(Black, BL(25), 35, Top))));
    var z1 := Zipper(R(BL(50), 80, B(Nil, 100, RL(120))), RightOf(Black, BL(25), 35, Top));
    assert Classify(z0) == RedUncle;
    assert RecolorRedUncle(z0) == z1;
    assert Classify(z1) == BlackParent;
    assert Repair(z0) == Repair(z1) == Plug(z1);
    assert RepairAsWritten(z0) == RepairAsWritten(z1) == Plug(z1);
  }

  /** Puts 80, 100, 120, for `EighthTest`. */
  lemma EighthTestPart2()
    ensures PutAll(RedBlackTree(B(RL(25), 35, RL(50)), 3), [80, 100, 120])
            == RedBlackTree(B(BL(25), 35, R(BL(50), 80, B(Nil, 100, RL(120)))), 6)
    ensures PutAllAsWritten(RedBlackTree(B(RL(25), 35, RL(50)), 3), [80, 100, 120])
            == RedBlackTree(B(BL(25), 35, R(BL(50), 80, B(Nil, 100, RL(120)))), 6)
  {
    var t0 := RedBlackTree(B(RL(25), 35, RL(50)), 3);
    assert PutHelper(t0.root, 80)
           == Some(Zipper(RL(80), RightOf(Red, Nil, 50, RightOf(Black, RL(25), 35, Top))));
    EighthTestWalk2();
    var t1 := RedBlackTree(B(BL(25), 35, B(Nil, 50, RL(80))), 4);
    assert Put(t0, 80) == t1;
    assert PutAsWritten(t0, 80) == t1;
    assert PutHelper(t1.root, 100)
           == Some(
                Zipper(RL(100), RightOf(Red, Nil, 80, RightOf(
                                                        Black, Nil, 50,
                                                        RightOf(Black, BL(25), 35, Top)))));
    EighthTestWalk3();
    var t2 := RedBlackTree(B(BL(25), 35, B(RL(50), 80, RL(100))), 5);
    assert Put(t1, 100) == t2;
    assert PutAsWritten(t1, 100) == t2;
    assert PutHelper(t2.root, 120)
           == Some(
                Zipper(RL(120), RightOf(Red, Nil, 100, RightOf(
                                                         Black, RL(50), 80,
                                                         RightOf(Black, BL(25), 35, Top)))));
    EighthTestWalk4();
    var t3 := RedBlackTree(B(BL(25), 35, R(BL(50), 80, B(Nil, 100, RL(120)))), 6);
    assert Put(t2, 120) == t3;
    assert PutAsWritten(t2, 120) == t3;
    assert PutAll(t0, [80, 100, 120])
        == PutAll(t1, [100, 120])
        == PutAll(t2, [120])
        == PutAll(t3, []);
    assert PutAllAsWritten(t0, [80, 100, 120])
        == PutAllAsWritten(t1, [100, 120])
        == PutAllAsWritten(t2, [120])
        == PutAllAsWritten(t3, []);
  }

  /** createEighthTest (lines 498-517). Both walks agree. */
  lemma EighthTest()
    ensures PutAll(Empty(), [50, 25, 35] + [80, 100, 120])
            == RedBlackTree(B(BL(25), 35, R(BL(50), 80, B(Nil, 100, RL(120)))), 6)
    ensures PutAllAsWritten(Empty(), [50, 25, 35] + [80, 100, 120])
            == RedBlackTree(B(BL(25), 35, R(BL(50), 80, B(Nil, 100, RL(120)))), 6)
  {
    EighthTestPart1();
    EighthTestPart2();
    PutAllAppend(Empty(), [50, 25, 35], [80, 100, 120]);
    PutAllAsWrittenAppend(Empty(), [50, 25, 35], [80, 100, 120]);
  }

  /** The repair walk from the new node 9, for `NinthTest`. */
  lemma NinthTestWalk1()
    ensures Repair(
              Zipper(RL(9), LeftOf(Red, 11, Nil, LeftOf(
                                                   Black, 25, Nil,
                                                   LeftOf(
                                                     Black, 35, R(BL(50), 80, B(Nil, 100, RL(120))),
                                                     Top)))))
            == B(B(RL(9), 11, RL(25)), 35, R(BL(50), 80, B(Nil, 100, RL(120))))
    ensures RepairAsWritten(
              Zipper(RL(9), LeftOf(Red, 11, Nil, LeftOf(
                                                   Black, 25, Nil,
                                                   LeftOf(
                                                     Black, 35, R(BL(50), 80, B(Nil, 100, RL(120))),
                                                     Top)))))
            == B(B(RL(9), 11, RL(25)), 35, R(BL(50), 80, B(Nil, 100, RL(120))))
  {
    var z0 := Zipper(RL(9), LeftOf(Red, 11, Nil, LeftOf(
                                                   Black, 25, Nil,
                                                   LeftOf(
                                                     Black, 35, R(BL(50), 80, B(Nil, 100, RL(120))),
                                                     Top))));
    var z1 := Zipper(RL(9), LeftOf(Black, 11, RL(25), LeftOf(
                                                        Black, 35,
                                                        R(BL(50), 80, B(Nil, 100, RL(120))), Top)));
    assert Classify(z0) == LineLeft;
    assert RotateGrandparentRight(z0) == z1;
    assert Classify(z1) == BlackParent;
    assert Repair(z0) == Repair(z1) == Plug(z1);
    var z2 := Zipper(B(RL(9), 11, RL(25)), LeftOf(
                                             Black, 35, R(BL(50), 80, B(Nil, 100, RL(120))), Top));
    assert Up(RotateGrandparentRight(z0)) == z2;
    assert Classify(z2) == BlackParent;
    assert RepairAsWritten(z0) == RepairAsWritten(z2) == Plug(z2);
  }

  /** The repair walk from the new node 1, for `NinthTest`. */
  lemma NinthTestWalk2()
    ensures Repair(
              Zipper(RL(1), LeftOf(Red, 9, Nil, LeftOf(
                                                  Black, 11, RL(25),
                                                  LeftOf(
                                                    Black, 35, R(BL(50), 80, B(Nil, 100, RL(120))),
                                                    Top)))))
            == B(R(B(RL(1), 9, Nil), 11, BL(25)), 35, R(BL(50), 80, B(Nil, 100, RL(120))))
    ensures RepairAsWritten(
              Zipper(RL(1), LeftOf(Red, 9, Nil, LeftOf(
                                                  Black, 11, RL(25),
                                                  LeftOf(
                                                    Black, 35, R(BL(50), 80, B(Nil, 100, RL(120))),
                                                    Top)))))
            == B(R(B(RL(1), 9, Nil), 11, BL(25)), 35, R(BL(50), 80, B(Nil, 100, RL(120))))
  {
    var z0 := Zipper(RL(1), LeftOf(Red, 9, Nil, LeftOf(
                                                  Black, 11, RL(25),
                                                  LeftOf(
                                                    Black, 35, R(BL(50), 80, B(Nil, 100, RL(120))),
                                                    Top))));
    var z1 := Zipper(R(B(RL(1), 9, Nil), 11, BL(25)), LeftOf(
                                                        Black, 35,
                                                        R(BL(50), 80, B(Nil, 100, RL(120))), Top));
    assert Classify(z0) == RedUncle;
    assert RecolorRedUncle(z0) == z1;
    assert Classify(z1) == BlackParent;
    assert Repair(z0) == Repair(z1) == Plug(z1);
    assert RepairAsWritten(z0) == RepairAsWritten(z1) == Plug(z1);
  }

  /** Puts 11, 9, 1, for `NinthTest`. */
  lemma NinthTestPart1()
    ensures PutAll(RedBlackTree(B(BL(25), 35, R(BL(50), 80, B(Nil, 100, RL(120)))), 6), [11, 9, 1])
            == RedBlackTree(
                 B(R(B(RL(1), 9, Nil), 11, BL(25)), 35, R(BL(50), 80, B(Nil, 100, RL(120)))), 9)
    ensures PutAllAsWritten(
              RedBlackTree(B(BL(25), 35, R(BL(50), 80, B(Nil, 100, RL(120)))), 6), [11, 9, 1])
            == RedBlackTree(
                 B(R(B(RL(1), 9, Nil), 11, BL(25)), 35, R(BL(50), 80, B(Nil, 100, RL(120)))), 9)
  {
    var t0 := RedBlackTree(B(BL(25), 35, R(BL(50), 80, B(Nil, 100, RL(120)))), 6);
    assert PutHelper(t0.root, 11)
           == Some(
                Zipper(RL(11), LeftOf(Black, 25, Nil, LeftOf(
                                                        Black, 35,
                                                        R(BL(50), 80, B(Nil, 100, RL(120))),
                                                        Top))));
    var t1 := RedBlackTree(B(B(RL(11), 25, Nil), 35, R(BL(50), 80, B(Nil, 100, RL(120)))), 7);
    assert Put(t0, 11) == t1;
    assert PutAsWritten(t0, 11) == t1;
    assert PutHelper(t1.root, 9)
           == Some(
                Zipper(RL(9), LeftOf(Red, 11, Nil, LeftOf(
                                                     Black, 25, Nil,
                                                     LeftOf(
                                                       Black, 35,
                                                       R(BL(50), 80, B(Nil, 100, RL(120))),
                                                       Top)))));
    NinthTestWalk1();
    var t2 := RedBlackTree(B(B(RL(9), 11, RL(25)), 35, R(BL(50), 80, B(Nil, 100, RL(120)))), 8);
    assert Put(t1, 9) == t2;
    assert PutAsWritten(t1, 9) == t2;
    assert PutHelper(t2.root, 1)
           == Some(
                Zipper(RL(1), LeftOf(Red, 9, Nil, LeftOf(
                                                    Black, 11, RL(25),
                                                    LeftOf(
                                                      Black, 35,
                                                      R(BL(50), 80, B(Nil, 100, RL(120))), Top)))));
    NinthTestWalk2();
    var t3 := RedBlackTree(
                B(R(B(RL(1), 9, Nil), 11, BL(25)), 35, R(BL(50), 80, B(Nil, 100, RL(120)))), 9);
    assert Put(t2, 1) == t3;
    assert PutAsWritten(t2, 1) == t3;
    assert PutAll(t0, [11, 9, 1])
        == PutAll(t1, [9, 1])
        == PutAll(t2, [1])
        == PutAll(t3, []);
    assert PutAllAsWritten(t0, [11, 9, 1])
        == PutAllAsWritten(t1, [9, 1])
        == PutAllAsWritten(t2, [1])
        == PutAllAsWritten(t3, []);
  }

  /**
    createNinthTest (lines 519-538): the puts of createEighthTest followed by 11, 9 and 1. Both
    walks agree.
   */
  lemma NinthTest()
    ensures PutAll(Empty(), [50, 25, 35] + [80, 100, 120] + [11, 9, 1])
            == RedBlackTree(
                 B(R(B(RL(1), 9, Nil), 11, BL(25)), 35, R(BL(50), 80, B(Nil, 100, RL(120)))), 9)
    ensures PutAllAsWritten(Empty(), [50, 25, 35] + [80, 100, 120] + [11, 9, 1])
            == RedBlackTree(
                 B(R(B(RL(1), 9, Nil), 11, BL(25)), 35, R(BL(50), 80, B(Nil, 100, RL(120)))), 9)
  {
    EighthTest();
    NinthTestPart1();
    PutAllAppend(Empty(), [50, 25, 35] + [80, 100, 120], [11, 9, 1]);
    PutAllAsWrittenAppend(Empty(), [50, 25, 35] + [80, 100, 120], [11, 9, 1]);
  }

  /** Putting the same value twice stores and counts it once (line 209). Both walks agree. */
  lemma DuplicatePut()
    ensures PutAll(Empty(), [10, 10]) == RedBlackTree(BL(10), 1)
    ensures PutAllAsWritten(Empty(), [10, 10]) == RedBlackTree(BL(10), 1)
  {
    var t0 := RedBlackTree(Nil, 0);
    assert PutHelper(t0.root, 10) == Some(Zipper(RL(10), Top));
    var t1 := RedBlackTree(BL(10), 1);
    assert Put(t0, 10) == t1;
    assert PutAsWritten(t0, 10) == t1;
    var t2 := RedBlackTree(BL(10), 1);
    assert Put(t1, 10) == t2;
    assert PutAsWritten(t1, 10) == t2;
    assert PutAll(t0, [10, 10])
        == PutAll(t1, [10])
        == PutAll(t2, []);
    assert PutAllAsWritten(t0, [10, 10])
        == PutAllAsWritten(t1, [10])
        == PutAllAsWritten(t2, []);
  }

  /** Puts 10, 5, 20 into the empty tree, for `ResumeAtParentBreaksInvariants`. */
  lemma ResumeAtParentBreaksInvariantsPart1()
    ensures PutAllAsWritten(Empty(), [10, 5, 20]) == RedBlackTree(B(RL(5), 10, RL(20)), 3)
  {
    var t0 := RedBlackTree(Nil, 0);
    assert PutHelper(t0.root, 10) == Some(Zipper(RL(10), Top));
    var t1 := RedBlackTree(BL(10), 1);
    assert PutAsWritten(t0, 10) == t1;
    assert PutHelper(t1.root, 5) == Some(Zipper(RL(5), LeftOf(Black, 10, Nil, Top)));
    var t2 := RedBlackTree(B(RL(5), 10, Nil), 2);
    assert PutAsWritten(t1, 5) == t2;
    assert PutHelper(t2.root, 20) == Some(Zipper(RL(20), RightOf(Black, RL(5), 10, Top)));
    var t3 := RedBlackTree(B(RL(5), 10, RL(20)), 3);
    assert PutAsWritten(t2, 20) == t3;
    assert PutAllAsWritten(t0, [10, 5, 20])
        == PutAllAsWritten(t1, [5, 20])
        == PutAllAsWritten(t2, [20])
        == PutAllAsWritten(t3, []);
  }

  /** The repair walk from the new node 15, for `ResumeAtParentBreaksInvariants`. */
  lemma ResumeAtParentBreaksInvariantsWalk1()
    ensures RepairAsWritten(Zipper(RL(15), LeftOf(Red, 20, Nil, RightOf(Black, RL(5), 10, Top))))
            == R(BL(5), 10, B(RL(15), 20, Nil))
  {
    var z0 := Zipper(RL(15), LeftOf(Red, 20, Nil, RightOf(Black, RL(5), 10, Top)));
    var z1 := Zipper(R(BL(5), 10, B(RL(15), 20, Nil)), Top);
    assert Classify(z0) == RedUncle;
    assert RecolorRedUncle(z0) == z1;
    assert Classify(z1) == NoParent;
    assert RepairAsWritten(z0) == RepairAsWritten(z1) == Plug(z1);
  }

  /** The repair walk from the new node 13, for `ResumeAtParentBreaksInvariants`. */
  lemma ResumeAtParentBreaksInvariantsWalk2()
    ensures RepairAsWritten(
              Zipper(RL(13), LeftOf(Red, 15, Nil, LeftOf(
                                                    Black, 20, RL(25),
                                                    RightOf(Black, BL(5), 10, Top)))))
            == B(BL(5), 10, R(B(RL(13), 15, Nil), 20, BL(25)))
  {
    var z0 := Zipper(RL(13), LeftOf(Red, 15, Nil, LeftOf(
                                                    Black, 20, RL(25),
                                                    RightOf(Black, BL(5), 10, Top))));
    var z1 := Zipper(R(B(RL(13), 15, Nil), 20, BL(25)), RightOf(Black, BL(5), 10, Top));
    assert Classify(z0) == RedUncle;
    assert RecolorRedUncle(z0) == z1;
    assert Classify(z1) == BlackParent;
    assert RepairAsWritten(z0) == RepairAsWritten(z1) == Plug(z1);
  }

  /** Puts 15, 25, 13, for `ResumeAtParentBreaksInvariants`. */
  lemma ResumeAtParentBreaksInvariantsPart2()
    ensures PutAllAsWritten(RedBlackTree(B(RL(5), 10, RL(20)), 3), [15, 25, 13])
            == RedBlackTree(B(BL(5), 10, R(B(RL(13), 15, Nil), 20, BL(25))), 6)
  {
    var t0 := RedBlackTree(B(RL(5), 10, RL(20)), 3);
    assert PutHelper(t0.root, 15)
           == Some(Zipper(RL(15), LeftOf(Red, 20, Nil, RightOf(Black, RL(5), 10, Top))));
    ResumeAtParentBreaksInvariantsWalk1();
    var t1 := RedBlackTree(B(BL(5), 10, B(RL(15), 20, Nil)), 4);
    assert PutAsWritten(t0, 15) == t1;
    assert PutHelper(t1.root, 25)
           == Some(Zipper(RL(25), RightOf(Black, RL(15), 20, RightOf(Black, BL(5), 10, Top))));
    var t2 := RedBlackTree(B(BL(5), 10, B(RL(15), 20, RL(25))), 5);
    assert PutAsWritten(t1, 25) == t2;
    assert PutHelper(t2.root, 13)
           == Some(
                Zipper(RL(13), LeftOf(Red, 15, Nil, LeftOf(
                                                      Black, 20, RL(25),
                                                      RightOf(Black, BL(5), 10, Top)))));
    ResumeAtParentBreaksInvariantsWalk2();
    var t3 := RedBlackTree(B(BL(5), 10, R(B(RL(13), 15, Nil), 20, BL(25))), 6);
    assert PutAsWritten(t2, 13) == t3;
    assert PutAllAsWritten(t0, [15, 25, 13])
        == PutAllAsWritten(t1, [25, 13])
        == PutAllAsWritten(t2, [13])
        == PutAllAsWritten(t3, []);
  }

  /** The repair walk from the new node 12, for `ResumeAtParentBreaksInvariants`. */
  lemma ResumeAtParentBreaksInvariantsWalk3()
    ensures RepairAsWritten(
              Zipper(RL(12), LeftOf(Red, 13, Nil, LeftOf(
                                                    Black, 15, Nil,
                                                    LeftOf(
                                                      Red, 20, BL(25),
                                                      RightOf(Black, BL(5), 10, Top))))))
            == B(BL(5), 10, B(RL(12), 13, R(RL(15), 20, BL(25))))
  {
    var z0 := Zipper(RL(12), LeftOf(Red, 13, Nil, LeftOf(
                                                    Black, 15, Nil,
                                                    LeftOf(
                                                      Red, 20, BL(25),
                                                      RightOf(Black, BL(5), 10, Top)))));
    var z1 := Zipper(B(RL(12), 13, RL(15)), LeftOf(
                                              Red, 20, BL(25), RightOf(Black, BL(5), 10, Top)));
    var z2 := Zipper(R(RL(15), 20, BL(25)), RightOf(
                                              Black, RL(12), 13, RightOf(Black, BL(5), 10, Top)));
    assert Classify(z0) == LineLeft;
    assert Up(RotateGrandparentRight(z0)) == z1;
    assert Classify(z1) == TriangleLeft;
    assert RotateParentRight(z1) == z2;
    assert Classify(z2) == BlackParent;
    assert RepairAsWritten(z0) == RepairAsWritten(z1) == RepairAsWritten(z2) == Plug(z2);
  }

  /** Puts 12, for `ResumeAtParentBreaksInvariants`. */
  lemma ResumeAtParentBreaksInvariantsPart3()
    ensures PutAsWritten(RedBlackTree(B(BL(5), 10, R(B(RL(13), 15, Nil), 20, BL(25))), 6), 12)
            == RedBlackTree(B(BL(5), 10, B(RL(12), 13, R(RL(15), 20, BL(25)))), 7)
  {
    var t0 := RedBlackTree(B(BL(5), 10, R(B(RL(13), 15, Nil), 20, BL(25))), 6);
    assert PutHelper(t0.root, 12)
           == Some(
                Zipper(RL(12), LeftOf(Red, 13, Nil, LeftOf(
                                                      Black, 15, Nil,
                                                      LeftOf(
                                                        Red, 20, BL(25),
                                                        RightOf(Black, BL(5), 10, Top))))));
    ResumeAtParentBreaksInvariantsWalk3();
    var t1 := RedBlackTree(B(BL(5), 10, B(RL(12), 13, R(RL(15), 20, BL(25)))), 7);
    assert PutAsWritten(t0, 12) == t1;
  }

  /**
    The walk as written on 10, 5, 20, 15, 25, 13, 12. After the flat-line rotation below 20 it
    resumes at 13, now BLACK, whose parent 20 is RED; it takes 13 for a triangle and rotates 20,
    leaving 15 RED under RED 20 and unequal black counts.
   */
  lemma ResumeAtParentBreaksInvariants()
    ensures PutAllAsWritten(Empty(), [10, 5, 20] + [15, 25, 13] + [12])
            == RedBlackTree(B(BL(5), 10, B(RL(12), 13, R(RL(15), 20, BL(25)))), 7)
    ensures !RedOk(PutAllAsWritten(Empty(), [10, 5, 20] + [15, 25, 13] + [12]).root)
    ensures !Balanced(PutAllAsWritten(Empty(), [10, 5, 20] + [15, 25, 13] + [12]).root)
  {
    ResumeAtParentBreaksInvariantsPart1();
    ResumeAtParentBreaksInvariantsPart2();
    ResumeAtParentBreaksInvariantsPart3();
    PutAllAsWrittenAppend(Empty(), [10, 5, 20], [15, 25, 13]);
    PutAllAsWrittenAppend(Empty(), [10, 5, 20] + [15, 25, 13], [12]);
  }

  /** Puts 10, 5, 20 into the empty tree, for `ResumeAtNodeKeepsInvariants`. */
  lemma ResumeAtNodeKeepsInvariantsPart1()
    ensures PutAll(Empty(), [10, 5, 20]) == RedBlackTree(B(RL(5), 10, RL(20)), 3)
  {
    var t0 := RedBlackTree(Nil, 0);
    assert PutHelper(t0.root, 10) == Some(Zipper(RL(10), Top));
    var t1 := RedBlackTree(BL(10), 1);
    assert Put(t0, 10) == t1;
    assert PutHelper(t1.root, 5) == Some(Zipper(RL(5), LeftOf(Black, 10, Nil, Top)));
    var t2 := RedBlackTree(B(RL(5), 10, Nil), 2);
    assert Put(t1, 5) == t2;
    assert PutHelper(t2.root, 20) == Some(Zipper(RL(20), RightOf(Black, RL(5), 10, Top)));
    var t3 := RedBlackTree(B(RL(5), 10, RL(20)), 3);
    assert Put(t2, 20) == t3;
    assert PutAll(t0, [10, 5, 20])
        == PutAll(t1, [5, 20])
        == PutAll(t2, [20])
        == PutAll(t3, []);
  }

  /** The repair walk from the new node 15, for `ResumeAtNodeKeepsInvariants`. */
  lemma ResumeAtNodeKeepsInvariantsWalk1()
    ensures Repair(Zipper(RL(15), LeftOf(Red, 20, Nil, RightOf(Black, RL(5), 10, Top))))
            == R(BL(5), 10, B(RL(15), 20, Nil))
  {
    var z0 := Zipper(RL(15), LeftOf(Red, 20, Nil, RightOf(Black, RL(5), 10, Top)));
    var z1 := Zipper(R(BL(5), 10, B(RL(15), 20, Nil)), Top);
    assert Classify(z0) == RedUncle;
    assert RecolorRedUncle(z0) == z1;
    assert Classify(z1) == NoParent;
    assert Repair(z0) == Repair(z1) == Plug(z1);
  }

  /** The repair walk from the new node 13, for `ResumeAtNodeKeepsInvariants`. */
  lemma ResumeAtNodeKeepsInvariantsWalk2()
    ensures Repair(
              Zipper(RL(13), LeftOf(Red, 15, Nil, LeftOf(
                                                    Black, 20, RL(25),
                                                    RightOf(Black, BL(5), 10, Top)))))
            == B(BL(5), 10, R(B(RL(13), 15, Nil), 20, BL(25)))
  {
    var z0 := Zipper(RL(13), LeftOf(Red, 15, Nil, LeftOf(
                                                    Black, 20, RL(25),
                                                    RightOf(Black, BL(5), 10, Top))));
    var z1 := Zipper(R(B(RL(13), 15, Nil), 20, BL(25)), RightOf(Black, BL(5), 10, Top));
    assert Classify(z0) == RedUncle;
    assert RecolorRedUncle(z0) == z1;
    assert Classify(z1) == BlackParent;
    assert Repair(z0) == Repair(z1) == Plug(z1);
  }

  /** Puts 15, 25, 13, for `ResumeAtNodeKeepsInvariants`. */
  lemma ResumeAtNodeKeepsInvariantsPart2()
    ensures PutAll(RedBlackTree(B(RL(5), 10, RL(20)), 3), [15, 25, 13])
            == RedBlackTree(B(BL(5), 10, R(B(RL(13), 15, Nil), 20, BL(25))), 6)
  {
    var t0 := RedBlackTree(B(RL(5), 10, RL(20)), 3);
    assert PutHelper(t0.root, 15)
           == Some(Zipper(RL(15), LeftOf(Red, 20, Nil, RightOf(Black, RL(5), 10, Top))));
    ResumeAtNodeKeepsInvariantsWalk1();
    var t1 := RedBlackTree(B(BL(5), 10, B(RL(15), 20, Nil)), 4);
    assert Put(t0, 15) == t1;
    assert PutHelper(t1.root, 25)
           == Some(Zipper(RL(25), RightOf(Black, RL(15), 20, RightOf(Black, BL(5), 10, Top))));
    var t2 := RedBlackTree(B(BL(5), 10, B(RL(15), 20, RL(25))), 5);
    assert Put(t1, 25) == t2;
    assert PutHelper(t2.root, 13)
           == Some(
                Zipper(RL(13), LeftOf(Red, 15, Nil, LeftOf(
                                                      Black, 20, RL(25),
                                                      RightOf(Black, BL(5), 10, Top)))));
    ResumeAtNodeKeepsInvariantsWalk2();
    var t3 := RedBlackTree(B(BL(5), 10, R(B(RL(13), 15, Nil), 20, BL(25))), 6);
    assert Put(t2, 13) == t3;
    assert PutAll(t0, [15, 25, 13])
        == PutAll(t1, [25, 13])
        == PutAll(t2, [13])
        == PutAll(t3, []);
  }

  /** The repair walk from the new node 12, for `ResumeAtNodeKeepsInvariants`. */
  lemma ResumeAtNodeKeepsInvariantsWalk3()
    ensures Repair(
              Zipper(RL(12), LeftOf(Red, 13, Nil, LeftOf(
                                                    Black, 15, Nil,
                                                    LeftOf(
                                                      Red, 20, BL(25),
                                                      RightOf(Black, BL(5), 10, Top))))))
            == B(BL(5), 10, R(B(RL(12), 13, RL(15)), 20, BL(25)))
  {
    var z0 := Zipper(RL(12), LeftOf(Red, 13, Nil, LeftOf(
                                                    Black, 15, Nil,
                                                    LeftOf(
                                                      Red, 20, BL(25),
                                                      RightOf(Black, BL(5), 10, Top)))));
    var z1 := Zipper(RL(12), LeftOf(Black, 13, RL(15), LeftOf(
                                                         Red, 20, BL(25),
                                                         RightOf(Black, BL(5), 10, Top))));
    assert Classify(z0) == LineLeft;
    assert RotateGrandparentRight(z0) == z1;
    assert Classify(z1) == BlackParent;
    assert Repair(z0) == Repair(z1) == Plug(z1);
  }

  /** Puts 12, for `ResumeAtNodeKeepsInvariants`. */
  lemma ResumeAtNodeKeepsInvariantsPart3()
    ensures Put(RedBlackTree(B(BL(5), 10, R(B(RL(13), 15, Nil), 20, BL(25))), 6), 12)
            == RedBlackTree(B(BL(5), 10, R(B(RL(12), 13, RL(15)), 20, BL(25))), 7)
  {
    var t0 := RedBlackTree(B(BL(5), 10, R(B(RL(13), 15, Nil), 20, BL(25))), 6);
    assert PutHelper(t0.root, 12)
           == Some(
                Zipper(RL(12), LeftOf(Red, 13, Nil, LeftOf(
                                                      Black, 15, Nil,
                                                      LeftOf(
                                                        Red, 20, BL(25),
                                                        RightOf(Black, BL(5), 10, Top))))));
    ResumeAtNodeKeepsInvariantsWalk3();
    var t1 := RedBlackTree(B(BL(5), 10, R(B(RL(12), 13, RL(15)), 20, BL(25))), 7);
    assert Put(t0, 12) == t1;
  }

  /**
    The corrected walk on the same sequence stops after the flat-line rotation and leaves a red-
    black tree.
   */
  lemma ResumeAtNodeKeepsInvariants()
    ensures PutAll(Empty(), [10, 5, 20] + [15, 25, 13] + [12])
            == RedBlackTree(B(BL(5), 10, R(B(RL(12), 13, RL(15)), 20, BL(25))), 7)
    ensures Valid(PutAll(Empty(), [10, 5, 20] + [15, 25, 13] + [12]))
  {
    ResumeAtNodeKeepsInvariantsPart1();
    ResumeAtNodeKeepsInvariantsPart2();
    ResumeAtNodeKeepsInvariantsPart3();
    PutAllAppend(Empty(), [10, 5, 20], [15, 25, 13]);
    PutAllAppend(Empty(), [10, 5, 20] + [15, 25, 13], [12]);
    ReachableTrees([10, 5, 20] + [15, 25, 13] + [12]);
  }

}
