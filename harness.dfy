/** The three scenarios each tree program runs on itself: a balanced tree of seven
    keys, a degenerate chain of three, and an empty tree. */
module Harness {
  import opened BstSpec
  import opened LayoutSpec
  import opened Bst
  import opened Queries
  import opened Drawing

  /** A fresh tree with `elements` inserted in order. */
  method BuildTree(elements: seq<int>) returns (tree: BST)
    ensures tree.Valid() && fresh(tree.Repr)
    ensures tree.Model == Build(elements)
  {
    tree := new BST();
    for i := 0 to |elements|
      invariant tree.Valid() && fresh(tree.Repr)
      invariant tree.Model == Build(elements[..i])
    {
      assert elements[..i + 1][..i] == elements[..i];
      tree.Insert(elements[i]);
    }
    assert elements[..|elements|] == elements;
  }

  function Leaf(k: int): Tree
  {
    Branch(Empty, k, Empty)
  }

  /** Inserting 40, 20, 60, 10, 30, 50, 70 gives the complete tree of height 3 rooted at 40. */
  lemma BalancedShape()
    ensures Build([40, 20, 60, 10, 30, 50, 70]) ==
      Branch(Branch(Leaf(10), 20, Leaf(30)), 40, Branch(Leaf(50), 60, Leaf(70)))
  {
    var ks := [40, 20, 60, 10, 30, 50, 70];
    assert ks[..1][..0] == [];
    assert ks[..2][..1] == ks[..1];
    assert ks[..3][..2] == ks[..2];
    assert ks[..4][..3] == ks[..3];
    assert ks[..5][..4] == ks[..4];
    assert ks[..6][..5] == ks[..5];
    assert ks[..6] == ks[..7][..6];
    assert ks[..7] == ks;
    assert Build(ks[..1]) == Leaf(40);
    assert Build(ks[..2]) == Branch(Leaf(20), 40, Empty);
    assert Build(ks[..3]) == Branch(Leaf(20), 40, Leaf(60));
    assert Build(ks[..4]) == Branch(Branch(Leaf(10), 20, Empty), 40, Leaf(60));
    assert Build(ks[..5]) == Branch(Branch(Leaf(10), 20, Leaf(30)), 40, Leaf(60));
    assert Build(ks[..6]) == Branch(Branch(Leaf(10), 20, Leaf(30)), 40, Branch(Leaf(50), 60, Empty));
  }

  /** Inserting 10, 20, 30 gives a chain of right children. */
  lemma ChainShape()
    ensures Build([10, 20, 30]) == Branch(Empty, 10, Branch(Empty, 20, Leaf(30)))
  {
    var ks := [10, 20, 30];
    assert ks[..1][..0] == [];
    assert ks[..2][..1] == ks[..1];
    assert ks[..2] == ks[..3][..2];
    assert ks[..3] == ks;
    assert Build(ks[..1]) == Leaf(10);
    assert Build(ks[..2]) == Branch(Empty, 10, Leaf(20));
  }

  /** The chain is drawn from (0, 0) down and to the right by 1/2, then by 1/4. */
  lemma ChainLayout()
    ensures Place(map[], Branch(Empty, 10, Branch(Empty, 20, Leaf(30))), 0.0, 0.0, 1) ==
      map[10 := Point(0.0, 0.0), 20 := Point(0.5, -1.0), 30 := Point(0.75, -2.0)]
  {
    assert Offset(1) == 0.5;
    assert Offset(2) == 0.25;
    var root := map[10 := Point(0.0, 0.0)];
    var second := root[20 := Point(0.5, -1.0)];
    assert Place(second, Leaf(30), 0.75, -2.0, 3) == second[30 := Point(0.75, -2.0)];
    assert Place(second, Branch(Empty, 20, Leaf(30)), 0.5, -1.0, 2) == second[30 := Point(0.75, -2.0)];
  }

  /** The balanced and the degenerate tree have maxima 70 and 30; the empty one has none. */
  method MaxScenarios() returns (m1: Option<int>, m2: Option<int>, m3: Option<int>)
    ensures m1 == Some(70) && m2 == Some(30) && m3 == None
  {
    var tree := BuildTree([40, 20, 60, 10, 30, 50, 70]);
    BalancedShape();
    m1 := FindMaxValue(tree.root);
    var degraded := BuildTree([10, 20, 30]);
    ChainShape();
    m2 := FindMaxValue(degraded.root);
    var empty := new BST();
    m3 := FindMaxValue(empty.root);
  }

  /** Both non-empty trees have minimum 10; the empty one has none. */
  method MinScenarios() returns (m1: Option<int>, m2: Option<int>, m3: Option<int>)
    ensures m1 == Some(10) && m2 == Some(10) && m3 == None
  {
    var tree := BuildTree([40, 20, 60, 10, 30, 50, 70]);
    BalancedShape();
    m1 := FindMinValue(tree.root);
    var degraded := BuildTree([10, 20, 30]);
    ChainShape();
    m2 := FindMinValue(degraded.root);
    var empty := new BST();
    m3 := FindMinValue(empty.root);
  }

  /** The sums are 280, 60 and 0. */
  method SumScenarios() returns (s1: int, s2: int, s3: int)
    ensures s1 == 280 && s2 == 60 && s3 == 0
  {
    var tree := BuildTree([40, 20, 60, 10, 30, 50, 70]);
    BalancedShape();
    s1 := FindSumValues(tree.root);
    var degraded := BuildTree([10, 20, 30]);
    ChainShape();
    s2 := FindSumValues(degraded.root);
    var empty := new BST();
    s3 := FindSumValues(empty.root);
  }

  /** Both non-empty trees are drawn, the empty one is not; the chain 10, 20, 30
      descends to the right by halving steps. */
  method DrawScenarios() returns (d1: bool, d2: bool, d3: bool, chain: map<int, Point>)
    ensures d1 && d2 && !d3
    ensures chain == map[10 := Point(0.0, 0.0), 20 := Point(0.5, -1.0), 30 := Point(0.75, -2.0)]
  {
    var tree := BuildTree([40, 20, 60, 10, 30, 50, 70]);
    BalancedShape();
    var g1, p1 := null, map[];
    d1, g1, p1 := DrawTree(tree.root);
    var degraded := BuildTree([10, 20, 30]);
    ChainShape();
    ChainLayout();
    var g2;
    d2, g2, chain := DrawTree(degraded.root);
    var empty := new BST();
    var g3, p3 := null, map[];
    d3, g3, p3 := DrawTree(empty.root);
  }
}
