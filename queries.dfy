/** Read-only queries over a linked tree: the largest key (right-link walk),
    the smallest key (left-link walk) and the sum of all keys. */
module Queries {
  import opened BstSpec
  import opened Bst

  /** `find_max_value`: `None` for a missing root; otherwise walk right links
      to the end and return that node's key, which on an ordered tree is the maximum. */
  method FindMaxValue(rootNode: Node?) returns (r: Option<int>)
    requires rootNode != null ==> rootNode.Valid()
    ensures r == None <==> rootNode == null
    ensures rootNode != null ==> r == Some(RightmostKey(rootNode.Model))
    ensures rootNode != null && IsBST(rootNode.Model) ==>
      r.value in Keys(rootNode.Model) &&
      forall k :: k in Keys(rootNode.Model) ==> k <= r.value
  {
    if rootNode == null {
      return None;
    }
    var current: Node := rootNode;
    while current.right != null
      invariant current.Valid()
      invariant RightmostKey(current.Model) == RightmostKey(rootNode.Model)
      decreases current.Repr
    {
      current := current.right;
    }
    r := Some(current.key);
    if IsBST(rootNode.Model) {
      RightmostIsMax(rootNode.Model);
    }
  }

  /** `find_min_value`: `None` for a missing root; otherwise walk left links
      to the end and return that node's key, which on an ordered tree is the minimum. */
  method FindMinValue(rootNode: Node?) returns (r: Option<int>)
    requires rootNode != null ==> rootNode.Valid()
    ensures r == None <==> rootNode == null
    ensures rootNode != null ==> r == Some(LeftmostKey(rootNode.Model))
    ensures rootNode != null && IsBST(rootNode.Model) ==>
      r.value in Keys(rootNode.Model) &&
      forall k :: k in Keys(rootNode.Model) ==> r.value <= k
  {
    if rootNode == null {
      return None;
    }
    var current: Node := rootNode;
    while current.left != null
      invariant current.Valid()
      invariant LeftmostKey(current.Model) == LeftmostKey(rootNode.Model)
      decreases current.Repr
    {
      current := current.left;
    }
    r := Some(current.key);
    if IsBST(rootNode.Model) {
      LeftmostIsMin(rootNode.Model);
    }
  }

  /** `find_sum_values`: 0 for a missing node, else the key plus the sums of both subtrees. */
  function FindSumValues(rootNode: Node?): (s: int)
    requires rootNode != null ==> rootNode.Valid()
    reads if rootNode != null then {rootNode} + rootNode.Repr else {}
    ensures s == Sum(ModelOf(rootNode))
    decreases if rootNode != null then rootNode.Repr else {}
  {
    if rootNode == null then 0
    else rootNode.key + FindSumValues(rootNode.left) + FindSumValues(rootNode.right)
  }
}
