/** The linked binary search tree: `Node` objects whose `left`/`right` fields
    insertion reassigns in place, and the `BST` object that owns the root. */
module Bst {
  import opened BstSpec

  class Node {
    var key: int
    var left: Node?
    var right: Node?

    /** The nodes of this subtree (this one included). */
    ghost var Repr: set<Node>
    /** The value this subtree stands for. */
    ghost var Model: Tree

    /** Exclusive ownership: each child owns a disjoint part of the footprint, no cycles. */
    ghost predicate Valid()
      reads this, Repr
      decreases Repr
    {
      this in Repr &&
      (left != null ==>
        left in Repr && left.Repr <= Repr && this !in left.Repr && left.Valid()) &&
      (right != null ==>
        right in Repr && right.Repr <= Repr && this !in right.Repr && right.Valid()) &&
      (left != null && right != null ==> left.Repr !! right.Repr) &&
      Model == Branch(ModelOf(left), key, ModelOf(right))
    }

    /** `Node(key)`: a leaf. */
    constructor (key: int)
      ensures Valid() && fresh(Repr)
      ensures Model == Branch(Empty, key, Empty)
      ensures this.key == key && left == null && right == null
    {
      this.key := key;
      left := null;
      right := null;
      Repr := {this};
      Model := Branch(Empty, key, Empty);
    }
  }

  /** The tree a possibly missing node stands for. */
  ghost function ModelOf(n: Node?): Tree
    reads n
  {
    if n == null then Empty else n.Model
  }

  ghost function ReprOf(n: Node?): set<Node>
    reads n
  {
    if n == null then {} else n.Repr
  }

  class BST {
    var root: Node?

    ghost var Repr: set<object>
    ghost var Model: Tree

    /** The ownership invariant, and the ordering invariant every insertion keeps. */
    ghost predicate Valid()
      reads this, Repr
    {
      this in Repr &&
      (root != null ==> root in Repr && root.Repr <= Repr && root.Valid()) &&
      Model == ModelOf(root) &&
      IsBST(Model)
    }

    /** `BST()`: the empty tree. */
    constructor ()
      ensures Valid() && fresh(Repr)
      ensures Model == Empty && root == null
    {
      root := null;
      Repr := {this};
      Model := Empty;
    }

    /** `insert(key)`: the root becomes the result of inserting below it. */
    method Insert(key: int)
      requires Valid()
      modifies Repr
      ensures Valid() && fresh(Repr - old(Repr))
      ensures Model == BstSpec.Insert(old(Model), key)
      ensures Keys(Model) == Keys(old(Model)) + {key}
      ensures key in Keys(old(Model)) ==> Model == old(Model)
    {
      InsertPreservesBST(Model, key);
      InsertKeys(Model, key);
      InsertUnchangedIff(Model, key);
      var r := InsertRecursive(root, key);
      root := r;
      Repr := Repr + r.Repr;
      Model := r.Model;
    }

    /** `_insert_recursive(node, key)`: a new leaf for a missing node; otherwise the
        node itself, with the child on the key's side replaced by the insertion result.
        An equal key changes nothing. */
    method InsertRecursive(node: Node?, key: int) returns (r: Node)
      requires node != null ==> node.Valid()
      modifies ReprOf(node)
      ensures r.Valid()
      ensures node != null ==> r == node
      ensures r.Model == BstSpec.Insert(old(ModelOf(node)), key)
      ensures fresh(r.Repr - old(ReprOf(node)))
      decreases ReprOf(node)
    {
      if node == null {
        r := new Node(key);
        return;
      }
      if key < node.key {
        var l := InsertRecursive(node.left, key);
        node.left := l;
        node.Repr := node.Repr + l.Repr;
        node.Model := Branch(l.Model, node.key, ModelOf(node.right));
      } else if key > node.key {
        var rr := InsertRecursive(node.right, key);
        node.right := rr;
        node.Repr := node.Repr + rr.Repr;
        node.Model := Branch(ModelOf(node.left), node.key, rr.Model);
      }
      r := node;
    }
  }
}
