/** The drawing layout of a tree as values: where `add_edges_to_graph`
    puts every node and which parent-to-child edges it records.
    Coordinates are exact reals; `1 / 2 ** layer` is the dyadic `Offset(layer)`. */
module LayoutSpec {
  import opened BstSpec

  datatype Point = Point(x: real, y: real)

  /** The horizontal distance `1 / 2^layer` between a node on `layer` and its children. */
  function Offset(layer: nat): (o: real)
    ensures o > 0.0
  {
    if layer == 0 then 1.0 else Offset(layer - 1) / 2.0
  }

  /** The position map after the program's own sequence of writes: the node at
      `(x, y)`, then the left child and its subtree, then the right child and its subtree. */
  function Place(pos: map<int, Point>, t: Tree, x: real, y: real, layer: nat): map<int, Point>
    decreases t, 1
  {
    match t
    case Empty => pos
    case Branch(l, k, r) =>
      var afterLeft := PlaceChild(pos[k := Point(x, y)], l, x - Offset(layer), y - 1.0, layer + 1);
      PlaceChild(afterLeft, r, x + Offset(layer), y - 1.0, layer + 1)
  }

  /** A present child: its position is written, then its subtree is placed from there. */
  function PlaceChild(pos: map<int, Point>, c: Tree, x: real, y: real, layer: nat): map<int, Point>
    decreases c, 2
  {
    if c.Branch? then Place(pos[c.key := Point(x, y)], c, x, y, layer) else pos
  }

  /** The edge from a parent key to a present child. */
  function ChildEdge(parent: int, c: Tree): set<(int, int)>
  {
    if c.Branch? then {(parent, c.key)} else {}
  }

  /** The set of (parent key, child key) pairs of the tree: the edge to each present
      child, together with the edges of that child's subtree. */
  ghost function Edges(t: Tree): set<(int, int)>
  {
    match t
    case Empty => {}
    case Branch(l, k, r) => ChildEdge(k, l) + Edges(l) + ChildEdge(k, r) + Edges(r)
  }

  /** The horizontal displacement from the start point reached by following `p`
      from a node on `layer`: each step moves by the offset of the layer it leaves. */
  function Shift(p: seq<Dir>, layer: nat): real
    decreases |p|
  {
    if p == [] then 0.0
    else (if p[0] == Left then -Offset(layer) else Offset(layer)) + Shift(p[1..], layer + 1)
  }

  /** `u` is the key of a node and `v` the key of its child in direction `d` at path `p`. */
  ghost predicate ParentChildAt(t: Tree, p: seq<Dir>, d: Dir, u: int, v: int)
  {
    At(t, p).Branch? && Child(At(t, p), d).Branch? &&
    At(t, p).key == u && Child(At(t, p), d).key == v
  }

  // ---------------------------------------------------------------------
  // What the write sequence leaves in the map

  /** Placing a tree adds exactly its keys to the map and leaves every other entry alone. */
  lemma {:induction false} PlaceFrame(pos: map<int, Point>, t: Tree, x: real, y: real, layer: nat, a: int)
    ensures a in Place(pos, t, x, y, layer) <==> a in pos || a in Keys(t)
    ensures a !in Keys(t) && a in pos ==> Place(pos, t, x, y, layer)[a] == pos[a]
    decreases t, 1
  {
    match t
    case Empty =>
    case Branch(l, k, r) =>
      var atNode := pos[k := Point(x, y)];
      var lx, rx, cy := x - Offset(layer), x + Offset(layer), y - 1.0;
      PlaceChildFrame(atNode, l, lx, cy, layer + 1, a);
      var afterLeft := PlaceChild(atNode, l, lx, cy, layer + 1);
      PlaceChildFrame(afterLeft, r, rx, cy, layer + 1, a);
      assert Place(pos, t, x, y, layer) == PlaceChild(afterLeft, r, rx, cy, layer + 1);
  }

  lemma {:induction false} PlaceChildFrame(pos: map<int, Point>, c: Tree, x: real, y: real, layer: nat, a: int)
    ensures a in PlaceChild(pos, c, x, y, layer) <==> a in pos || a in Keys(c)
    ensures a !in Keys(c) && a in pos ==> PlaceChild(pos, c, x, y, layer)[a] == pos[a]
    decreases c, 2
  {
    if c.Branch? {
      PlaceFrame(pos[c.key := Point(x, y)], c, x, y, layer, a);
    }
  }

  /** Closed form, on an ordered tree (keys distinct): the node at the end of path `p`
      ends up `Shift(p)` to the side of the start point and `|p|` rows below it. */
  lemma {:induction false} PlaceAtPath(pos: map<int, Point>, t: Tree, p: seq<Dir>, x: real, y: real, layer: nat)
    requires IsBST(t) && At(t, p).Branch?
    ensures At(t, p).key in Place(pos, t, x, y, layer)
    ensures Place(pos, t, x, y, layer)[At(t, p).key] == Point(x + Shift(p, layer), y - |p| as real)
    decreases |p|
  {
    var l, k, r := t.left, t.key, t.right;
    var a := At(t, p).key;
    var atNode := pos[k := Point(x, y)];
    var lx, rx, cy := x - Offset(layer), x + Offset(layer), y - 1.0;
    var afterLeft := PlaceChild(atNode, l, lx, cy, layer + 1);
    assert Place(pos, t, x, y, layer) == PlaceChild(afterLeft, r, rx, cy, layer + 1);
    if p == [] {
      PlaceChildFrame(atNode, l, lx, cy, layer + 1, k);
      PlaceChildFrame(afterLeft, r, rx, cy, layer + 1, k);
    } else if p[0] == Left {
      AtKeyInKeys(l, p[1..]);
      PlaceAtPath(atNode[l.key := Point(lx, cy)], l, p[1..], lx, cy, layer + 1);
      assert afterLeft == Place(atNode[l.key := Point(lx, cy)], l, lx, cy, layer + 1);
      PlaceChildFrame(afterLeft, r, rx, cy, layer + 1, a);
    } else {
      AtKeyInKeys(r, p[1..]);
      PlaceAtPath(afterLeft[r.key := Point(rx, cy)], r, p[1..], rx, cy, layer + 1);
      assert PlaceChild(afterLeft, r, rx, cy, layer + 1)
          == Place(afterLeft[r.key := Point(rx, cy)], r, rx, cy, layer + 1);
    }
  }

  // ---------------------------------------------------------------------
  // Shifts along paths

  lemma OffsetHalves(layer: nat)
    ensures Offset(layer + 1) * 2.0 == Offset(layer)
  {
  }

  /** Taking one more step adds the offset of the layer being left. */
  lemma {:induction false} ShiftSnoc(p: seq<Dir>, d: Dir, layer: nat)
    ensures Shift(p + [d], layer)
         == Shift(p, layer) + (if d == Left then -Offset(layer + |p|) else Offset(layer + |p|))
    decreases |p|
  {
    if p != [] {
      assert (p + [d])[1..] == p[1..] + [d];
      ShiftSnoc(p[1..], d, layer + 1);
    }
  }

  /** A whole subtree stays strictly within `2 * Offset(layer)` of its root, and a
      path that starts to the left (right) ends strictly left (right) of the root. */
  lemma {:induction false} ShiftBound(p: seq<Dir>, layer: nat)
    ensures -2.0 * Offset(layer) < Shift(p, layer) < 2.0 * Offset(layer)
    ensures p != [] && p[0] == Left ==> Shift(p, layer) < 0.0
    ensures p != [] && p[0] == Right ==> Shift(p, layer) > 0.0
    decreases |p|
  {
    if p != [] {
      ShiftBound(p[1..], layer + 1);
      OffsetHalves(layer);
    }
  }

  /** On an ordered tree, the node with the smaller key lies on the path with the smaller shift. */
  lemma {:induction false} ShiftInOrder(t: Tree, pa: seq<Dir>, pb: seq<Dir>, layer: nat)
    requires IsBST(t) && At(t, pa).Branch? && At(t, pb).Branch?
    requires At(t, pa).key < At(t, pb).key
    ensures Shift(pa, layer) < Shift(pb, layer)
    decreases t
  {
    var l, k, r := t.left, t.key, t.right;
    ShiftBound(pa, layer);
    ShiftBound(pb, layer);
    if pa != [] && pb != [] && pa[0] == pb[0] {
      ShiftInOrder(if pa[0] == Left then l else r, pa[1..], pb[1..], layer + 1);
    } else {
      if pa != [] { AtKeyInKeys(if pa[0] == Left then l else r, pa[1..]); }
      if pb != [] { AtKeyInKeys(if pb[0] == Left then l else r, pb[1..]); }
    }
  }

  // ---------------------------------------------------------------------
  // The drawing's layout: root at (0, 0) on layer 1

  /** A node at depth `|p| + 1` has y = -|p|, and its child in direction `d` sits at
      its x -/+ 1/2^(|p| + 1), one row lower. */
  lemma {:induction false} ChildPlacement(t: Tree, p: seq<Dir>, d: Dir)
    requires IsBST(t) && Child(At(t, p), d).Branch?
    ensures At(t, p).Branch?
    ensures At(t, p).key in Place(map[], t, 0.0, 0.0, 1)
    ensures Child(At(t, p), d).key in Place(map[], t, 0.0, 0.0, 1)
    ensures Place(map[], t, 0.0, 0.0, 1)[At(t, p).key].y == -(|p| as real)
    ensures Place(map[], t, 0.0, 0.0, 1)[Child(At(t, p), d).key]
         == Point(Place(map[], t, 0.0, 0.0, 1)[At(t, p).key].x
                    + (if d == Left then -Offset(|p| + 1) else Offset(|p| + 1)),
                  Place(map[], t, 0.0, 0.0, 1)[At(t, p).key].y - 1.0)
  {
    AtSnoc(t, p, d);
    PlaceAtPath(map[], t, p, 0.0, 0.0, 1);
    PlaceAtPath(map[], t, p + [d], 0.0, 0.0, 1);
    ShiftSnoc(p, d, 1);
  }

  /** The drawing places exactly the tree's keys, and an ordered tree's root at (0, 0). */
  lemma {:induction false} DrawingDomain(t: Tree)
    ensures Place(map[], t, 0.0, 0.0, 1).Keys == Keys(t)
    ensures t.Branch? && IsBST(t) ==> Place(map[], t, 0.0, 0.0, 1)[t.key] == Point(0.0, 0.0)
  {
    forall a | true
      ensures a in Place(map[], t, 0.0, 0.0, 1) <==> a in Keys(t)
    {
      PlaceFrame(map[], t, 0.0, 0.0, 1, a);
    }
    if t.Branch? && IsBST(t) {
      assert At(t, []) == t;
      PlaceAtPath(map[], t, [], 0.0, 0.0, 1);
    }
  }

  /** On an ordered tree no two nodes are drawn over each other: x grows strictly with the key,
      so sibling subtrees never overlap. */
  lemma {:induction false} PlaceInOrder(pos: map<int, Point>, t: Tree, x: real, y: real, layer: nat, a: int, b: int)
    requires IsBST(t) && a in Keys(t) && b in Keys(t) && a < b
    ensures a in Place(pos, t, x, y, layer) && b in Place(pos, t, x, y, layer)
    ensures Place(pos, t, x, y, layer)[a].x < Place(pos, t, x, y, layer)[b].x
  {
    var pa := KeyHasPath(t, a);
    var pb := KeyHasPath(t, b);
    PlaceAtPath(pos, t, pa, x, y, layer);
    PlaceAtPath(pos, t, pb, x, y, layer);
    ShiftInOrder(t, pa, pb, layer);
  }

  // ---------------------------------------------------------------------
  // Edges

  /** Every parent-to-child pair of the tree is an edge, and every edge is such a pair. */
  lemma {:induction false} EdgesAreParentChild(t: Tree, u: int, v: int)
    ensures (u, v) in Edges(t) <==> exists p, d :: ParentChildAt(t, p, d, u, v)
    decreases t
  {
    match t
    case Empty =>
    case Branch(l, k, r) =>
      EdgesAreParentChild(l, u, v);
      EdgesAreParentChild(r, u, v);
      if (u, v) in Edges(t) {
        if l.Branch? && (u, v) == (k, l.key) {
          assert ParentChildAt(t, [], Left, u, v);
        } else if r.Branch? && (u, v) == (k, r.key) {
          assert ParentChildAt(t, [], Right, u, v);
        } else if (u, v) in Edges(l) {
          var p, d :| ParentChildAt(l, p, d, u, v);
          assert ([Left] + p)[1..] == p;
          assert ParentChildAt(t, [Left] + p, d, u, v);
        } else {
          var p, d :| ParentChildAt(r, p, d, u, v);
          assert ([Right] + p)[1..] == p;
          assert ParentChildAt(t, [Right] + p, d, u, v);
        }
      }
      if exists p, d :: ParentChildAt(t, p, d, u, v) {
        var p, d :| ParentChildAt(t, p, d, u, v);
        if p == [] {
        } else if p[0] == Left {
          assert ParentChildAt(l, p[1..], d, u, v);
        } else {
          assert ParentChildAt(r, p[1..], d, u, v);
        }
      }
  }
}
