/** Preparing a tree for drawing: the directed graph of keys and parent-to-child
    edges, and the position of every key. The rendering itself is not modelled. */
module Drawing {
  import opened BstSpec
  import opened LayoutSpec
  import opened Bst

  /** The directed graph handed to the renderer: a set of node keys and a set of edges.
      Adding an edge also adds both of its ends, as a directed graph library does. */
  class Graph {
    var nodes: set<int>
    var edges: set<(int, int)>

    constructor ()
      ensures nodes == {} && edges == {}
    {
      nodes := {};
      edges := {};
    }

    method AddNode(k: int)
      modifies this
      ensures nodes == old(nodes) + {k} && edges == old(edges)
    {
      nodes := nodes + {k};
    }

    method AddEdge(u: int, v: int)
      modifies this
      ensures nodes == old(nodes) + {u, v} && edges == old(edges) + {(u, v)}
    {
      nodes := nodes + {u, v};
      edges := edges + {(u, v)};
    }
  }

  /** `add_edges_to_graph(graph, node, pos, x, y, layer)`: records the node at `(x, y)`,
      then handles the left child and the right child in turn. The position dictionary
      is threaded through as a value; `t` is the subtree `node` stands for. */
  method AddEdgesToGraph(graph: Graph, node: Node?, ghost t: Tree, pos: map<int, Point>, x: real, y: real, layer: nat)
    returns (pos': map<int, Point>)
    requires node != null ==> node.Valid()
    requires t == ModelOf(node)
    modifies graph
    ensures graph.nodes == old(graph.nodes) + Keys(t)
    ensures graph.edges == old(graph.edges) + Edges(t)
    ensures pos' == Place(pos, t, x, y, layer)
    decreases ReprOf(node), 0
  {
    pos' := pos;
    if node != null {
      graph.AddNode(node.key);
      pos' := pos'[node.key := Point(x, y)];
      pos' := AddChild(graph, node.key, node.left, t.left, pos', x - Offset(layer), y - 1.0, layer + 1);
      pos' := AddChild(graph, node.key, node.right, t.right, pos', x + Offset(layer), y - 1.0, layer + 1);
    }
  }

  /** One child block of `add_edges_to_graph`: for a present child, the edge from the
      parent, the child's position, then its subtree; nothing for a missing child. */
  method AddChild(graph: Graph, parent: int, child: Node?, ghost c: Tree, pos: map<int, Point>, x: real, y: real, layer: nat)
    returns (pos': map<int, Point>)
    requires child != null ==> child.Valid()
    requires c == ModelOf(child)
    requires parent in graph.nodes
    modifies graph
    ensures graph.nodes == old(graph.nodes) + Keys(c)
    ensures graph.edges == old(graph.edges) + ChildEdge(parent, c) + Edges(c)
    ensures pos' == PlaceChild(pos, c, x, y, layer)
    decreases ReprOf(child), 1
  {
    pos' := pos;
    if child != null {
      graph.AddEdge(parent, child.key);
      pos' := pos'[child.key := Point(x, y)];
      pos' := AddEdgesToGraph(graph, child, c, pos', x, y, layer);
    }
  }

  /** `draw_tree(tree_root)`: nothing to draw (false) for a missing root; otherwise the
      graph and positions built from the root at (0, 0) on layer 1, handed to the renderer (true). */
  method DrawTree(treeRoot: Node?) returns (drawn: bool, graph: Graph?, pos: map<int, Point>)
    requires treeRoot != null ==> treeRoot.Valid()
    ensures drawn <==> treeRoot != null
    ensures !drawn ==> graph == null && pos == map[]
    ensures drawn ==>
      graph != null &&
      graph.nodes == Keys(treeRoot.Model) &&
      graph.edges == Edges(treeRoot.Model) &&
      pos == Place(map[], treeRoot.Model, 0.0, 0.0, 1)
    ensures drawn ==> pos.Keys == Keys(treeRoot.Model)
    ensures drawn && IsBST(treeRoot.Model) ==> pos[treeRoot.key] == Point(0.0, 0.0)
  {
    if treeRoot == null {
      return false, null, map[];
    }
    graph := new Graph();
    pos := AddEdgesToGraph(graph, treeRoot, treeRoot.Model, map[], 0.0, 0.0, 1);
    drawn := true;
    DrawingDomain(treeRoot.Model);
  }
}
