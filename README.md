# Binary search tree queries and layout, and threaded comments, in Dafny

This project models two small tree structures and proves what their operations do.

**The binary search tree** (`task1.py`, `task2.py`, `task3.py`) is copied identically into each of the three programs.
- `Node` objects hold a key and two child links, and `BST.insert` reassigns those links in place.
- `find_max_value` walks right links.
- `find_min_value` walks left links.
- `find_sum_values` adds every key.
- `add_edges_to_graph` gives every node a coordinate and records one edge per parent and child. A child of a node at `(x, y)` on layer `L` sits at `(x ∓ 1/2^L, y - 1)`.
- `draw_tree` builds the graph and the position map from the root at `(0, 0)` on layer 1.

**The comment thread** (`task4.py`):
- a `Comment` keeps its replies in order;
- `remove_reply` soft-deletes the comment: it sets a flag and replaces the text, and keeps the replies;
- `display` lists the thread in pre-order, indenting each level by four spaces.

The modules:

- `BstSpec` (`bst_spec.dfy`) holds the tree as a value (`Tree = Empty | Branch(left, key, right)`), the ordering invariant `IsBST`, and pure `Insert` and `Build`. It also holds the rightmost and leftmost keys and `Sum`, with lemmas relating them to the key set.
- `Bst` (`bst.dfy`) holds the linked `Node` and `BST` classes. Each node carries a ghost footprint `Repr` and a ghost value `Model`. `InsertRecursive` rewrites child fields in place and is proved against `BstSpec.Insert`.
- `Queries` (`queries.dfy`):
  - `FindMaxValue` and `FindMinValue` are the link-following loops.
  - `FindSumValues` is the structural recursion over nodes.
- `LayoutSpec` (`layout_spec.dfy`) holds the layout as values:
  - `Place` is the exact sequence of position writes.
  - `Edges` is the recorded edge set.
  - `Shift` is the horizontal displacement along a path of `Left`/`Right` steps.

  Its lemmas prove:
  - where each node ends up;
  - that children are offset by `1/2^layer`;
  - that the layout is ordered left to right by key;
  - that the edges are exactly the parent and child pairs.

  Coordinates are exact reals; `1 / 2 ** layer` is `Offset(layer)`.
- `Drawing` (`drawing.dfy`) holds the directed graph as a class with a node set and an edge set. `AddEdgesToGraph` mutates that graph and threads the position map through. `DrawTree` has the empty-root guard and the boolean result.
- `Harness` (`harness.dfy`) holds the programs' own scenarios:
  - the balanced tree from 40, 20, 60, 10, 30, 50, 70;
  - the chain from 10, 20, 30;
  - the empty tree.

  Each scenario is stated with the values the programs print.
- `Comments` (`comments.dfy`) holds the `Comment` class:
  - `Valid` is the acyclicity invariant, with a ghost footprint.
  - `Display` returns the lines instead of printing them.
  - `Preorder` is the pre-order listing of the thread, each comment with its level. `Display` is proved to render it: `Display(level) == Render(Preorder(level))`.
  - The ghost method `Regather` recomputes a comment's footprint. It is needed after a reply deeper in the thread gains replies of its own, and changes nothing the program observes.
- `ThreadHarness` (`thread_harness.dfy`) holds the thread that `task4.py` builds and the four lines its display shows.

## Model

| member | source | states |
|---|---|---|
| BstSpec.Insert | task1.py:21-31 | the pure insertion: a missing tree becomes a leaf; a smaller key goes into the left subtree, a larger one into the right, an equal one changes nothing; the result is never empty and an existing root stays the root |
| BstSpec.Build | task1.py:116-118 | the tree after inserting a list's keys one after the other into an empty tree; empty exactly for the empty list, and otherwise rooted at the first key |
| BstSpec.RightmostKey | task1.py:43-48 | the key at the end of the walk along right children, a key of the tree |
| BstSpec.LeftmostKey | task2.py:42-47 | the key at the end of the walk along left children, a key of the tree |
| BstSpec.Sum | task3.py:37-41 | the sum of all keys: 0 for the empty tree, otherwise the key plus the sums of both subtrees |
| BstSpec.InsertKeys | task1.py:21-31 | after insertion the key set is the old key set plus the inserted key |
| BstSpec.InsertPreservesBST | task1.py:21-31 | insertion into an ordered tree (left keys < key < right keys) gives an ordered tree |
| BstSpec.InsertUnchangedIff | task1.py:23-31 | on an ordered tree, insertion leaves the tree unchanged if and only if the key is already present |
| BstSpec.InsertAddsOneNode | task1.py:23-31 | inserting an absent key adds exactly one node, and every existing node keeps its path and its key |
| BstSpec.BuildIsBST | task1.py:115-118 | inserting a list of keys into an empty tree one by one gives an ordered tree whose keys are exactly the list's elements |
| BstSpec.RightmostIsMax | task1.py:43-48 | on a non-empty ordered tree, the key at the end of the right-link walk is in the tree and is at least every key |
| BstSpec.LeftmostIsMin | task2.py:42-47 | on a non-empty ordered tree, the key at the end of the left-link walk is in the tree and is at most every key |
| BstSpec.SumInsert | task3.py:22-27 | inserting a present key leaves the sum unchanged; inserting an absent key adds it to the sum |
| BstSpec.SumOfBuild | task3.py:17-41 | for any list of inserted keys, the tree's sum is the sum of the list with repeated keys dropped (each key counted once) |
| BstSpec.SumOfBuildDistinct | task3.py:48-64 | for a list without repeats, such as the programs' inputs, the tree's sum is the sum of the list |
| BstSpec.KeyHasPath | task1.py:21-31 | every key of the tree sits at the end of some path of left/right steps |
| Bst.Node.constructor | task1.py:7-10 | a new node is a leaf holding the key, with no children |
| Bst.BST.constructor | task1.py:14-15 | a new tree is empty and satisfies the ordering invariant |
| Bst.BST.Insert | task1.py:17-19 | the tree stays ordered and well-formed; its value becomes the pure insertion; its key set gains exactly the key; an already present key changes nothing |
| Bst.BST.InsertRecursive | task1.py:21-31 | a missing node yields a fresh leaf; an existing node is returned itself, rewritten in place so that its subtree is the pure insertion of the key; only new nodes are added |
| Queries.FindMaxValue | task1.py:33-48 | returns None exactly when the root is missing; otherwise the rightmost key, which on an ordered tree is a key of the tree and the largest one |
| Queries.FindMinValue | task2.py:32-47 | returns None exactly when the root is missing; otherwise the leftmost key, which on an ordered tree is a key of the tree and the smallest one |
| Queries.FindSumValues | task3.py:29-41 | 0 for a missing node; otherwise the sum of all keys of the subtree |
| LayoutSpec.Offset | task1.py:68 | the horizontal distance 1/2^layer between a node on a layer and its children, always positive |
| LayoutSpec.Place | task1.py:56-83 | the position map after the program's writes for a subtree: the node at (x, y), then the left child's position and subtree one row lower and 1/2^layer to the left, then the right child's, 1/2^layer to the right |
| LayoutSpec.PlaceChild | task1.py:63-72 | one child block: nothing for a missing child, otherwise the child's position written, then the child's subtree placed from there |
| LayoutSpec.Edges | task1.py:63-76 | the set of (parent key, child key) pairs of the tree: one per present child, plus the edges of the child's subtree |
| LayoutSpec.PlaceFrame | task1.py:56-61 | placing a subtree adds exactly its keys to the position map and keeps every other entry |
| LayoutSpec.PlaceAtPath | task1.py:52-83 | on an ordered tree, the node at the end of a path is placed at the start x plus the path's shift, as many rows below the start as the path has steps |
| LayoutSpec.ChildPlacement | task1.py:63-83 | in the drawing from (0, 0) on layer 1, a node reached by n steps is on row -n; its left child is at x - 1/2^(n+1) and its right child at x + 1/2^(n+1), one row lower |
| LayoutSpec.ShiftBound | task1.py:67-79 | a path's total horizontal shift from layer L lies strictly within ±2/2^L, and its sign is the direction of its first step |
| LayoutSpec.ShiftInOrder | task1.py:63-83 | on an ordered tree, a smaller key's path has a smaller shift than a larger key's path |
| LayoutSpec.PlaceInOrder | task1.py:63-83 | on an ordered tree, a smaller key is drawn strictly left of a larger key |
| LayoutSpec.DrawingDomain | task1.py:52-61 | the drawing from an empty map has exactly the tree's keys; on an ordered tree the root is at (0, 0) |
| LayoutSpec.EdgesAreParentChild | task1.py:63-76 | (u, v) is a recorded edge if and only if some node with key u has a child with key v |
| Drawing.Graph.constructor | task1.py:92 | a new directed graph has no nodes and no edges |
| Drawing.Graph.AddNode | task1.py:58 | adding a node adds its key to the nodes and leaves the edges alone |
| Drawing.Graph.AddEdge | task1.py:65 | adding an edge adds the edge and both of its ends |
| Drawing.AddEdgesToGraph | task1.py:52-83 | the graph gains exactly the subtree's keys and parent-child edges; the returned positions are the map after the node's and its children's position writes, in program order |
| Drawing.AddChild | task1.py:63-72 | for a present child: the parent-to-child edge, the child's position, then the child's subtree; for a missing child: nothing |
| Drawing.DrawTree | task2.py:84-108 | false with nothing built exactly when the root is missing; otherwise true, with a graph of all keys and parent-child edges, a position map over exactly the keys, and the root at (0, 0) |
| Harness.BuildTree | task1.py:115-118 | a fresh tree whose value is the list inserted in order |
| Harness.BalancedShape | task1.py:115-118 | 40, 20, 60, 10, 30, 50, 70 build the complete tree of height 3 rooted at 40 |
| Harness.ChainShape | task1.py:125-128 | 10, 20, 30 build a chain of right children |
| Harness.ChainLayout | task1.py:132 | the chain is drawn at (0, 0), (0.5, -1) and (0.75, -2) |
| Harness.MaxScenarios | task1.py:114-144 | the maxima are 70, 30 and None |
| Harness.MinScenarios | task2.py:114-143 | the minima are 10, 10 and None |
| Harness.SumScenarios | task3.py:45-71 | the sums are 280, 60 and 0 |
| Harness.DrawScenarios | task2.py:114-132 | both non-empty trees are drawn and the empty one is not; the chain's positions are as in ChainLayout |
| Comments.Indent | task4.py:34 | the indentation of level n is 4·n spaces |
| Comments.Comment.constructor | task4.py:9-13 | a new comment has the given text and author, no replies, and is not deleted |
| Comments.Comment.AddReply | task4.py:15-17 | the reply is appended after the earlier replies; nothing else of the comment changes; an acyclic thread stays acyclic when the reply does not lead back to it, and the lines below the comment gain the reply's lines at the end |
| Comments.Comment.RemoveReply | task4.py:19-27 | the comment is deleted and its text is the deleted message; replies and author are kept; a second call changes nothing; the display changes in the comment's own line only |
| Comments.Comment.Label | task4.py:36-41 | what the comment's line shows after the indentation: the deleted message for a deleted comment, otherwise `author: text` |
| Comments.Comment.Display | task4.py:29-46 | a comment's display has at least one line (its own line followed by its replies' lines, as `DisplayIsPreorder` pins down) |
| Comments.ThreadLines | task4.py:44-46 | the lines of a list of replies: each reply's display in list order, all at the same level |
| Comments.Comment.Preorder | task4.py:36-46 | the pre-order of a thread starts with the comment at its level; every later entry is a comment of the thread at a deeper level |
| Comments.Render | task4.py:34-41 | one line per entry: the indentation of its level, then the deleted message or `author: text` |
| Comments.Comment.DisplayIsPreorder | task4.py:36-46 | the display is exactly one line per comment of the thread, in pre-order, each indented by its level |
| Comments.ThreadDisplayIsPreorder | task4.py:44-46 | the lines of a list of replies are the pre-orders of the replies in list order |
| Comments.ThreadLinesAppend | task4.py:44-46 | one more reply at the end of the list adds its lines at the end |
| ThreadHarness.BuildThread | task4.py:50-63 | the program's thread: the root with two replies, the first reply deleted and holding one reply of its own |
| ThreadHarness.ThreadLayout | task4.py:65-66 | a thread of that shape is acyclic and is displayed as root, first reply, its reply, second reply on levels 0, 1, 2, 1 |
| ThreadHarness.ThreadScenario | task4.py:49-66 | the display shows exactly the program's four lines, with the deleted message in place of the first reply |

## Left out

- The networkx graph object and the matplotlib drawing, in `draw_tree` after the graph and positions are built. The graph is a node set and an edge set. The `label` attribute on nodes, the label dictionary and the rendering are not modelled.
- Floating-point arithmetic in `1 / 2 ** layer`: positions are exact reals. The values are dyadic, so the floats agree with them at the depths the programs draw.
- `print` output and the `__main__` blocks: their inputs and printed values are the `Harness` and `ThreadHarness` scenarios. `display` returns its lines instead of printing them.
- Python's duck-typed key comparison: keys are `int`, so sums are exact and cannot overflow.
- Drawing.AddEdgesToGraph: the position dictionary is passed in and returned as a value instead of being mutated through an alias. The sequence of writes to it is the same.
- Drawing.DrawTree: follows `task2.py`, which returns True after drawing. `task1.py:85-108` returns False for a missing root but falls off the end (None) after drawing, so only its empty-root guard is modelled.
- Comments.Comment.Display: requires the thread to be acyclic. A reply that leads back to its own comment makes the Python `display` print lines until it exceeds the interpreter's recursion limit and raises `RecursionError`.
- Comments.Comment.AddReply: states its effect on the display only when the thread stays acyclic. The append itself is stated unconditionally.
