/** Ordered iteration over src/rb_tree.c: rb_tree_next and rb_tree_prev. */
module RbWalk {
  import opened Lists
  import opened RbTheory
  import opened RbMemory
  import opened RbRebalance
  import opened RbRepair
  import opened RbHead
  import opened RbRemoval

  // ---------- the neighbours of an element in a sequence without repeats ----------

  ghost function IndexOf(s: seq<Node>, x: Node): (i: nat)
    requires x in s
    ensures i < |s| && s[i] == x
  {
    if s[0] == x then 0 else 1 + IndexOf(s[1..], x)
  }

  ghost function NextIn(s: seq<Node>, x: Node): Node?
    requires x in s
  {
    if IndexOf(s, x) + 1 < |s| then s[IndexOf(s, x) + 1] else null
  }

  ghost function PrevIn(s: seq<Node>, x: Node): Node?
    requires x in s
  {
    if IndexOf(s, x) > 0 then s[IndexOf(s, x) - 1] else null
  }

  lemma IndexUnique(s: seq<Node>, x: Node, i: nat)
    requires NoRepeats(s) && i < |s| && s[i] == x
    ensures IndexOf(s, x) == i
  {
  }

  /** Next and prev undo each other, and stop exactly at the two ends. */
  lemma NextPrevInverse(s: seq<Node>, x: Node, y: Node)
    requires NoRepeats(s) && x in s && y in s
    ensures NextIn(s, x) == y <==> PrevIn(s, y) == x
    ensures NextIn(s, x) == null <==> x == s[|s| - 1]
    ensures PrevIn(s, x) == null <==> x == s[0]
  {
    var i, j := IndexOf(s, x), IndexOf(s, y);
    if i + 1 < |s| {
      IndexUnique(s, s[i + 1], i + 1);
    }
    if j > 0 {
      IndexUnique(s, s[j - 1], j - 1);
    }
    IndexUnique(s, s[0], 0);
    IndexUnique(s, s[|s| - 1], |s| - 1);
  }

  // What repeated next visits.
  ghost function WalkFrom(s: seq<Node>, x: Node): seq<Node>
    requires NoRepeats(s) && x in s
    decreases |s| - IndexOf(s, x)
  {
    if NextIn(s, x) == null then [x]
    else
      var y: Node := NextIn(s, x);
      IndexUnique(s, y, IndexOf(s, x) + 1);
      [x] + WalkFrom(s, y)
  }

  /** From the k-th element it visits the rest of the sequence, each element once. */
  lemma {:induction false} WalkVisitsAll(s: seq<Node>, k: nat)
    requires NoRepeats(s) && k < |s|
    ensures WalkFrom(s, s[k]) == s[k..]
    decreases |s| - k
  {
    IndexUnique(s, s[k], k);
    if k + 1 < |s| {
      WalkVisitsAll(s, k + 1);
    }
  }

  // ---------- the pointer code ----------

  // The place of a focus in the whole.
  lemma FocusIndex(w: Tree<Node>, p: Path<Node>, t: Tree<Node>)
    requires Plug(p, t) == w && t.Branch? && Distinct(w)
    ensures t.elem in Inorder(w) && IndexOf(Inorder(w), t.elem) == |Before(p)| + |Inorder(t.left)|
    ensures |Inorder(w)| == |Before(p)| + |Inorder(t)| + |After(p)|
  {
    DistinctNoRepeats(w);
    RemovedInorder(Black, p, t);
    IndexUnique(Inorder(w), t.elem, |Before(p)| + |Inorder(t.left)|);
  }

  // A focus is at the root exactly when its node is, and otherwise the parent's links say on which side.
  lemma RootCheck(m: Memory, p: Path<Node>, t: Tree<Node>, head: Node, nil: Node)
    requires Rep(m, p, t, head, nil) && t.Branch?
    ensures head in m && (p.Top? <==> m[head].left == t.elem)
    ensures !p.Top? ==>
      && t.elem in m && m[t.elem].parent == p.elem && p.elem in m
      && (m[p.elem].left == t.elem <==> p.InLeft?) && (m[p.elem].right == t.elem <==> p.InRight?)
  {
    RootAboveInside(p, t.elem);
    HeadPointsToRoot(m, p, t.elem, head, nil);
  }

  // The successor of a node with a right subtree is that subtree's first node.
  method FirstBelow(tree: RbHead, node0: Node, ghost p: Path<Node>, ghost t: Tree<Node>) returns (node: Node)
    requires tree.Shape() && Plug(p, t) == tree.tree && t.Branch? && t.elem == node0 && t.right.Branch?
    ensures var s := Inorder(tree.tree); node0 in s && node in s && IndexOf(s, node) == IndexOf(s, node0) + 1
  {
    ghost var m, w := Snapshot(tree.nodes), tree.tree;
    ghost var head, nil := tree.head, tree.nil;
    FocusTop(m, p, t, head, nil);
    ghost var q, s := InRight(p, t.left, t.elem, t.color), t.right;
    FocusUp(m, q, s, head, nil);
    node := node0.right;
    while node.left != tree.nil
      invariant Rep(m, q, s, head, nil) && s.Branch? && node == s.elem && Plug(q, s) == w
      invariant |Before(q)| == |Before(p)| + |Inorder(t.left)| + 1
      decreases s
    {
      node := node.left;
      q, s := InLeft(q, s.elem, s.color, s.right), s.left;
      FocusUp(m, q, s, head, nil);
    }
    FocusIndex(w, p, t);
    FocusIndex(w, q, s);
  }

  // The focus at node, in the tree w.
  ghost predicate At(m: Memory, w: Tree<Node>, q: Path<Node>, s: Tree<Node>, head: Node, nil: Node, node: Node) {
    Rep(m, q, s, head, nil) && s.Branch? && node == s.elem && Plug(q, s) == w && Distinct(w)
  }

  // A climb starts where its node stands in the order.
  lemma StartClimb(m: Memory, w: Tree<Node>, q: Path<Node>, s: Tree<Node>, head: Node, nil: Node, node: Node)
    requires Rep(m, Top, w, head, nil) && Plug(q, s) == w && s.Branch? && node == s.elem
    ensures At(m, w, q, s, head, nil, node) && node in Inorder(w)
    ensures IndexOf(Inorder(w), node) == |Before(q)| + |Inorder(s.left)|
  {
    FocusTop(m, q, s, head, nil);
    FocusIndex(w, q, s);
  }

  // One step up from a focus that is not at the root, and where the parent stands in the order.
  lemma StepUp(m: Memory, w: Tree<Node>, q: Path<Node>, s: Tree<Node>, head: Node, nil: Node, node: Node)
    requires At(m, w, q, s, head, nil, node) && head in m && m[head].left != node
    ensures !q.Top? && node in m && q.elem in m && m[node].parent == q.elem
    ensures (m[q.elem].left == node <==> q.InLeft?) && (m[q.elem].right == node <==> q.InRight?)
    ensures At(m, w, q.up, Lift(q, s), head, nil, q.elem) && q.elem in Inorder(w)
    ensures q.InLeft? ==> IndexOf(Inorder(w), q.elem) == |Before(q)| + |Inorder(s)| && |Before(q.up)| == |Before(q)|
    ensures q.InRight? ==> IndexOf(Inorder(w), q.elem) + 1 == |Before(q)|
    ensures q.InRight? ==> |Before(q.up)| + |Inorder(Lift(q, s))| == |Before(q)| + |Inorder(s)|
  {
    RootCheck(m, q, s, head, nil);
    FocusUp(m, q, s, head, nil);
    FocusIndex(w, q.up, Lift(q, s));
  }

  // What a climb reads of the heap in one step.
  method ReadParent(tree: RbHead, node: Node, ghost q: Path<Node>, ghost s: Tree<Node>)
    returns (parent: Node, left: bool, right: bool)
    requires tree.Shape() && At(Snapshot(tree.nodes), tree.tree, q, s, tree.head, tree.nil, node)
    requires node != tree.head.left
    ensures Surrounds(tree, q, s, parent, |Before(q)|, |Before(q)| + |Inorder(s)|)
    ensures (left <==> q.InLeft?) && (right <==> q.InRight?)
  {
    StepUp(Snapshot(tree.nodes), tree.tree, q, s, tree.head, tree.nil, node);
    parent := node.parent;
    left, right := parent.left == node, parent.right == node;
  }

  // The parent of a focus that covers the places from lo to hi.
  ghost predicate Surrounds(tree: RbHead, q: Path<Node>, s: Tree<Node>, parent: Node, lo: nat, hi: nat)
    requires s.Branch?
    reads tree, tree.nodes
  {
    && !q.Top? && At(Snapshot(tree.nodes), tree.tree, q.up, Lift(q, s), tree.head, tree.nil, parent)
    && parent in Inorder(tree.tree)
    && (q.InLeft? ==> IndexOf(Inorder(tree.tree), parent) == hi && |Before(q.up)| == lo)
    && (q.InRight? ==> IndexOf(Inorder(tree.tree), parent) + 1 == lo && |Before(q.up)| + |Inorder(Lift(q, s))| == hi)
  }

  // Without one it is the nearest ancestor reached from the left.
  method ClimbFromLeft(tree: RbHead, node0: Node, ghost p: Path<Node>, ghost t: Tree<Node>) returns (r: Node?)
    requires tree.Shape() && Plug(p, t) == tree.tree && t.Branch? && t.elem == node0 && t.right.Leaf?
    ensures node0 in Inorder(tree.tree) && r == NextIn(Inorder(tree.tree), node0)
  {
    var node: Node := node0;
    ghost var m, w := Snapshot(tree.nodes), tree.tree;
    ghost var q, s := p, t;
    StartClimb(m, w, q, s, tree.head, tree.nil, node0);
    ghost var k := IndexOf(Inorder(w), node0);
    while node != tree.head.left
      invariant At(m, w, q, s, tree.head, tree.nil, node) && |Before(q)| + |Inorder(s)| == k + 1
      decreases Depth(q)
    {
      var parent, left, _ := ReadParent(tree, node, q, s);
      if left {
        return parent;
      }
      node := parent;
      q, s := q.up, Lift(q, s);
    }
    EndOfClimb(m, w, q, s, tree.head, tree.nil, node);
    return null;
  }

  // At the root nothing lies outside the focus.
  lemma EndOfClimb(m: Memory, w: Tree<Node>, q: Path<Node>, s: Tree<Node>, head: Node, nil: Node, node: Node)
    requires At(m, w, q, s, head, nil, node) && head in m && m[head].left == node
    ensures |Before(q)| == 0 && |Inorder(s)| == |Inorder(w)|
  {
    RootCheck(m, q, s, head, nil);
  }

  /** rb_tree_next */
  method Next(tree: RbHead, node: Node) returns (r: Node?)
    requires tree.Shape() && node in Nodes(tree.tree)
    ensures node in Inorder(tree.tree) && r == NextIn(Inorder(tree.tree), node)
  {
    ghost var (p, t) := Focus(Top, tree.tree, node);
    FocusTop(Snapshot(tree.nodes), p, t, tree.head, tree.nil);
    if node.right != tree.nil {
      r := FirstBelow(tree, node, p, t);
    } else {
      r := ClimbFromLeft(tree, node, p, t);
    }
  }

  // The predecessor of a node with a left subtree is that subtree's last node.
  method LastBelow(tree: RbHead, node0: Node, ghost p: Path<Node>, ghost t: Tree<Node>) returns (node: Node)
    requires tree.Shape() && Plug(p, t) == tree.tree && t.Branch? && t.elem == node0 && t.left.Branch?
    ensures var s := Inorder(tree.tree); node0 in s && node in s && IndexOf(s, node) + 1 == IndexOf(s, node0)
  {
    ghost var m, w := Snapshot(tree.nodes), tree.tree;
    ghost var head, nil := tree.head, tree.nil;
    FocusTop(m, p, t, head, nil);
    ghost var q, s := InLeft(p, t.elem, t.color, t.right), t.left;
    FocusUp(m, q, s, head, nil);
    node := node0.left;
    while node.right != tree.nil
      invariant Rep(m, q, s, head, nil) && s.Branch? && node == s.elem && Plug(q, s) == w
      invariant |Before(q)| + |Inorder(s)| == |Before(p)| + |Inorder(t.left)|
      decreases s
    {
      node := node.right;
      q, s := InRight(q, s.left, s.elem, s.color), s.right;
      FocusUp(m, q, s, head, nil);
    }
    FocusIndex(w, p, t);
    FocusIndex(w, q, s);
  }

  // Without one it is the nearest ancestor reached from the right.
  method ClimbFromRight(tree: RbHead, node0: Node, ghost p: Path<Node>, ghost t: Tree<Node>) returns (r: Node?)
    requires tree.Shape() && Plug(p, t) == tree.tree && t.Branch? && t.elem == node0 && t.left.Leaf?
    ensures node0 in Inorder(tree.tree) && r == PrevIn(Inorder(tree.tree), node0)
  {
    var node: Node := node0;
    ghost var m, w := Snapshot(tree.nodes), tree.tree;
    ghost var q, s := p, t;
    StartClimb(m, w, q, s, tree.head, tree.nil, node0);
    ghost var k := IndexOf(Inorder(w), node0);
    while node != tree.head.left
      invariant At(m, w, q, s, tree.head, tree.nil, node) && |Before(q)| == k
      decreases Depth(q)
    {
      var parent, _, right := ReadParent(tree, node, q, s);
      if right {
        return parent;
      }
      node := parent;
      q, s := q.up, Lift(q, s);
    }
    EndOfClimb(m, w, q, s, tree.head, tree.nil, node);
    return null;
  }

  /** rb_tree_prev */
  method Prev(tree: RbHead, node: Node) returns (r: Node?)
    requires tree.Shape() && node in Nodes(tree.tree)
    ensures node in Inorder(tree.tree) && r == PrevIn(Inorder(tree.tree), node)
  {
    ghost var (p, t) := Focus(Top, tree.tree, node);
    FocusTop(Snapshot(tree.nodes), p, t, tree.head, tree.nil);
    if node.left != tree.nil {
      r := LastBelow(tree, node, p, t);
    } else {
      r := ClimbFromRight(tree, node, p, t);
    }
  }

  // ---------- walks ----------

  // The first node in order, by the pointers.
  method First(tree: RbHead) returns (node: Node)
    requires tree.Shape() && tree.tree.Branch?
    ensures node in Nodes(tree.tree) && node in Inorder(tree.tree) && IndexOf(Inorder(tree.tree), node) == 0
  {
    ghost var m, w := Snapshot(tree.nodes), tree.tree;
    RootCheck(m, Top, w, tree.head, tree.nil);
    node := GetMin(tree.head.left, tree.nil, tree.nodes, Top, w, tree.head);
    ghost var (q, s) := Leftmost(Top, w);
    LeftmostIs(Top, w);
    FocusIndex(w, q, s);
    InorderNodes(w);
  }

  // The walk has come to node.
  ghost predicate Visited(s: seq<Node>, visited: seq<Node>, node: Node) {
    node in s && |visited| <= |s| && IndexOf(s, node) == |visited| - 1 && visited == s[..|visited|]
  }

  lemma VisitNext(s: seq<Node>, visited: seq<Node>, node: Node)
    requires NoRepeats(s) && Visited(s, visited, node) && NextIn(s, node) != null
    ensures var next: Node := NextIn(s, node); |visited| < |s| && Visited(s, visited + [next], next)
  {
    IndexUnique(s, s[|visited|], |visited|);
  }

  /** Repeated rb_tree_next from the first node visits every node once, in order. */
  method WalkAll(tree: RbHead) returns (visited: seq<Node>)
    requires tree.Shape() && tree.tree.Branch?
    ensures visited == Inorder(tree.tree)
  {
    ghost var s := Inorder(tree.tree);
    DistinctNoRepeats(tree.tree);
    InorderNodes(tree.tree);
    var node: Node := First(tree);
    visited := [node];
    var next := Next(tree, node);
    while next != null
      invariant Visited(s, visited, node) && next == NextIn(s, node)
      decreases |s| - |visited|
    {
      VisitNext(s, visited, node);
      node := next;
      visited := visited + [node];
      next := Next(tree, node);
    }
  }

  /** rb_tree_next and then rb_tree_prev come back to the node, unless it is the last. */
  method NextThenPrev(tree: RbHead, node: Node) returns (back: Node?)
    requires tree.Shape() && node in Nodes(tree.tree)
    ensures var s := Inorder(tree.tree);
      s != [] && back == if node == s[|s| - 1] then null else node
  {
    ghost var s := Inorder(tree.tree);
    DistinctNoRepeats(tree.tree);
    InorderNodes(tree.tree);
    var next := Next(tree, node);
    NextPrevInverse(s, node, node);
    if next == null {
      return null;
    }
    NextPrevInverse(s, node, next);
    back := Prev(tree, next);
  }

  /** And the other way round. */
  method PrevThenNext(tree: RbHead, node: Node) returns (back: Node?)
    requires tree.Shape() && node in Nodes(tree.tree)
    ensures var s := Inorder(tree.tree);
      s != [] && back == if node == s[0] then null else node
  {
    ghost var s := Inorder(tree.tree);
    DistinctNoRepeats(tree.tree);
    InorderNodes(tree.tree);
    var prev := Prev(tree, node);
    NextPrevInverse(s, node, node);
    if prev == null {
      return null;
    }
    NextPrevInverse(s, prev, node);
    back := Next(tree, prev);
  }
}
