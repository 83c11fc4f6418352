/** The tree as its callers see it: src/pcinfo_rb_tree.c over src/rb_tree.c. */
module RbHead {
  import opened Arithmetic
  import opened Lists
  import opened RbTheory
  import opened RbMemory
  import opened RbRotation
  import opened RbRebalance
  import opened RbRemoval
  import opened RbHeight

  ghost predicate SortedByPid(s: seq<Node>) {
    forall i, j | 0 <= i < j < |s| :: s[i].pid <= s[j].pid
  }

  ghost predicate AllAtMost(s: seq<Node>, pid: int) {
    forall x | x in s :: x.pid <= pid
  }

  ghost predicate AllAbove(s: seq<Node>, pid: int) {
    forall x | x in s :: x.pid > pid
  }

  // A search for pid went this way: everything left behind is on the right side of it.
  ghost predicate Passed(p: Path<Node>, pid: int) {
    AllAtMost(Before(p), pid) && AllAbove(After(p), pid)
  }

  lemma SortedParts(l: seq<Node>, x: Node, r: seq<Node>)
    requires SortedByPid(l + [x] + r)
    ensures SortedByPid(l) && SortedByPid(r) && AllAtMost(l, x.pid) && (forall y | y in r :: x.pid <= y.pid)
  {
    var s := l + [x] + r;
    assert forall i | 0 <= i < |l| :: s[i] == l[i];
    assert s[|l|] == x;
    assert forall i | 0 <= i < |r| :: s[|l| + 1 + i] == r[i];
  }

  lemma PassLeft(p: Path<Node>, t: Tree<Node>, pid: int)
    requires t.Branch? && Passed(p, pid) && SortedByPid(Inorder(t)) && pid < t.elem.pid
    ensures Passed(InLeft(p, t.elem, t.color, t.right), pid) && SortedByPid(Inorder(t.left))
  {
    SortedParts(Inorder(t.left), t.elem, Inorder(t.right));
  }

  lemma PassRight(p: Path<Node>, t: Tree<Node>, pid: int)
    requires t.Branch? && Passed(p, pid) && SortedByPid(Inorder(t)) && pid >= t.elem.pid
    ensures Passed(InRight(p, t.left, t.elem, t.color), pid) && SortedByPid(Inorder(t.right))
  {
    SortedParts(Inorder(t.left), t.elem, Inorder(t.right));
  }

  // Where a descent for pid leaves the tree.
  ghost function Place(p: Path<Node>, t: Tree<Node>, pid: int): Path<Node>
    decreases t
  {
    if t.Leaf? then p
    else if pid < t.elem.pid then Place(InLeft(p, t.elem, t.color, t.right), t.left, pid)
    else Place(InRight(p, t.left, t.elem, t.color), t.right, pid)
  }

  // The focus at x.
  ghost function Focus(p: Path<Node>, t: Tree<Node>, x: Node): (r: (Path<Node>, Tree<Node>))
    requires x in Nodes(t)
    ensures r.1.Branch? && r.1.elem == x && Plug(r.0, r.1) == Plug(p, t)
    decreases t
  {
    if x == t.elem then (p, t)
    else if x in Nodes(t.left) then Focus(InLeft(p, t.elem, t.color, t.right), t.left, x)
    else Focus(InRight(p, t.left, t.elem, t.color), t.right, x)
  }

  lemma {:induction false} InorderNodes(t: Tree<Node>)
    ensures forall i | 0 <= i < |Inorder(t)| :: Inorder(t)[i] in Nodes(t)
    ensures forall x | x in Nodes(t) :: x in Inorder(t)
  {
    if t.Branch? {
      InorderNodes(t.left);
      InorderNodes(t.right);
      var l, r := Inorder(t.left), Inorder(t.right);
      forall i | 0 <= i < |Inorder(t)| ensures Inorder(t)[i] in Nodes(t) {
        assert Inorder(t)[i] == if i < |l| then l[i] else if i == |l| then t.elem else r[i - |l| - 1];
      }
    }
  }

  lemma NoRepeatsConcat(l: seq<Node>, x: Node, r: seq<Node>)
    requires NoRepeats(l) && NoRepeats(r) && x !in l && x !in r
    requires forall i, j | 0 <= i < |l| && 0 <= j < |r| :: l[i] != r[j]
    ensures NoRepeats(l + [x] + r)
  {
    var s := l + [x] + r;
    forall i, j | 0 <= i < j < |s| ensures s[i] != s[j] {
      if i < |l| && j > |l| {
        assert s[i] == l[i] && s[j] == r[j - |l| - 1];
      }
    }
  }

  lemma {:induction false} DistinctNoRepeats(t: Tree<Node>)
    requires Distinct(t)
    ensures NoRepeats(Inorder(t))
  {
    if t.Branch? {
      DistinctNoRepeats(t.left);
      DistinctNoRepeats(t.right);
      InorderNodes(t.left);
      InorderNodes(t.right);
      NoRepeatsConcat(Inorder(t.left), t.elem, Inorder(t.right));
    }
  }

  // A new leaf linked into the hole of q.
  lemma LinkedLeafRep(m: Memory, m': Memory, q: Path<Node>, node: Node, head: Node, nil: Node)
    requires Rep(m, q, Leaf, head, nil) && !q.Top? && node !in m && head != node
    requires q.elem in m && m'.Keys == m.Keys + {node}
    requires forall n | n in m && n != q.elem :: m'[n] == m[n]
    requires m'[q.elem] == if q.InLeft? then m[q.elem].(left := node) else m[q.elem].(right := node)
    requires m'[node].parent == q.elem && m'[node].left == nil && m'[node].right == nil
    ensures Rep(m', q, Branch(Leaf, node, m'[node].color, Leaf), head, nil)
  {
    PathKnown(m, q, nil, head, nil);
    LinkedFrame(m, m', Sibling(q), q.elem, nil);
    PathFrame(m, m', q.up, q.elem, head, nil);
  }

  // Every node of a linked tree or path is in memory.
  lemma {:induction false} TreeKnown(m: Memory, t: Tree<Node>, up: Node, nil: Node)
    requires Linked(m, t, up, nil)
    ensures forall x | x in Nodes(t) :: x in m
    decreases t
  {
    if t.Branch? {
      TreeKnown(m, t.left, t.elem, nil);
      TreeKnown(m, t.right, t.elem, nil);
    }
  }

  lemma {:induction false} PathKnown(m: Memory, p: Path<Node>, at: Node, head: Node, nil: Node)
    requires PathLinked(m, p, at, head, nil)
    ensures head in m && forall x | x in PathNodes(p) :: x in m
    decreases p
  {
    if !p.Top? {
      TreeKnown(m, Sibling(p), p.elem, nil);
      PathKnown(m, p.up, p.elem, head, nil);
    }
  }

  lemma SortedInsert(l: seq<Node>, x: Node, r: seq<Node>)
    requires SortedByPid(l + r) && AllAtMost(l, x.pid) && AllAbove(r, x.pid)
    ensures SortedByPid(l + [x] + r)
  {
    var s := l + [x] + r;
    forall i, j | 0 <= i < j < |s| ensures s[i].pid <= s[j].pid {
      if j < |l| {
        assert (l + r)[i].pid <= (l + r)[j].pid;
      } else if |l| < i {
        assert (l + r)[i - 1].pid <= (l + r)[j - 1].pid;
      } else if i == |l| {
        assert s[j] in r;
      } else if j == |l| {
        assert s[i] in l;
      } else {
        assert s[i] in l && s[j] in r;
      }
    }
  }

  lemma SortedDrop(l: seq<Node>, x: Node, r: seq<Node>)
    requires SortedByPid(l + [x] + r)
    ensures SortedByPid(l + r)
  {
    SortedParts(l, x, r);
    var s := l + r;
    forall i, j | 0 <= i < j < |s| ensures s[i].pid <= s[j].pid {
      if i < |l| && j >= |l| {
        assert s[i] in l && s[j] in r;
      } else if i >= |l| {
        assert s[i] == r[i - |l|] && s[j] == r[j - |l|];
      } else {
        assert s[i] == l[i] && s[j] == l[j];
      }
    }
  }

  lemma OneNode(m: Memory, root: Node, head: Node, nil: Node)
    requires nil in m && Childless(m[nil]) && root in m && head in m && nil != root && nil != head && root != head
    requires m[root] == Cell(Black, head, nil, nil) && m[head].left == root
    ensures var t := Branch(Leaf, root, Black, Leaf);
      Rep(m, Top, t, head, nil) && RedBlack(t) && SortedByPid(Inorder(t)) && Inorder(t) == [root]
  {
    var t := Branch(Leaf, root, Black, Leaf);
    assert Nodes(t) == {root};
    assert Inorder(t) == [] + [root] + [];
  }

  /** rb_tree_head_t with the tree it heads.  `nodes` is what the heap may use: the
      head's pre_root, the sentinel and the nodes linked in. */
  class RbHead {
    const head: Node
    const nil: Node
    ghost var nodes: set<Node>
    ghost var tree: Tree<Node>

    // Links, parents and colours are those of `tree`, which is sorted by pid.
    ghost predicate Shape()
      reads this, nodes
    {
      head in nodes && Rep(Snapshot(nodes), Top, tree, head, nil) && SortedByPid(Inorder(tree))
    }

    ghost predicate Valid()
      reads this, nodes
    {
      Shape() && RedBlack(tree)
    }

    // Red nodes have black children and the root is black: all an insertion relies on.
    ghost predicate Colored()
      reads this
    {
      NoRedRed(tree) && TreeColor(tree) == Black
    }

    // A sentinel that is still red has not spoilt anything yet: true after rb_tree_init, and kept.
    ghost predicate Unspoilt()
      reads this, nil
    {
      nil.color == Red ==> RedBlack(tree)
    }

    // rb_tree_init
    constructor (preRoot: Node, root: Node, nil: Node)
      requires preRoot != root && preRoot != nil && root != nil && nil.left == null && nil.right == null
      modifies preRoot, root
      ensures Valid() && head == preRoot && this.nil == nil && nodes == {preRoot, root, nil}
      ensures tree == Branch(Leaf, root, Black, Leaf) && Inorder(tree) == [root] && nil.color == old(nil.color)
    {
      head := preRoot;
      this.nil := nil;
      nodes := {preRoot, root, nil};
      tree := Branch(Leaf, root, Black, Leaf);
      new;
      preRoot.color := Black;
      preRoot.parent := root;
      preRoot.left := root;
      preRoot.right := root;
      root.parent := preRoot;
      root.color := Black;
      root.left := nil;
      root.right := nil;
      OneNode(Snapshot(nodes), root, preRoot, nil);
    }

    // The descent of pcinfo_rb_tree_insert: p is the node to hang a new one below.
    method FindPlace(pid: int) returns (p: Node, ghost q: Path<Node>)
      requires Shape() && tree.Branch?
      ensures Plug(q, Leaf) == tree && q == Place(Top, tree, pid) && Passed(q, pid)
      ensures !q.Top? && q.elem == p && (q.InLeft? <==> pid < p.pid)
      ensures Rep(Snapshot(nodes), q, Leaf, head, nil)
    {
      ghost var m := Snapshot(nodes);
      p := head.left;
      q := Top;
      ghost var s := tree;
      while true
        invariant Rep(m, q, s, head, nil) && s.Branch? && p == s.elem
        invariant Plug(q, s) == tree && Place(q, s, pid) == Place(Top, tree, pid)
        invariant Passed(q, pid) && SortedByPid(Inorder(s))
        decreases s
      {
        if pid < p.pid {
          PassLeft(q, s, pid);
          q, s := InLeft(q, s.elem, s.color, s.right), s.left;
          FocusUp(m, q, s, head, nil);
          if p.left == nil {
            break;
          }
          p := p.left;
        } else {
          PassRight(q, s, pid);
          q, s := InRight(q, s.left, s.elem, s.color), s.right;
          FocusUp(m, q, s, head, nil);
          if p.right == nil {
            break;
          }
          p := p.right;
        }
      }
    }

    // The links the descent ends with.
    method Hang(node: Node, p: Node, ghost q: Path<Node>)
      requires head in nodes && Rep(Snapshot(nodes), q, Leaf, head, nil) && !q.Top? && p == q.elem
      requires q.InLeft? <==> node.pid < p.pid
      requires node !in nodes && node.left == nil && node.right == nil
      modifies p, node
      ensures Rep(Snapshot(nodes + {node}), q, Branch(Leaf, node, node.color, Leaf), head, nil)
      ensures nil.color == old(nil.color)
    {
      ghost var m := Snapshot(nodes);
      PathKnown(m, q, nil, head, nil);
      if node.pid < p.pid {
        p.left := node;
      } else {
        p.right := node;
      }
      node.parent := p;
      LinkedLeafRep(m, Snapshot(nodes + {node}), q, node, head, nil);
    }

    /** pcinfo_rb_tree_insert.  The node comes after every pid not above its own, also in a tree
        that a red sentinel has unbalanced; a red-black tree stays red-black exactly when the
        sentinel is not a red uncle at the place found. */
    method Insert(node: Node) returns (ghost k: nat)
      requires Shape() && Colored() && tree.Branch? && node !in nodes && node.left == nil && node.right == nil
      modifies this, nodes, node
      ensures Shape() && Colored() && nodes == old(nodes) + {node} && tree.Branch?
      ensures var q := Place(Top, old(tree), node.pid);
        && tree == InsertFix(old(nil.color), q, Branch(Leaf, node, Red, Leaf))
        && nil.color == NilAfterInsert(old(nil.color), q)
      ensures k <= |old(Inorder(tree))| && Inorder(tree) == old(Inorder(tree))[..k] + [node] + old(Inorder(tree))[k..]
      ensures AllAtMost(old(Inorder(tree))[..k], node.pid) && AllAbove(old(Inorder(tree))[k..], node.pid)
      ensures old(RedBlack(tree)) ==>
        && (RedBlack(tree) <==> !RedNilUncle(old(nil.color), Place(Top, old(tree), node.pid)))
        && nil.color == if RedBlack(tree) then old(nil.color) else Black
      ensures old(Unspoilt()) ==> Unspoilt()
    {
      var p: Node;
      ghost var q: Path<Node>;
      p, q := FindPlace(node.pid);
      InsertedBalance(tree, q, node, nil.color);
      ghost var w;
      w, k := InsertAt(node, p, q);
      tree := w;
      nodes := nodes + {node};
    }

    // head->pre_root.left is read after the link and passed as the root.
    method InsertAt(node: Node, p: Node, ghost q: Path<Node>) returns (ghost w: Tree<Node>, ghost k: nat)
      requires Shape() && Colored() && Plug(q, Leaf) == tree && Passed(q, node.pid)
      requires Rep(Snapshot(nodes), q, Leaf, head, nil) && !q.Top? && p == q.elem && (q.InLeft? <==> node.pid < p.pid)
      requires node !in nodes && node.left == nil && node.right == nil
      modifies nodes, node
      ensures w == InsertFix(old(nil.color), q, Branch(Leaf, node, Red, Leaf))
      ensures Rep(Snapshot(nodes + {node}), Top, w, head, nil) && SortedByPid(Inorder(w))
      ensures w.Branch? && NoRedRed(w) && TreeColor(w) == Black
      ensures nil.color == NilAfterInsert(old(nil.color), q) && (nil.color == Red ==> old(nil.color) == Red)
      ensures k <= |Inorder(tree)| && Inorder(w) == Inorder(tree)[..k] + [node] + Inorder(tree)[k..]
      ensures AllAtMost(Inorder(tree)[..k], node.pid) && AllAbove(Inorder(tree)[k..], node.pid)
    {
      InsertedTree(tree, q, node, nil.color);
      w, k := InsertFix(nil.color, q, Branch(Leaf, node, Red, Leaf)), |Before(q)|;
      Hang(node, p, q);
      ghost var ns, t := nodes + {node}, Branch(Leaf, node, node.color, Leaf);
      HeadPointsToRoot(Snapshot(ns), q, node, head, nil);
      Rebalance(head.left, node, nil, ns, head, q, t);
    }

    /** rb_tree_remove: exactly the node goes, from any tree in which the repair of the place that
        goes meets real brothers only, as it always does in a red-black tree.  Such a tree stays
        red-black unless that place is one a red sentinel hides. */
    method Remove(node: Node) returns (ghost k: nat)
      requires Shape() && Colored() && node in Nodes(tree)
      requires var (p, t) := Focus(Top, tree, node); Repairable(nil.color, Vacated(p, t).0, Vacated(p, t).1)
      modifies this, nodes
      ensures Shape() && Colored() && nodes == old(nodes) - {node} && node !in Nodes(tree)
      ensures k < |old(Inorder(tree))| && old(Inorder(tree))[k] == node
      ensures Inorder(tree) == old(Inorder(tree))[..k] + old(Inorder(tree))[k + 1..]
      ensures var (p, t) := Focus(Top, old(tree), node);
        && tree == Removed(old(nil.color), p, t) && nil.color == NilAfterRemove(old(nil.color), Vacated(p, t).1)
        && (old(RedBlack(tree)) ==>
            (RedBlack(tree) <==> !RedNilHole(old(nil.color), Vacated(p, t).0, Vacated(p, t).1)))
      ensures old(Unspoilt()) ==> Unspoilt()
    {
      ghost var (p, t) := Focus(Top, tree, node);
      RemovedBalance(tree, p, t, nil.color);
      ghost var w;
      w, k := RemoveAt(node, p, t);
      tree := w;
      nodes := nodes - {node};
    }

    method RemoveAt(node: Node, ghost p: Path<Node>, ghost t: Tree<Node>) returns (ghost w: Tree<Node>, ghost k: nat)
      requires Shape() && Colored() && t.Branch? && t.elem == node && Plug(p, t) == tree
      requires Repairable(nil.color, Vacated(p, t).0, Vacated(p, t).1)
      modifies nodes
      ensures w == Removed(old(nil.color), p, t) && node !in Nodes(w)
      ensures Rep(Snapshot(nodes - {node}), Top, w, head, nil)
      ensures nil.color == NilAfterRemove(old(nil.color), Vacated(p, t).1)
      ensures k < |Inorder(tree)| && Inorder(tree)[k] == node
      ensures Inorder(w) == Inorder(tree)[..k] + Inorder(tree)[k + 1..]
      ensures SortedByPid(Inorder(w)) && NoRedRed(w) && TreeColor(w) == Black
    {
      w, k := Removed(nil.color, p, t), |Before(p) + Inorder(t.left)|;
      FocusTop(Snapshot(nodes), p, t, head, nil);
      RemovedTree(tree, p, t, nil.color);
      NodesOfSeq(w, tree, k);
      PlugNodes(p, t);
      assert node in Nodes(tree);
      RbRemoval.Remove(head, node, nil, nodes, p, t);
      RepFrame(Snapshot(nodes), Snapshot(nodes - {node}), Top, w, head, nil);
    }

    /** pcinfo_rb_tree_find, with the number of nodes it looks at. */
    method Find(pid: int) returns (r: Node?, ghost steps: nat)
      requires Shape() && tree.Branch?
      ensures r != null ==> r in Nodes(tree) && r.pid == pid
      ensures r == null ==> forall x | x in Nodes(tree) :: x.pid != pid
      ensures steps <= Height(tree)
      ensures RedBlack(tree) ==> Pow2(steps) <= (|Inorder(tree)| + 1) * (|Inorder(tree)| + 1)
    {
      ghost var m := Snapshot(nodes);
      var p := head.left;
      ghost var q, s := Top, tree;
      steps := 1;
      if RedBlack(tree) {
        HeightLogarithmic(tree);
      }
      while true
        invariant Rep(m, q, s, head, nil) && s.Branch? && p == s.elem && Nodes(s) <= Nodes(tree)
        invariant steps + Height(s) <= Height(tree) + 1
        invariant forall x | x in Nodes(tree) && x.pid == pid :: x in Nodes(s)
        invariant SortedByPid(Inorder(s))
        decreases s
      {
        Pow2Monotone(steps, Height(tree));
        if pid == p.pid {
          return p, steps;
        }
        SearchSides(s);
        if pid < p.pid {
          q, s := InLeft(q, s.elem, s.color, s.right), s.left;
          FocusUp(m, q, s, head, nil);
          if p.left == nil {
            return null, steps;
          }
          p := p.left;
        } else {
          q, s := InRight(q, s.left, s.elem, s.color), s.right;
          FocusUp(m, q, s, head, nil);
          if p.right == nil {
            return null, steps;
          }
          p := p.right;
        }
        steps := steps + 1;
      }
    }
  }

  // Everything the callers need to know of the tree after an insertion at q.
  lemma InsertedTree(w: Tree<Node>, q: Path<Node>, x: Node, nil: Color)
    requires NoRedRed(w) && TreeColor(w) == Black && Plug(q, Leaf) == w && Passed(q, x.pid) && SortedByPid(Inorder(w))
    ensures var w', k := InsertFix(nil, q, Branch(Leaf, x, Red, Leaf)), |Before(q)|;
      && w'.Branch? && NoRedRed(w') && TreeColor(w') == Black
      && k <= |Inorder(w)| && Inorder(w') == Inorder(w)[..k] + [x] + Inorder(w)[k..]
      && AllAtMost(Inorder(w)[..k], x.pid) && AllAbove(Inorder(w)[k..], x.pid)
      && SortedByPid(Inorder(w')) && PathNoRedRed(q)
      && (NilAfterInsert(nil, q) == Red ==> nil == Red)
  {
    var t := Branch(Leaf, x, Red, Leaf);
    PlugNoRedRed(q, Leaf);
    InsertFixNoRedRed(nil, q, t);
    NilStaysBlack(q);
    InsertedInorder(w, q, x, nil);
    SortedInsert(Before(q), x, After(q));
  }

  lemma InsertedBalance(w: Tree<Node>, q: Path<Node>, x: Node, nil: Color)
    requires Plug(q, Leaf) == w
    ensures var w' := InsertFix(nil, q, Branch(Leaf, x, Red, Leaf));
      RedBlack(w) ==>
        (RedBlack(w') <==> !RedNilUncle(nil, q)) && NilAfterInsert(nil, q) == if RedBlack(w') then nil else Black
  {
    if RedBlack(w) {
      PlugRedBlack(q, Leaf);
      InsertFixRedBlack(nil, q, x);
      NilAfterInsertIs(nil, q, 0);
    }
  }

  lemma InsertedInorder(w: Tree<Node>, q: Path<Node>, x: Node, nil: Color)
    requires Plug(q, Leaf) == w
    ensures var w', k := InsertFix(nil, q, Branch(Leaf, x, Red, Leaf)), |Before(q)|;
      && k <= |Inorder(w)| && Inorder(w)[..k] == Before(q) && Inorder(w)[k..] == After(q)
      && Inorder(w) == Before(q) + After(q) && Inorder(w') == Before(q) + [x] + After(q)
  {
    var t := Branch(Leaf, x, Red, Leaf);
    InsertFixInorder(nil, q, t);
    PlugInorder(q, Leaf);
    assert Inorder(w) == Before(q) + [] + After(q) == Before(q) + After(q);
    PlugInorder(q, t);
    assert Inorder(t) == [x];
  }

  lemma SearchSides(t: Tree<Node>)
    requires t.Branch? && SortedByPid(Inorder(t))
    ensures SortedByPid(Inorder(t.left)) && SortedByPid(Inorder(t.right))
    ensures forall x | x in Nodes(t.left) :: x.pid <= t.elem.pid
    ensures forall x | x in Nodes(t.right) :: x.pid >= t.elem.pid
  {
    SortedParts(Inorder(t.left), t.elem, Inorder(t.right));
    InorderNodes(t.left);
    InorderNodes(t.right);
  }

  lemma RemovedTree(w: Tree<Node>, p: Path<Node>, t: Tree<Node>, nil: Color)
    requires NoRedRed(w) && TreeColor(w) == Black && Plug(p, t) == w && t.Branch?
    requires SortedByPid(Inorder(w)) && Distinct(w) && Repairable(nil, Vacated(p, t).0, Vacated(p, t).1)
    ensures var w', k := Removed(nil, p, t), |Before(p) + Inorder(t.left)|;
      && k < |Inorder(w)| && Inorder(w)[k] == t.elem && Inorder(w') == Inorder(w)[..k] + Inorder(w)[k + 1..]
      && SortedByPid(Inorder(w')) && NoRedRed(w') && TreeColor(w') == Black
  {
    var u, v := Before(p) + Inorder(t.left), Inorder(t.right) + After(p);
    DistinctNoRepeats(w);
    RemovedInorder(nil, p, t);
    RemovedColors(nil, p, t);
    assert Inorder(w)[..|u|] == u && Inorder(w)[|u| + 1..] == v;
    SortedDrop(u, t.elem, v);
  }

  lemma RemovedBalance(w: Tree<Node>, p: Path<Node>, t: Tree<Node>, nil: Color)
    requires Plug(p, t) == w && t.Branch?
    ensures var w', q, s := Removed(nil, p, t), Vacated(p, t).0, Vacated(p, t).1;
      && (RedBlack(w) ==> (RedBlack(w') <==> !RedNilHole(nil, q, s)))
      && (RedBlack(w) && NilAfterRemove(nil, s) == Red ==> RedBlack(w'))
  {
    if RedBlack(w) { RemovedRedBlack(nil, p, t); }
  }

  // After w' lost the k-th element of w, that node is nowhere in it.
  lemma NodesOfSeq(w': Tree<Node>, w: Tree<Node>, k: nat)
    requires Distinct(w) && k < |Inorder(w)| && Inorder(w') == Inorder(w)[..k] + Inorder(w)[k + 1..]
    ensures Inorder(w)[k] !in Nodes(w')
  {
    DistinctNoRepeats(w);
    InorderNodes(w');
  }

  // What Insert makes of a tree with the zeroed (red) sentinel.
  ghost function InsertedRed(w: Tree<Node>, x: Node): Tree<Node> {
    InsertFix(Red, Place(Top, w, x.pid), Branch(Leaf, x, Red, Leaf))
  }

  // A new right child of the black node p.elem stays where it is.
  lemma HungBelowBlack(w: Tree<Node>, p: Path<Node>, x: Node)
    requires Place(Top, w, x.pid) == p && !p.Top? && p.color == Black
    ensures InsertedRed(w, x) == Plug(p, Branch(Leaf, x, Red, Leaf)) && NilAfterInsert(Red, p) == Red
  {
  }

  /** A concrete run of Insert that the zeroed sentinel spoils: three pids inserted in ascending
      order leave a chain, black, black, red. */
  lemma BootSentinelBreaks(a: Node, b: Node, c: Node)
    requires a.pid <= b.pid <= c.pid
    ensures var w1 := Branch(Leaf, a, Black, Leaf);
      var w2 := InsertedRed(w1, b);
      var w3 := InsertedRed(w2, c);
      && RedBlack(w1) && RedBlack(w2) && NilAfterInsert(Red, Place(Top, w1, b.pid)) == Red
      && NilAfterInsert(Red, Place(Top, w2, c.pid)) == Black
      && w3 == Branch(Leaf, a, Black, Branch(Leaf, b, Black, Branch(Leaf, c, Red, Leaf))) && !RedBlack(w3)
  {
    var w1 := Branch(Leaf, a, Black, Leaf);
    var w2 := Branch(Leaf, a, Black, Branch(Leaf, b, Red, Leaf));
    var u := Branch(Leaf, c, Red, Leaf);
    var p := InRight(Top, Leaf, a, Black);
    assert Place(Top, w1, b.pid) == p;
    HungBelowBlack(w1, p, b);
    assert Plug(p, w2.right) == Plug(Top, Lift(p, w2.right)) == w2;
    var q := InRight(p, Leaf, b, Red);
    assert Place(Top, w2, c.pid) == Place(p, w2.right, c.pid) == q;
    assert InsertFix(Red, q, u) == InsertFix(Black, Top, InsertRecolor(q, u));
    assert q.up.up == Top && NilAfterInsert(Red, q) == NilAfterInsert(Black, q.up.up);
    assert BlackHeight(Branch(Leaf, b, Black, u)) == 1;
  }

  // 2 above 1 and 3, all but the root red, and 4 comes: recolouring, no rotation, a real uncle.
  lemma FourthRecolors(a: Node, b: Node, c: Node, d: Node)
    requires b.pid < a.pid <= c.pid <= d.pid
    ensures var w3 := Branch(Branch(Leaf, b, Red, Leaf), a, Black, Branch(Leaf, c, Red, Leaf));
      var w4 := Branch(Branch(Leaf, b, Black, Leaf), a, Black, Branch(Leaf, c, Black, Branch(Leaf, d, Red, Leaf)));
      InsertedRed(w3, d) == w4 && NilAfterInsert(Red, Place(Top, w3, d.pid)) == Red
  {
    var l, u := Branch(Leaf, b, Red, Leaf), Branch(Leaf, d, Red, Leaf);
    var w3 := Branch(l, a, Black, Branch(Leaf, c, Red, Leaf));
    var p := InRight(Top, l, a, Black);
    var q := InRight(p, Leaf, c, Red);
    assert Place(Top, w3, d.pid) == Place(p, w3.right, d.pid) == q;
    assert InsertFix(Red, q, u) == InsertFix(Red, Top, InsertRecolor(q, u));
  }

  /** The same for removal: inserting 2, 1, 3 and 4 leaves a red-black tree and the sentinel red;
      removing 1 then leaves no red-black tree. */
  lemma BootSentinelBreaksRemoval(a: Node, b: Node, c: Node, d: Node)
    requires b.pid < a.pid <= c.pid <= d.pid
    ensures var w1 := Branch(Leaf, a, Black, Leaf);
      var w2 := InsertedRed(w1, b);
      var w3 := InsertedRed(w2, c);
      var w4 := InsertedRed(w3, d);
      && NilAfterInsert(Red, Place(Top, w1, b.pid)) == Red && NilAfterInsert(Red, Place(Top, w2, c.pid)) == Red
      && NilAfterInsert(Red, Place(Top, w3, d.pid)) == Red && RedBlack(w4) && b in Nodes(w4)
      && var (p, t) := Focus(Top, w4, b); !RedBlack(Removed(Red, p, t))
  {
    var l, r := Branch(Leaf, b, Red, Leaf), Branch(Leaf, c, Red, Leaf);
    var w1, w2 := Branch(Leaf, a, Black, Leaf), Branch(l, a, Black, Leaf);
    var p1, p2 := InLeft(Top, a, Black, Leaf), InRight(Top, l, a, Black);
    assert Place(Top, w1, b.pid) == p1;
    HungBelowBlack(w1, p1, b);
    assert Plug(p1, l) == Plug(Top, Lift(p1, l)) == w2;
    assert Place(Top, w2, c.pid) == p2;
    HungBelowBlack(w2, p2, c);
    assert Plug(p2, r) == Plug(Top, Lift(p2, r)) == Branch(l, a, Black, r);
    FourthRecolors(a, b, c, d);
    var t, w := Branch(Leaf, b, Black, Leaf), Branch(Leaf, c, Black, Branch(Leaf, d, Red, Leaf));
    var p := InLeft(Top, a, Black, w);
    assert BlackHeight(t) == 1 && BlackHeight(w) == 1;
    assert Plug(p, t) == Plug(Top, Lift(p, t)) == Branch(t, a, Black, w);
    assert b in Nodes(t);
    assert Focus(Top, Branch(t, a, Black, w), b) == (p, t);
    RemovedRedBlack(Red, p, t);
  }

  /** Where the brother is the sentinel, its children, which the repair reads next, are NULL. */
  lemma BrotherIsNil(m: Memory, q: Path<Node>, s: Tree<Node>, head: Node, nil: Node)
    requires Rep(m, q, s, head, nil) && !q.Top? && Sibling(q).Leaf?
    ensures q.elem in m && (if q.InLeft? then m[q.elem].right else m[q.elem].left) == nil
    ensures nil in m && m[nil].left == null && m[nil].right == null
  {
  }

  // A chain of black nodes is what the sentinel's first mistake leaves.
  lemma LastRemoved(a: Node, b: Node, c: Node)
    requires a != b && a != c && b != c
    ensures var w3 := Branch(Leaf, a, Black, Branch(Leaf, b, Black, Branch(Leaf, c, Red, Leaf)));
      && c in Nodes(w3)
      && var (p, t) := Focus(Top, w3, c);
        && Repairable(Black, Vacated(p, t).0, Vacated(p, t).1) && NilAfterRemove(Black, Vacated(p, t).1) == Black
        && Removed(Black, p, t) == Branch(Leaf, a, Black, Branch(Leaf, b, Black, Leaf))
  {
    var t := Branch(Leaf, c, Red, Leaf);
    var s := Branch(Leaf, b, Black, t);
    var r := InRight(Top, Leaf, a, Black);
    var p := InRight(r, Leaf, b, Black);
    assert c in Nodes(t) && c in Nodes(s);
    assert Focus(p, t, c) == (p, t);
    assert Focus(r, s, c) == (p, t);
    assert Focus(Top, Branch(Leaf, a, Black, s), c) == (p, t);
    RenamePathSame(p, c);
    RenameSame(t, c);
    assert Removed(Black, p, t) == Spliced(Black, p, t) == Plug(p, Leaf);
    var u := Branch(Leaf, b, Black, Leaf);
    assert Plug(p, Leaf) == Plug(r, u) && Plug(r, u) == Plug(Top, Branch(Leaf, a, Black, u));
  }

  /** Three pids inserted in ascending order under the zeroed sentinel, and the last removed: removing
      the second cannot be repaired, for its brother is the sentinel. */
  lemma BootSentinelStopsRemoval(a: Node, b: Node, c: Node)
    requires a.pid <= b.pid <= c.pid && a != b && a != c && b != c
    ensures var w3 := InsertedRed(InsertedRed(Branch(Leaf, a, Black, Leaf), b), c);
      && c in Nodes(w3) && NilAfterInsert(Red, Place(Top, InsertedRed(Branch(Leaf, a, Black, Leaf), b), c.pid)) == Black
      && var (p, t) := Focus(Top, w3, c);
        var w4 := Removed(Black, p, t);
        && Repairable(Black, Vacated(p, t).0, Vacated(p, t).1) && b in Nodes(w4)
        && var (q, s) := Focus(Top, w4, b);
          && !Repairable(Black, Vacated(q, s).0, Vacated(q, s).1)
          && Vacated(q, s) == (q, s) && !q.Top? && Sibling(q).Leaf?
  {
    BootSentinelBreaks(a, b, c);
    LastRemoved(a, b, c);
    var s := Branch(Leaf, b, Black, Leaf);
    var w4, q := Branch(Leaf, a, Black, s), InRight(Top, Leaf, a, Black);
    assert b in Nodes(s);
    assert Focus(q, s, b) == (q, s);
    assert Focus(Top, w4, b) == (q, s);
  }
}
