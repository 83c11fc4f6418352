/** rb_tree_remove: trade places with the successor, unlink, repair. */
module RbRemoval {
  import opened RbTheory
  import opened RbMemory
  import opened RbRebalance
  import opened RbRepair
  import opened RbExchange

  // ---------- unlinking a node with at most one child ----------

  ghost function Unlinked(m: Memory, node: Node, child: Node): Memory
    requires node in m && child in m && m[node].parent in m && m[node].parent != child
  {
    WithChild(Reparented(m, child, m[node].parent), m[node].parent, node, child)
  }

  method Unlink(node: Node, child: Node, ghost nodes: set<Node>)
    requires var m := Snapshot(nodes);
      node in m && child in m && m[node].parent in m && m[node].parent != child && child != node
    requires node.parent != node
    modifies nodes
    ensures Snapshot(nodes) == Unlinked(old(Snapshot(nodes)), node, child)
  {
    child.parent := node.parent;
    if node.parent.left == node {
      node.parent.left := child;
    } else {
      node.parent.right := child;
    }
  }

  lemma UnlinkedRep(m: Memory, p: Path<Node>, t: Tree<Node>, head: Node, nil: Node)
    requires Rep(m, p, t, head, nil) && t.Branch? && (t.left.Leaf? || t.right.Leaf?)
    ensures var c, up := OnlyChild(t), Above(p, head);
      && t.elem in m && TopNode(c, nil) in m && m[t.elem].parent == up && up in m && up != TopNode(c, nil)
      && up != t.elem && TopNode(c, nil) != t.elem
      && Rep(Unlinked(m, t.elem, TopNode(c, nil)), p, c, head, nil)
      && Unlinked(m, t.elem, TopNode(c, nil))[TopNode(c, nil)].parent == up
      && m[t.elem].color == t.color
      && m[t.elem].left == TopNode(t.left, nil) && m[t.elem].right == TopNode(t.right, nil)
  {
    var c, up := OnlyChild(t), Above(p, head);
    assert Linked(m, c, t.elem, nil) && Distinct(c) && Nodes(c) <= Nodes(t);
    assert up !in Nodes(t);
    var m' := Unlinked(m, t.elem, TopNode(c, nil));
    Adopted(m, m', c, t.elem, up, nil);
    Rehung(m, m', p, t.elem, TopNode(c, nil), head, nil);
  }

  // ---------- the successor ----------

  method GetMin(node0: Node, nil: Node, ghost nodes: set<Node>, ghost p: Path<Node>, ghost t: Tree<Node>,
                ghost head: Node)
    returns (node: Node)
    requires Rep(Snapshot(nodes), p, t, head, nil) && t.Branch? && node0 == t.elem
    ensures var (q, s) := Leftmost(p, t);
      && node == s.elem && Rep(Snapshot(nodes), q, s, head, nil)
      && (t.left.Branch? ==> node in Nodes(t.left) && q.InLeft? && q.elem in Nodes(t))
  {
    node := node0;
    ghost var q, s := p, t;
    while node.left != nil
      invariant Rep(Snapshot(nodes), q, s, head, nil) && s.Branch? && node == s.elem
      invariant Leftmost(q, s) == Leftmost(p, t)
      invariant if q == p then s == t else
        q.InLeft? && q.elem in Nodes(t) && t.left.Branch? && Nodes(s) <= Nodes(t.left)
      decreases s
    {
      node := node.left;
      FocusUp(Snapshot(nodes), InLeft(q, s.elem, s.color, s.right), s.left, head, nil);
      q, s := InLeft(q, s.elem, s.color, s.right), s.left;
    }
  }

  lemma {:induction false} PlugNodes(p: Path<Node>, t: Tree<Node>)
    ensures Nodes(Plug(p, t)) == PathNodes(p) + Nodes(t)
    decreases p
  {
    if !p.Top? {
      PlugNodes(p.up, Lift(p, t));
    }
  }

  // Exchanging node and successor renames them in the tree, whichever way it is done.
  lemma ExchangedFocus(m: Memory, m': Memory, q: Path<Node>, s: Tree<Node>, head: Node, nil: Node, a: Node, b: Node)
    requires Rep(m, q, s, head, nil) && nil in m' && Childless(m'[nil])
    requires a in PathNodes(q) + Nodes(s) && b in PathNodes(q) + Nodes(s)
    requires Exchanged(m, m', PathNodes(q) + Nodes(s), head, a, b)
    ensures Rep(m', RenamePath(q, a, b), Rename(s, a, b), head, nil)
  {
    PlugNodes(q, s);
    FocusTop(m, q, s, head, nil);
    ExchangedRep(m, m', Plug(q, s), head, nil, a, b);
    RenamePlug(q, s, a, b);
    FocusTop(m', RenamePath(q, a, b), Rename(s, a, b), head, nil);
  }

  // Where the node and its successor stand.
  lemma SuccessorPlace(m: Memory, p: Path<Node>, t: Tree<Node>, head: Node, nil: Node, node: Node, min: Node)
    requires Rep(m, p, t, head, nil) && t.Branch? && node == t.elem && t.left.Branch? && t.right.Branch?
    requires var (q, s) := Leftmost(InRight(p, t.left, t.elem, t.color), t.right);
      && min == s.elem && Rep(m, q, s, head, nil)
      && (t.right.left.Branch? ==> min in Nodes(t.right.left) && q.InLeft? && q.elem in Nodes(t.right))
    ensures var (q, s) := Vacated(p, t);
      && node in m && min in m && node != min
      && node in PathNodes(q) + Nodes(s) && min in Nodes(s)
      && m[node].right == t.right.elem && m[node].left == t.left.elem && m[node].parent != min && m[node].left != nil
      && m[min].left == nil
      && (min == t.right.elem <==> t.right.left.Leaf?)
      && (t.right.left.Branch? ==> m[min].parent != node && m[node].parent != m[min].parent)
  {
    var r := InRight(p, t.left, t.elem, t.color);
    var (q, s) := Leftmost(r, t.right);
    LeftmostIs(r, t.right);
    PlugNodes(q, s);
    PlugNodes(r, t.right);
    assert Distinct(t.right);
    assert Above(p, head) !in Nodes(t);
    assert Linked(m, t.right, t.elem, nil);
  }

  method SwapWithSuccessor(node: Node, nil: Node, ghost nodes: set<Node>, ghost p: Path<Node>, ghost t: Tree<Node>,
                           ghost head: Node)
    requires Rep(Snapshot(nodes), p, t, head, nil) && t.Branch? && node == t.elem && t.left.Branch? && t.right.Branch?
    modifies nodes
    ensures var (q, s) := Vacated(p, t);
      Rep(Snapshot(nodes), RenamePath(q, node, s.elem), Rename(s, node, s.elem), head, nil)
    ensures nil.color == old(nil.color)
  {
    ghost var m := Snapshot(nodes);
    FocusUp(m, InRight(p, t.left, t.elem, t.color), t.right, head, nil);
    var min := GetMin(node.right, nil, nodes, InRight(p, t.left, t.elem, t.color), t.right, head);
    SuccessorPlace(m, p, t, head, nil, node, min);
    ghost var (q, s) := Vacated(p, t);
    ghost var w := Plug(q, s);
    PlugNodes(q, s);
    FocusTop(m, q, s, head, nil);
    if min != node.right {
      SwappedExchanges(m, w, head, nil, node, min);
      SwappedAt(m, node, min, nil);
      ExchangeAt(m, node, min, nil);
      SwapNode(node, min, nodes);
      assert Snapshot(nodes)[nil].color == m[nil].color;
    } else {
      SuccessorAdjacent(m, w, head, nil, node, min);
      SwapAdjacent(node, min, nil, nodes);
      AdjacentExchanges(m, Snapshot(nodes), w, head, nil, node, min);
      assert Snapshot(nodes)[nil].color == m[nil].color;
    }
    ExchangedFocus(m, Snapshot(nodes), q, s, head, nil, node, min);
  }

  // The sentinel's colour once the top of t is unlinked: only the loop on a missing child paints it.
  function NilAfterRemove(nil: Color, t: Tree<Node>): Color
    requires t.Branch?
  {
    if t.color == Black && t.left.Leaf? && t.right.Leaf? then Black else nil
  }

  // The second half of the removal: the node has at most one child now.
  method UnlinkAndFix(head: Node, node0: Node, nil: Node, ghost nodes: set<Node>,
                      ghost p: Path<Node>, ghost t: Tree<Node>)
    requires Rep(Snapshot(nodes), p, t, head, nil) && t.Branch? && node0 == t.elem
    requires (t.left.Leaf? || t.right.Leaf?) && Repairable(nil.color, p, t)
    requires NoRedRed(Plug(p, t)) && TreeColor(Plug(p, t)) == Black
    modifies nodes
    ensures Rep(Snapshot(nodes), Top, Spliced(old(nil.color), p, t), head, nil)
    ensures nil.color == NilAfterRemove(old(nil.color), t)
  {
    var node := node0;
    UnlinkedRep(Snapshot(nodes), p, t, head, nil);
    SplicedColors(nil.color, p, t);
    var onodec: Color;
    if node.right == nil {
      Unlink(node, node.left, nodes);
      onodec := node.color;
      node := node.left;
    } else {
      assert node.left == nil;
      Unlink(node, node.right, nodes);
      onodec := node.color;
      node := node.right;
    }
    ghost var c := OnlyChild(t);
    if onodec == Black {
      HeadPointsToRoot(Snapshot(nodes), p, node, head, nil);
      RmFix(head.left, node, nil, nodes, head, p, c);
    } else {
      FocusTop(Snapshot(nodes), p, c, head, nil);
    }
  }

  /** rb_tree_remove: the tree below head becomes Removed(p, t). */
  method Remove(head: Node, node: Node, nil: Node, ghost nodes: set<Node>, ghost p: Path<Node>, ghost t: Tree<Node>)
    requires Rep(Snapshot(nodes), p, t, head, nil) && t.Branch? && node == t.elem
    requires NoRedRed(Plug(p, t)) && TreeColor(Plug(p, t)) == Black
    requires Repairable(nil.color, Vacated(p, t).0, Vacated(p, t).1)
    modifies nodes
    ensures Rep(Snapshot(nodes), Top, Removed(old(nil.color), p, t), head, nil)
    ensures nil.color == NilAfterRemove(old(nil.color), Vacated(p, t).1)
  {
    ghost var (q, s) := Vacated(p, t);
    VacatedIs(p, t);
    RenamePlug(q, s, node, s.elem);
    RenameShape(Plug(q, s), node, s.elem);
    RenameShape(s, node, s.elem);
    RenameRepairable(nil.color, q, s, node, s.elem);
    if node.left != nil && node.right != nil {
      SwapWithSuccessor(node, nil, nodes, p, t, head);
    } else {
      RenameSame(t, node);
      RenamePathSame(p, node);
    }
    assert Rename(s.left, node, s.elem).Leaf? <==> s.left.Leaf?;
    assert Rename(s.right, node, s.elem).Leaf? <==> s.right.Leaf?;
    UnlinkAndFix(head, node, nil, nodes, RenamePath(q, node, s.elem), Rename(s, node, s.elem));
  }
}
