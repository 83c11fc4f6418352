/** rb_tree_rebalance of src/rb_tree.c. */
module RbRebalance {
  import opened RbTheory
  import opened RbMemory
  import opened RbRotation

  lemma {:induction false} HeadPointsToRoot(m: Memory, p: Path<Node>, at: Node, head: Node, nil: Node)
    requires PathLinked(m, p, at, head, nil)
    ensures head in m && m[head].left == RootAbove(p, at)
    decreases p
  {
    if !p.Top? {
      HeadPointsToRoot(m, p.up, p.elem, head, nil);
    }
  }

  // What rebalancing reads around the red node t.elem with a red parent.
  lemma SeenAround(m: Memory, p: Path<Node>, t: Tree<Node>, head: Node, nil: Node)
    requires Rep(m, p, t, head, nil) && t.Branch? && !p.Top? && !p.up.Top?
    ensures var g, uncle := p.up, Sibling(p.up);
      && t.elem in m && p.elem in m && g.elem in m && TopNode(uncle, nil) in m
      && m[t.elem].parent == p.elem && m[p.elem].parent == g.elem && m[p.elem].color == p.color
      && (m[g.elem].left == p.elem <==> g.InLeft?)
      && (if g.InLeft? then m[g.elem].right else m[g.elem].left) == TopNode(uncle, nil)
      && (m[p.elem].left == t.elem <==> p.InLeft?)
      && (m[p.elem].right == t.elem <==> p.InRight?)
      && m[TopNode(uncle, nil)].color == SeenColor(uncle, m[nil].color)
      && TopNode(uncle, nil) != p.elem && TopNode(uncle, nil) != g.elem && p.elem != g.elem
  {
    assert PathLinked(m, p.up, p.elem, head, nil) && PathDistinct(p.up);
    assert Linked(m, Sibling(p), p.elem, nil) && Linked(m, Sibling(p.up), p.up.elem, nil);
  }

  // Painting the uncle, the parent and the grandparent pushes the black down.
  lemma RecolorRep(m: Memory, p: Path<Node>, t: Tree<Node>, head: Node, nil: Node)
    requires Rep(m, p, t, head, nil) && t.Branch? && !p.Top? && !p.up.Top?
    ensures var u := TopNode(Sibling(p.up), nil);
      && u in m && p.elem in m && p.up.elem in m
      && Rep(Painted(Painted(Painted(m, u, Black), p.elem, Black), p.up.elem, Red),
             p.up.up, InsertRecolor(p, t), head, nil)
  {
    SeenAround(m, p, t, head, nil);
    var g := p.up;
    var uncle := Sibling(g);
    var u := TopNode(uncle, nil);
    FocusUp(m, p, t, head, nil);
    FocusUp(m, g, Lift(p, t), head, nil);
    var w0 := Lift(g, Lift(p, t));
    var m1 := Painted(m, u, Black);
    if uncle.Leaf? {
      RepFrame(m, m1, g.up, w0, head, nil);
    } else if g.InLeft? {
      PaintedRight(m, g.up, w0, Black, head, nil);
    } else {
      PaintedLeft(m, g.up, w0, Black, head, nil);
    }
    var w1 := if g.InLeft? then w0.(right := Blacken(uncle)) else w0.(left := Blacken(uncle));
    assert Rep(m1, g.up, w1, head, nil);
    if g.InLeft? {
      PaintedLeft(m1, g.up, w1, Black, head, nil);
    } else {
      PaintedRight(m1, g.up, w1, Black, head, nil);
    }
    var m2 := Painted(m1, p.elem, Black);
    var w2 := if g.InLeft? then w1.(left := Blacken(w1.left)) else w1.(right := Blacken(w1.right));
    PaintedTop(m2, g.up, w2, Red, head, nil);
  }

  // The node sits on the outer side: one rotation at the grandparent and two colours.
  lemma OuterLeftRep(m: Memory, p: Path<Node>, t: Tree<Node>, head: Node, nil: Node)
    requires Rep(m, p, t, head, nil) && t.Branch? && p.InLeft? && p.up.InLeft?
    ensures var g := p.up.elem;
      && CanRotateRight(m, g) && p.elem in m && g in m
      && Rep(Painted(Painted(RightRotated(m, g), p.elem, Black), g, Red), p.up.up, InsertRotate(p, t), head, nil)
  {
    var g := p.up;
    FocusUp(m, p, t, head, nil);
    FocusUp(m, g, Lift(p, t), head, nil);
    var w := Lift(g, Lift(p, t));
    RightRotatedRep(m, g.up, w, head, nil);
    var m1, w1 := RightRotated(m, g.elem), RotatedRight(w);
    PaintedTop(m1, g.up, w1, Black, head, nil);
    PaintedRight(Painted(m1, p.elem, Black), g.up, w1.(color := Black), Red, head, nil);
  }

  lemma OuterRightRep(m: Memory, p: Path<Node>, t: Tree<Node>, head: Node, nil: Node)
    requires Rep(m, p, t, head, nil) && t.Branch? && p.InRight? && p.up.InRight?
    ensures var g := p.up.elem;
      && CanRotateLeft(m, g) && p.elem in m && g in m
      && Rep(Painted(Painted(LeftRotated(m, g), p.elem, Black), g, Red), p.up.up, InsertRotate(p, t), head, nil)
  {
    var g := p.up;
    FocusUp(m, p, t, head, nil);
    FocusUp(m, g, Lift(p, t), head, nil);
    var w := Lift(g, Lift(p, t));
    LeftRotatedRep(m, g.up, w, head, nil);
    var m1, w1 := LeftRotated(m, g.elem), RotatedLeft(w);
    PaintedTop(m1, g.up, w1, Black, head, nil);
    PaintedLeft(Painted(m1, p.elem, Black), g.up, w1.(color := Black), Red, head, nil);
  }

  // The node sits on the inner side: a rotation at the parent brings it outside.
  lemma InnerLeftRep(m: Memory, p: Path<Node>, t: Tree<Node>, head: Node, nil: Node)
    requires Rep(m, p, t, head, nil) && t.Branch? && p.InRight? && p.up.InLeft? && t.color == Red && p.color == Red
    ensures CanRotateLeft(m, p.elem)
    ensures var q, s := InLeft(p.up, t.elem, Red, t.right), Branch(p.left, p.elem, Red, t.left);
      Rep(LeftRotated(m, p.elem), q, s, head, nil) && InsertRotate(q, s) == InsertRotate(p, t)
  {
    FocusUp(m, p, t, head, nil);
    LeftRotatedRep(m, p.up, Lift(p, t), head, nil);
    FocusUp(LeftRotated(m, p.elem), InLeft(p.up, t.elem, Red, t.right), Branch(p.left, p.elem, Red, t.left), head, nil);
  }

  lemma InnerRightRep(m: Memory, p: Path<Node>, t: Tree<Node>, head: Node, nil: Node)
    requires Rep(m, p, t, head, nil) && t.Branch? && p.InLeft? && p.up.InRight? && t.color == Red && p.color == Red
    ensures CanRotateRight(m, p.elem)
    ensures var q, s := InRight(p.up, t.left, t.elem, Red), Branch(t.right, p.elem, Red, p.right);
      Rep(RightRotated(m, p.elem), q, s, head, nil) && InsertRotate(q, s) == InsertRotate(p, t)
  {
    FocusUp(m, p, t, head, nil);
    RightRotatedRep(m, p.up, Lift(p, t), head, nil);
    FocusUp(RightRotated(m, p.elem), InRight(p.up, t.left, t.elem, Red), Branch(t.right, p.elem, Red, p.right),
            head, nil);
  }

  // The node is on the outer side: its parent takes the grandparent's place.
  method LiftOverLeft(parent: Node, grandparent: Node, ghost nodes: set<Node>,
                      ghost p: Path<Node>, ghost t: Tree<Node>, ghost head: Node, ghost nil: Node)
    requires Rep(Snapshot(nodes), p, t, head, nil) && t.Branch? && p.InLeft? && p.up.InLeft?
    requires t.color == Red && p.color == Red && parent == p.elem && grandparent == p.up.elem
    modifies nodes
    ensures Rep(Snapshot(nodes), p.up.up, InsertRotate(p, t), head, nil)
    ensures nil.color == old(nil.color)
  {
    ghost var m := Snapshot(nodes);
    SeenAround(m, p, t, head, nil);
    OuterLeftRep(m, p, t, head, nil);
    RightRotate(grandparent, nodes);
    assert nil.color == Snapshot(nodes)[nil].color == m[nil].color;
    Paint(parent, Black, nodes);
    Paint(grandparent, Red, nodes);
  }

  // The last step of rebalancing when the parent is a left child.
  method RotateBelowLeft(node0: Node, parent0: Node, grandparent: Node, ghost nodes: set<Node>,
                         ghost p: Path<Node>, ghost t: Tree<Node>, ghost head: Node, ghost nil: Node)
    requires Rep(Snapshot(nodes), p, t, head, nil) && t.Branch? && !p.Top? && p.up.InLeft?
    requires t.color == Red && p.color == Red
    requires node0 == t.elem && parent0 == p.elem && grandparent == p.up.elem
    modifies nodes
    ensures Rep(Snapshot(nodes), p.up.up, InsertRotate(p, t), head, nil)
    ensures nil.color == old(nil.color)
  {
    var node, parent := node0, parent0;
    ghost var q, s, m := p, t, Snapshot(nodes);
    SeenAround(m, p, t, head, nil);
    if parent.right == node {
      InnerLeftRep(m, p, t, head, nil);
      LeftRotate(parent, nodes);
      node := parent;
      q, s := InLeft(p.up, t.elem, Red, t.right), Branch(p.left, p.elem, Red, t.left);
      m := Snapshot(nodes);
      parent := node.parent;
    }
    LiftOverLeft(parent, grandparent, nodes, q, s, head, nil);
  }

  // The node is on the outer side: its parent takes the grandparent's place.
  method LiftOverRight(parent: Node, grandparent: Node, ghost nodes: set<Node>,
                      ghost p: Path<Node>, ghost t: Tree<Node>, ghost head: Node, ghost nil: Node)
    requires Rep(Snapshot(nodes), p, t, head, nil) && t.Branch? && p.InRight? && p.up.InRight?
    requires t.color == Red && p.color == Red && parent == p.elem && grandparent == p.up.elem
    modifies nodes
    ensures Rep(Snapshot(nodes), p.up.up, InsertRotate(p, t), head, nil)
    ensures nil.color == old(nil.color)
  {
    ghost var m := Snapshot(nodes);
    SeenAround(m, p, t, head, nil);
    OuterRightRep(m, p, t, head, nil);
    LeftRotate(grandparent, nodes);
    assert nil.color == Snapshot(nodes)[nil].color == m[nil].color;
    Paint(parent, Black, nodes);
    Paint(grandparent, Red, nodes);
  }

  // The last step of rebalancing when the parent is a right child.
  method RotateBelowRight(node0: Node, parent0: Node, grandparent: Node, ghost nodes: set<Node>,
                         ghost p: Path<Node>, ghost t: Tree<Node>, ghost head: Node, ghost nil: Node)
    requires Rep(Snapshot(nodes), p, t, head, nil) && t.Branch? && !p.Top? && p.up.InRight?
    requires t.color == Red && p.color == Red
    requires node0 == t.elem && parent0 == p.elem && grandparent == p.up.elem
    modifies nodes
    ensures Rep(Snapshot(nodes), p.up.up, InsertRotate(p, t), head, nil)
    ensures nil.color == old(nil.color)
  {
    var node, parent := node0, parent0;
    ghost var q, s, m := p, t, Snapshot(nodes);
    SeenAround(m, p, t, head, nil);
    if parent.left == node {
      InnerRightRep(m, p, t, head, nil);
      RightRotate(parent, nodes);
      node := parent;
      q, s := InRight(p.up, t.left, t.elem, Red), Branch(t.right, p.elem, Red, p.right);
      m := Snapshot(nodes);
      parent := node.parent;
    }
    LiftOverRight(parent, grandparent, nodes, q, s, head, nil);
  }

  // Uncle and parent turn black, the grandparent red; the uncle may be the sentinel.
  method PushBlackDown(uncle: Node, parent: Node, grandparent: Node, ghost nodes: set<Node>,
                       ghost p: Path<Node>, ghost t: Tree<Node>, ghost head: Node, ghost nil: Node)
    requires Rep(Snapshot(nodes), p, t, head, nil) && t.Branch? && !p.Top? && !p.up.Top?
    requires uncle == TopNode(Sibling(p.up), nil) && parent == p.elem && grandparent == p.up.elem
    modifies nodes
    ensures Rep(Snapshot(nodes), p.up.up, InsertRecolor(p, t), head, nil)
    ensures nil.color == if Sibling(p.up).Leaf? then Black else old(nil.color)
  {
    RecolorRep(Snapshot(nodes), p, t, head, nil);
    Paint(uncle, Black, nodes);
    Paint(parent, Black, nodes);
    Paint(grandparent, Red, nodes);
  }

  // One turn below a red parent; `more` is the source's `continue`.
  method RebalanceTurn(node: Node, parent: Node, grandparent: Node, ghost nodes: set<Node>,
                       ghost p: Path<Node>, ghost t: Tree<Node>, ghost head: Node, ghost nil: Node)
    returns (more: bool)
    requires Rep(Snapshot(nodes), p, t, head, nil) && t.Branch? && !p.Top? && !p.up.Top?
    requires t.color == Red && p.color == Red && node == t.elem && parent == p.elem && grandparent == p.up.elem
    modifies nodes
    ensures more <==> SeenColor(Sibling(p.up), old(nil.color)) == Red
    ensures more ==> Rep(Snapshot(nodes), p.up.up, InsertRecolor(p, t), head, nil)
    ensures more ==> nil.color == if Sibling(p.up).Leaf? then Black else old(nil.color)
    ensures !more ==> Rep(Snapshot(nodes), Top, Plug(p.up.up, InsertRotate(p, t)), head, nil)
    ensures !more ==> nil.color == old(nil.color)
  {
    SeenAround(Snapshot(nodes), p, t, head, nil);
    if grandparent.left == parent {
      if grandparent.right.color == Red {
        PushBlackDown(grandparent.right, parent, grandparent, nodes, p, t, head, nil);
        return true;
      }
      RotateBelowLeft(node, parent, grandparent, nodes, p, t, head, nil);
    } else {
      if grandparent.left.color == Red {
        PushBlackDown(grandparent.left, parent, grandparent, nodes, p, t, head, nil);
        return true;
      }
      RotateBelowRight(node, parent, grandparent, nodes, p, t, head, nil);
    }
    FocusTop(Snapshot(nodes), p.up.up, InsertRotate(p, t), head, nil);
    return false;
  }

  /** rb_tree_rebalance: `node` is the top of t, `root` the root on entry. */
  method Rebalance(root: Node, node0: Node, nil: Node, ghost nodes: set<Node>, ghost head: Node,
                   ghost p: Path<Node>, ghost t: Tree<Node>)
    requires Rep(Snapshot(nodes), p, t, head, nil) && t.Branch? && t.elem == node0
    requires root == RootAbove(p, node0) && PathNoRedRed(p)
    modifies nodes
    ensures Rep(Snapshot(nodes), Top, InsertFix(old(nil.color), p, Redden(t)), head, nil)
    ensures nil.color == NilAfterInsert(old(nil.color), p)
  {
    var node := node0;
    PaintedTop(Snapshot(nodes), p, t, Red, head, nil);
    Paint(node, Red, nodes);
    ghost var q, s := p, Redden(t);
    while true
      invariant Rep(Snapshot(nodes), q, s, head, nil) && s.Branch? && s.elem == node && s.color == Red
      invariant root == RootAbove(q, node) && PathNoRedRed(q)
      invariant InsertFix(nil.color, q, s) == InsertFix(old(nil.color), p, Redden(t))
      invariant NilAfterInsert(nil.color, q) == NilAfterInsert(old(nil.color), p)
      decreases q
    {
      RootAboveInside(q, node);
      ghost var m := Snapshot(nodes);
      if node == root {
        PaintedTop(m, q, s, Black, head, nil);
        Paint(node, Black, nodes);
        break;
      }
      var parent := node.parent;
      var grandparent := parent.parent;
      if parent.color == Black {
        FocusTop(m, q, s, head, nil);
        break;
      }
      SeenAround(m, q, s, head, nil);
      var more := RebalanceTurn(node, parent, grandparent, nodes, q, s, head, nil);
      if !more {
        break;
      }
      node := grandparent;
      q, s := q.up.up, InsertRecolor(q, s);
    }
  }
}
