/** rb_rmfix of src/rb_tree.c. */
module RbRepair {
  import opened RbTheory
  import opened RbMemory
  import opened RbRotation

  // What the repair reads around the hole of p; b is the brother.
  lemma SeenBrother(m: Memory, p: Path<Node>, t: Tree<Node>, head: Node, nil: Node)
    requires Rep(m, p, t, head, nil) && !p.Top? && Sibling(p).Branch? && m[nil].color == Black
    ensures var b := Sibling(p);
      && p.elem in m && b.elem in m && TopNode(b.left, nil) in m && TopNode(b.right, nil) in m
      && (if p.InLeft? then m[p.elem].right else m[p.elem].left) == b.elem
      && (m[p.elem].left == TopNode(t, nil) <==> p.InLeft?)
      && m[p.elem].color == p.color && m[b.elem].color == b.color
      && m[b.elem].left == TopNode(b.left, nil) && m[b.elem].right == TopNode(b.right, nil)
      && m[TopNode(b.left, nil)].color == TreeColor(b.left)
      && m[TopNode(b.right, nil)].color == TreeColor(b.right)
  {
    var b := Sibling(p);
    assert Linked(m, b, p.elem, nil);
    assert Linked(m, b.left, b.elem, nil) && Linked(m, b.right, b.elem, nil);
  }

  // The red brother is rotated above the parent.
  lemma RaiseLeftRep(m: Memory, p: Path<Node>, t: Tree<Node>, head: Node, nil: Node)
    requires Rep(m, p, t, head, nil) && p.InLeft? && TreeColor(p.right) == Red
    ensures var b := p.right.elem;
      && b in m && p.elem in m && CanRotateLeft(Painted(Painted(m, b, Black), p.elem, Red), p.elem)
      && Rep(LeftRotated(Painted(Painted(m, b, Black), p.elem, Red), p.elem), BrotherRaised(p), t, head, nil)
  {
    FocusUp(m, p, t, head, nil);
    var w := Lift(p, t);
    var b := p.right;
    PaintedRight(m, p.up, w, Black, head, nil);
    var m1, w1 := Painted(m, b.elem, Black), w.(right := b.(color := Black));
    PaintedTop(m1, p.up, w1, Red, head, nil);
    var m2, w2 := Painted(m1, p.elem, Red), w1.(color := Red);
    LeftRotatedRep(m2, p.up, w2, head, nil);
    var m3, q := LeftRotated(m2, p.elem), BrotherRaised(p);
    FocusUp(m3, q.up, Lift(q, t), head, nil);
    FocusUp(m3, q, t, head, nil);
  }

  // The brother's outer child is red: one rotation at the parent and three colours.
  lemma LendLeftRep(m: Memory, p: Path<Node>, t: Tree<Node>, head: Node, nil: Node)
    requires Rep(m, p, t, head, nil) && p.InLeft? && p.right.Branch? && TreeColor(p.right.right) == Red
    ensures var b := p.right;
      && b.elem in m && p.elem in m && b.right.elem in m && CanRotateLeft(m, p.elem)
      && Rep(Painted(Painted(Painted(LeftRotated(m, p.elem), b.elem, p.color), p.elem, Black), b.right.elem, Black),
             p.up, RemoveRotate(p, t), head, nil)
  {
    FocusUp(m, p, t, head, nil);
    var w := Lift(p, t);
    var b := p.right;
    LeftRotatedRep(m, p.up, w, head, nil);
    var m1, w1 := LeftRotated(m, p.elem), RotatedLeft(w);
    PaintedTop(m1, p.up, w1, p.color, head, nil);
    var m2, w2 := Painted(m1, b.elem, p.color), w1.(color := p.color);
    PaintedLeft(m2, p.up, w2, Black, head, nil);
    var m3, w3 := Painted(m2, p.elem, Black), w2.(left := w2.left.(color := Black));
    PaintedRight(m3, p.up, w3, Black, head, nil);
  }

  // Only the inner child is red: a rotation at the brother brings it outside.
  lemma TurnLeftRep(m: Memory, p: Path<Node>, t: Tree<Node>, head: Node, nil: Node)
    requires Rep(m, p, t, head, nil) && p.InLeft? && p.right.Branch?
    requires TreeColor(p.right.left) == Red && TreeColor(p.right.right) == Black
    ensures var b := p.right;
      var c := b.left;
      var q := p.(right := Branch(c.left, c.elem, Black, Branch(c.right, b.elem, Red, b.right)));
      && b.elem in m && c.elem in m && CanRotateRight(Painted(Painted(m, b.elem, Red), c.elem, Black), b.elem)
      && Rep(RightRotated(Painted(Painted(m, b.elem, Red), c.elem, Black), b.elem), q, t, head, nil)
      && RemoveRotate(q, t) == RemoveRotate(p, t)
  {
    var b, r := p.right, InRight(p.up, t, p.elem, p.color);
    var q := p.(right := Branch(b.left.left, b.left.elem, Black, Branch(b.left.right, b.elem, Red, b.right)));
    FocusUp(m, p, t, head, nil);
    FocusUp(m, r, b, head, nil);
    PaintedTop(m, r, b, Red, head, nil);
    var m1, b1 := Painted(m, b.elem, Red), b.(color := Red);
    PaintedLeft(m1, r, b1, Black, head, nil);
    var m2, b2 := Painted(m1, b.left.elem, Black), b1.(left := b.left.(color := Black));
    RightRotatedRep(m2, r, b2, head, nil);
    var m3 := RightRotated(m2, b.elem);
    FocusUp(m3, r, RotatedRight(b2), head, nil);
    FocusUp(m3, q, t, head, nil);
  }

  // The red brother is rotated above the parent.
  lemma RaiseRightRep(m: Memory, p: Path<Node>, t: Tree<Node>, head: Node, nil: Node)
    requires Rep(m, p, t, head, nil) && p.InRight? && TreeColor(p.left) == Red
    ensures var b := p.left.elem;
      && b in m && p.elem in m && CanRotateRight(Painted(Painted(m, b, Black), p.elem, Red), p.elem)
      && Rep(RightRotated(Painted(Painted(m, b, Black), p.elem, Red), p.elem), BrotherRaised(p), t, head, nil)
  {
    FocusUp(m, p, t, head, nil);
    var w := Lift(p, t);
    var b := p.left;
    PaintedLeft(m, p.up, w, Black, head, nil);
    var m1, w1 := Painted(m, b.elem, Black), w.(left := b.(color := Black));
    PaintedTop(m1, p.up, w1, Red, head, nil);
    var m2, w2 := Painted(m1, p.elem, Red), w1.(color := Red);
    RightRotatedRep(m2, p.up, w2, head, nil);
    var m3, q := RightRotated(m2, p.elem), BrotherRaised(p);
    FocusUp(m3, q.up, Lift(q, t), head, nil);
    FocusUp(m3, q, t, head, nil);
  }

  // The brother's outer child is red: one rotation at the parent and three colours.
  lemma LendRightRep(m: Memory, p: Path<Node>, t: Tree<Node>, head: Node, nil: Node)
    requires Rep(m, p, t, head, nil) && p.InRight? && p.left.Branch? && TreeColor(p.left.left) == Red
    ensures var b := p.left;
      && b.elem in m && p.elem in m && b.left.elem in m && CanRotateRight(m, p.elem)
      && Rep(Painted(Painted(Painted(RightRotated(m, p.elem), b.elem, p.color), p.elem, Black), b.left.elem, Black),
             p.up, RemoveRotate(p, t), head, nil)
  {
    FocusUp(m, p, t, head, nil);
    var w := Lift(p, t);
    var b := p.left;
    RightRotatedRep(m, p.up, w, head, nil);
    var m1, w1 := RightRotated(m, p.elem), RotatedRight(w);
    PaintedTop(m1, p.up, w1, p.color, head, nil);
    var m2, w2 := Painted(m1, b.elem, p.color), w1.(color := p.color);
    PaintedRight(m2, p.up, w2, Black, head, nil);
    var m3, w3 := Painted(m2, p.elem, Black), w2.(right := w2.right.(color := Black));
    PaintedLeft(m3, p.up, w3, Black, head, nil);
  }

  // Only the inner child is red: a rotation at the brother brings it outside.
  lemma TurnRightRep(m: Memory, p: Path<Node>, t: Tree<Node>, head: Node, nil: Node)
    requires Rep(m, p, t, head, nil) && p.InRight? && p.left.Branch?
    requires TreeColor(p.left.right) == Red && TreeColor(p.left.left) == Black
    ensures var b := p.left;
      var c := b.right;
      var q := p.(left := Branch(Branch(b.left, b.elem, Red, c.left), c.elem, Black, c.right));
      && b.elem in m && c.elem in m && CanRotateLeft(Painted(Painted(m, b.elem, Red), c.elem, Black), b.elem)
      && Rep(LeftRotated(Painted(Painted(m, b.elem, Red), c.elem, Black), b.elem), q, t, head, nil)
      && RemoveRotate(q, t) == RemoveRotate(p, t)
  {
    var b, r := p.left, InLeft(p.up, p.elem, p.color, t);
    var q := p.(left := Branch(Branch(b.left, b.elem, Red, b.right.left), b.right.elem, Black, b.right.right));
    FocusUp(m, p, t, head, nil);
    FocusUp(m, r, b, head, nil);
    PaintedTop(m, r, b, Red, head, nil);
    var m1, b1 := Painted(m, b.elem, Red), b.(color := Red);
    PaintedRight(m1, r, b1, Black, head, nil);
    var m2, b2 := Painted(m1, b.right.elem, Black), b1.(right := b.right.(color := Black));
    LeftRotatedRep(m2, r, b2, head, nil);
    var m3 := LeftRotated(m2, b.elem);
    FocusUp(m3, r, RotatedLeft(b2), head, nil);
    FocusUp(m3, q, t, head, nil);
  }

  method RaiseBrotherOfLeft(parent: Node, brother0: Node, ghost nodes: set<Node>,
                            ghost p: Path<Node>, ghost t: Tree<Node>, ghost head: Node, ghost nil: Node)
    returns (brother: Node?)
    requires Rep(Snapshot(nodes), p, t, head, nil) && p.InLeft? && TreeColor(p.right) == Red
    requires parent == p.elem && brother0 == p.right.elem
    modifies nodes
    ensures Rep(Snapshot(nodes), BrotherRaised(p), t, head, nil) && brother == TopNode(p.right.left, nil)
    ensures nil.color == old(nil.color)
  {
    RaiseLeftRep(Snapshot(nodes), p, t, head, nil);
    Paint(brother0, Black, nodes);
    Paint(parent, Red, nodes);
    LeftRotate(parent, nodes);
    brother := parent.right;
  }

  // The brother whose outer child is red takes the parent's place.
  method LendFromRight(parent: Node, brother: Node, ghost nodes: set<Node>,
                       ghost p: Path<Node>, ghost t: Tree<Node>, ghost head: Node, ghost nil: Node)
    requires Rep(Snapshot(nodes), p, t, head, nil) && p.InLeft? && p.right.Branch? && nil.color == Black
    requires TreeColor(p.right.right) == Red && parent == p.elem && brother == p.right.elem
    modifies nodes
    ensures Rep(Snapshot(nodes), p.up, RemoveRotate(p, t), head, nil) && nil.color == Black
  {
    LendLeftRep(Snapshot(nodes), p, t, head, nil);
    SeenBrother(Snapshot(nodes), p, t, head, nil);
    LeftRotate(parent, nodes);
    Paint(brother, parent.color, nodes);
    Paint(parent, Black, nodes);
    Paint(brother.right, Black, nodes);
  }

  // Its red inner child is turned outside first.
  method TurnRightBrother(parent: Node, brother0: Node, ghost nodes: set<Node>,
                          ghost p: Path<Node>, ghost t: Tree<Node>, ghost head: Node, ghost nil: Node)
    returns (brother: Node?, ghost q: Path<Node>)
    requires Rep(Snapshot(nodes), p, t, head, nil) && p.InLeft? && p.right.Branch? && nil.color == Black
    requires TreeColor(p.right.left) == Red && TreeColor(p.right.right) == Black
    requires parent == p.elem && brother0 == p.right.elem
    modifies nodes
    ensures q.InLeft? && q.right.Branch? && q.up == p.up && q.elem == parent && brother == q.right.elem
    ensures TreeColor(q.right.right) == Red && RemoveRotate(q, t) == RemoveRotate(p, t)
    ensures Rep(Snapshot(nodes), q, t, head, nil) && nil.color == Black
  {
    ghost var b := p.right;
    SeenBrother(Snapshot(nodes), p, t, head, nil);
    TurnLeftRep(Snapshot(nodes), p, t, head, nil);
    Paint(brother0, Red, nodes);
    Paint(brother0.left, Black, nodes);
    RightRotate(brother0, nodes);
    brother := parent.right;
    q := p.(right := Branch(b.left.left, b.left.elem, Black, Branch(b.left.right, b.elem, Red, b.right)));
  }

  method RaiseBrotherOfRight(parent: Node, brother0: Node, ghost nodes: set<Node>,
                            ghost p: Path<Node>, ghost t: Tree<Node>, ghost head: Node, ghost nil: Node)
    returns (brother: Node?)
    requires Rep(Snapshot(nodes), p, t, head, nil) && p.InRight? && TreeColor(p.left) == Red
    requires parent == p.elem && brother0 == p.left.elem
    modifies nodes
    ensures Rep(Snapshot(nodes), BrotherRaised(p), t, head, nil) && brother == TopNode(p.left.right, nil)
    ensures nil.color == old(nil.color)
  {
    RaiseRightRep(Snapshot(nodes), p, t, head, nil);
    Paint(brother0, Black, nodes);
    Paint(parent, Red, nodes);
    RightRotate(parent, nodes);
    brother := parent.left;
  }

  // The brother whose outer child is red takes the parent's place.
  method LendFromLeft(parent: Node, brother: Node, ghost nodes: set<Node>,
                       ghost p: Path<Node>, ghost t: Tree<Node>, ghost head: Node, ghost nil: Node)
    requires Rep(Snapshot(nodes), p, t, head, nil) && p.InRight? && p.left.Branch? && nil.color == Black
    requires TreeColor(p.left.left) == Red && parent == p.elem && brother == p.left.elem
    modifies nodes
    ensures Rep(Snapshot(nodes), p.up, RemoveRotate(p, t), head, nil) && nil.color == Black
  {
    LendRightRep(Snapshot(nodes), p, t, head, nil);
    SeenBrother(Snapshot(nodes), p, t, head, nil);
    RightRotate(parent, nodes);
    Paint(brother, parent.color, nodes);
    Paint(parent, Black, nodes);
    Paint(brother.left, Black, nodes);
  }

  // Its red inner child is turned outside first.
  method TurnLeftBrother(parent: Node, brother0: Node, ghost nodes: set<Node>,
                          ghost p: Path<Node>, ghost t: Tree<Node>, ghost head: Node, ghost nil: Node)
    returns (brother: Node?, ghost q: Path<Node>)
    requires Rep(Snapshot(nodes), p, t, head, nil) && p.InRight? && p.left.Branch? && nil.color == Black
    requires TreeColor(p.left.right) == Red && TreeColor(p.left.left) == Black
    requires parent == p.elem && brother0 == p.left.elem
    modifies nodes
    ensures q.InRight? && q.left.Branch? && q.up == p.up && q.elem == parent && brother == q.left.elem
    ensures TreeColor(q.left.left) == Red && RemoveRotate(q, t) == RemoveRotate(p, t)
    ensures Rep(Snapshot(nodes), q, t, head, nil) && nil.color == Black
  {
    ghost var b := p.left;
    SeenBrother(Snapshot(nodes), p, t, head, nil);
    TurnRightRep(Snapshot(nodes), p, t, head, nil);
    Paint(brother0, Red, nodes);
    Paint(brother0.right, Black, nodes);
    LeftRotate(brother0, nodes);
    brother := parent.left;
    q := p.(left := Branch(Branch(b.left, b.elem, Red, b.right.left), b.right.elem, Black, b.right.right));
  }

  lemma RemoveRecolorRep(m: Memory, p: Path<Node>, t: Tree<Node>, head: Node, nil: Node)
    requires Rep(m, p, t, head, nil) && !p.Top? && Sibling(p).Branch?
    ensures Sibling(p).elem in m
    ensures Rep(Painted(m, Sibling(p).elem, Red), p.up, RemoveRecolor(p, t), head, nil)
  {
    FocusUp(m, p, t, head, nil);
    if p.InLeft? {
      PaintedRight(m, p.up, Lift(p, t), Red, head, nil);
    } else {
      PaintedLeft(m, p.up, Lift(p, t), Red, head, nil);
    }
  }

  // The loop can go on from here: colours fit, and no brother will be the sentinel.
  ghost predicate Repairing(p: Path<Node>, t: Tree<Node>) {
    ColorsFit(p, t) && BrothersReal(p, TreeColor(t))
  }

  // The repair of (q, s) is what is left to do of the repair of (p, t): the focus went up
  // one place, or sits at a red parent where the next turn ends.
  ghost predicate TurnDone(p: Path<Node>, t: Tree<Node>, q: Path<Node>, s: Tree<Node>)
    requires !p.Top?
  {
    && Repairing(q, s) && RemoveFix(q, s) == RemoveFix(p, t)
    && s.Branch? && s.elem == p.elem
    && (q == p.up || (!q.Top? && q.up == p.up && s.color == Red))
  }

  // A brother with a red child ends the loop.
  method EndTurnLeft(parent: Node, brother0: Node, ghost nodes: set<Node>, ghost p: Path<Node>, ghost t: Tree<Node>,
                     ghost head: Node, ghost nil: Node)
    requires Rep(Snapshot(nodes), p, t, head, nil) && nil.color == Black && p.InLeft? && !CanRecolor(p)
    requires parent == p.elem && brother0 == p.right.elem
    modifies nodes
    ensures Rep(Snapshot(nodes), Top, Plug(p.up, RemoveRotate(p, t)), head, nil) && nil.color == Black
  {
    var brother := brother0;
    ghost var q := p;
    SeenBrother(Snapshot(nodes), p, t, head, nil);
    if brother.left.color == Red && brother.right.color == Black {
      brother, q := TurnRightBrother(parent, brother, nodes, p, t, head, nil);
    }
    LendFromRight(parent, brother, nodes, q, t, head, nil);
    FocusTop(Snapshot(nodes), q.up, RemoveRotate(q, t), head, nil);
  }

  // One turn of the repair loop with the node on the left; `more` is the source's `continue`.
  method RmFixLeft(parent: Node, ghost nodes: set<Node>, ghost p: Path<Node>, ghost t: Tree<Node>,
                   ghost head: Node, ghost nil: Node)
    returns (more: bool, ghost q: Path<Node>, ghost s: Tree<Node>)
    requires Rep(Snapshot(nodes), p, t, head, nil) && Repairing(p, t) && nil.color == Black
    requires p.InLeft? && TreeColor(t) == Black && parent == p.elem
    modifies nodes
    ensures nil.color == Black
    ensures !more ==> Rep(Snapshot(nodes), Top, RemoveFix(p, t), head, nil)
    ensures more ==> Rep(Snapshot(nodes), q, s, head, nil) && TurnDone(p, t, q, s)
  {
    q, s := p, t;
    var brother := parent.right;
    SeenBrother(Snapshot(nodes), q, s, head, nil);
    if brother.color == Red {
      BrotherRaisedFits(q, s);
      brother := RaiseBrotherOfLeft(parent, brother, nodes, q, s, head, nil);
      q := BrotherRaised(q);
    }
    SeenBrother(Snapshot(nodes), q, s, head, nil);
    if brother.left.color == Black && brother.right.color == Black {
      RemoveRecolorRep(Snapshot(nodes), q, s, head, nil);
      RemoveRecolorFits(q, s);
      Paint(brother, Red, nodes);
      q, s := q.up, RemoveRecolor(q, s);
      return true, q, s;
    }
    EndTurnLeft(parent, brother, nodes, q, s, head, nil);
    return false, q, s;
  }

  // A brother with a red child ends the loop.
  method EndTurnRight(parent: Node, brother0: Node, ghost nodes: set<Node>, ghost p: Path<Node>, ghost t: Tree<Node>,
                     ghost head: Node, ghost nil: Node)
    requires Rep(Snapshot(nodes), p, t, head, nil) && nil.color == Black && p.InRight? && !CanRecolor(p)
    requires parent == p.elem && brother0 == p.left.elem
    modifies nodes
    ensures Rep(Snapshot(nodes), Top, Plug(p.up, RemoveRotate(p, t)), head, nil) && nil.color == Black
  {
    var brother := brother0;
    ghost var q := p;
    SeenBrother(Snapshot(nodes), p, t, head, nil);
    if brother.right.color == Red && brother.left.color == Black {
      brother, q := TurnLeftBrother(parent, brother, nodes, p, t, head, nil);
    }
    LendFromLeft(parent, brother, nodes, q, t, head, nil);
    FocusTop(Snapshot(nodes), q.up, RemoveRotate(q, t), head, nil);
  }

  // One turn of the repair loop with the node on the right; `more` is the source's `continue`.
  method RmFixRight(parent: Node, ghost nodes: set<Node>, ghost p: Path<Node>, ghost t: Tree<Node>,
                   ghost head: Node, ghost nil: Node)
    returns (more: bool, ghost q: Path<Node>, ghost s: Tree<Node>)
    requires Rep(Snapshot(nodes), p, t, head, nil) && Repairing(p, t) && nil.color == Black
    requires p.InRight? && TreeColor(t) == Black && parent == p.elem
    modifies nodes
    ensures nil.color == Black
    ensures !more ==> Rep(Snapshot(nodes), Top, RemoveFix(p, t), head, nil)
    ensures more ==> Rep(Snapshot(nodes), q, s, head, nil) && TurnDone(p, t, q, s)
  {
    q, s := p, t;
    var brother := parent.left;
    SeenBrother(Snapshot(nodes), q, s, head, nil);
    if brother.color == Red {
      BrotherRaisedFits(q, s);
      brother := RaiseBrotherOfRight(parent, brother, nodes, q, s, head, nil);
      q := BrotherRaised(q);
    }
    SeenBrother(Snapshot(nodes), q, s, head, nil);
    if brother.right.color == Black && brother.left.color == Black {
      RemoveRecolorRep(Snapshot(nodes), q, s, head, nil);
      RemoveRecolorFits(q, s);
      Paint(brother, Red, nodes);
      q, s := q.up, RemoveRecolor(q, s);
      return true, q, s;
    }
    EndTurnRight(parent, brother, nodes, q, s, head, nil);
    return false, q, s;
  }

  // One turn on the side the node is on; no brother is the sentinel, so the test is clear.
  method RmFixTurn(node: Node, parent: Node, ghost nodes: set<Node>, ghost p: Path<Node>, ghost t: Tree<Node>,
                   ghost head: Node, ghost nil: Node)
    returns (more: bool, ghost q: Path<Node>, ghost s: Tree<Node>)
    requires Rep(Snapshot(nodes), p, t, head, nil) && Repairing(p, t) && nil.color == Black
    requires !p.Top? && TreeColor(t) == Black && node == TopNode(t, nil) && parent == p.elem
    modifies nodes
    ensures nil.color == Black
    ensures !more ==> Rep(Snapshot(nodes), Top, RemoveFix(p, t), head, nil)
    ensures more ==> Rep(Snapshot(nodes), q, s, head, nil) && TurnDone(p, t, q, s)
  {
    if node == parent.left {
      more, q, s := RmFixLeft(parent, nodes, p, t, head, nil);
    } else {
      more, q, s := RmFixRight(parent, nodes, p, t, head, nil);
    }
  }

  function Depth<T>(p: Path<T>): nat {
    if p.Top? then 0 else 1 + Depth(p.up)
  }

  // The last turn: the node, which may be the sentinel, turns black.
  method BlackenTop(node: Node, ghost nodes: set<Node>, ghost p: Path<Node>, ghost t: Tree<Node>,
                    ghost head: Node, ghost nil: Node)
    requires Rep(Snapshot(nodes), p, t, head, nil) && node == TopNode(t, nil)
    modifies nodes
    ensures Rep(Snapshot(nodes), Top, Plug(p, Blacken(t)), head, nil)
    ensures nil.color == if t.Leaf? then Black else old(nil.color)
  {
    ghost var m := Snapshot(nodes);
    if t.Leaf? {
      RepFrame(m, Painted(m, nil, Black), p, t, head, nil);
    } else {
      PaintedTop(m, p, t, Black, head, nil);
    }
    Paint(node, Black, nodes);
    FocusTop(Snapshot(nodes), p, Blacken(t), head, nil);
  }

  /** rb_rmfix: `node` is the top of t, or the sentinel whose parent link says where it hangs.
      A red sentinel ends the loop at once. */
  method RmFix(root: Node, node0: Node, nil: Node, ghost nodes: set<Node>, ghost head: Node,
               ghost p: Path<Node>, ghost t: Tree<Node>)
    requires Rep(Snapshot(nodes), p, t, head, nil) && node0 == TopNode(t, nil) && node0.parent == Above(p, head)
    requires root == RootAbove(p, node0) && ColorsFit(p, t)
    requires if nil.color == Red then t.Leaf? || t.color == Red else BrothersReal(p, TreeColor(t))
    modifies nodes
    ensures var w := if old(nil.color) == Red && t.Leaf? then Plug(p, t) else RemoveFix(p, t);
      Rep(Snapshot(nodes), Top, w, head, nil)
    ensures nil.color == if t.Leaf? then Black else old(nil.color)
  {
    var node := node0;
    ghost var q, s := p, t;
    while true
      invariant Rep(Snapshot(nodes), q, s, head, nil) && node == TopNode(s, nil) && node.parent == Above(q, head)
      invariant ColorsFit(q, s) && (nil.color == Black ==> BrothersReal(q, TreeColor(s)))
      invariant root == RootAbove(q, node) || (!q.Top? && TreeColor(s) == Red)
      invariant nil.color == old(nil.color)
      invariant if nil.color == Red then q == p && s == t else RemoveFix(q, s) == RemoveFix(p, t)
      decreases Depth(q), if TreeColor(s) == Red then 0 else 1
    {
      RootAboveInside(q, node);
      if node == root || node.color == Red {
        BlackenTop(node, nodes, q, s, head, nil);
        break;
      }
      var parent := node.parent;
      var more: bool;
      ghost var q', s';
      more, q', s' := RmFixTurn(node, parent, nodes, q, s, head, nil);
      if !more {
        break;
      }
      node := parent;
      q, s := q', s';
    }
  }
}
