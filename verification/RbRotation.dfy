/** Rotations and colour changes of src/rb_tree.c in place, and the trees they leave. */
module RbRotation {
  import opened RbTheory
  import opened RbMemory

  function RotatedLeft<T>(t: Tree<T>): Tree<T>
    requires t.Branch? && t.right.Branch?
  {
    Branch(Branch(t.left, t.elem, t.color, t.right.left), t.right.elem, t.right.color, t.right.right)
  }

  function RotatedRight<T>(t: Tree<T>): Tree<T>
    requires t.Branch? && t.left.Branch?
  {
    Branch(t.left.left, t.left.elem, t.left.color, Branch(t.left.right, t.elem, t.color, t.right))
  }

  lemma RotatedLeftApart(p: Path<Node>, t: Tree<Node>, head: Node, nil: Node)
    requires Apart(p, t, head, nil) && t.Branch? && t.right.Branch?
    ensures Apart(p, RotatedLeft(t), head, nil) && Nodes(RotatedLeft(t)) == Nodes(t)
  {
    assert Distinct(t.right);
    assert Distinct(RotatedLeft(t).left);
  }

  // Four different nodes meet in a rotation at `node`; the inner child may be the sentinel.
  ghost predicate CanRotateLeft(m: Memory, node: Node) {
    && node in m && m[node].right in m && m[node].parent in m
    && var tmp, up: Node := m[node].right, m[node].parent;
    && m[tmp].left in m
    && var b: Node := m[tmp].left;
    && node != tmp && node != up && node != b && tmp != up && tmp != b && up != b
  }

  ghost function LeftRotated(m: Memory, node: Node): Memory
    requires CanRotateLeft(m, node)
  {
    var tmp, up: Node := m[node].right, m[node].parent;
    var b: Node := m[tmp].left;
    m[node := m[node].(right := b, parent := tmp)]
     [b := m[b].(parent := node)]
     [up := SetChild(m[up], node, tmp)]
     [tmp := m[tmp].(parent := up, left := node)]
  }

  method LeftRotate(node: Node, ghost nodes: set<Node>)
    requires CanRotateLeft(Snapshot(nodes), node)
    modifies nodes
    ensures Snapshot(nodes) == LeftRotated(old(Snapshot(nodes)), node)
  {
    var tmp := node.right;
    node.right := tmp.left;
    tmp.left.parent := node;
    if node.parent.left == node {
      node.parent.left := tmp;
    } else {
      node.parent.right := tmp;
    }
    tmp.parent := node.parent;
    node.parent := tmp;
    tmp.left := node;
  }

  lemma LeftRotatedRep(m: Memory, p: Path<Node>, t: Tree<Node>, head: Node, nil: Node)
    requires Rep(m, p, t, head, nil) && t.Branch? && t.right.Branch?
    ensures CanRotateLeft(m, t.elem) && Rep(LeftRotated(m, t.elem), p, RotatedLeft(t), head, nil)
  {
    var node, r, up := t.elem, t.right, Above(p, head);
    var tmp := r.elem;
    RotatedLeftApart(p, t, head, nil);
    assert Linked(m, t.left, node, nil) && Linked(m, r, node, nil) && Distinct(r);
    assert Linked(m, r.left, tmp, nil) && Linked(m, r.right, tmp, nil) && Distinct(r.left);
    var b := TopNode(r.left, nil);
    assert Nodes(r.left) <= Nodes(r) <= Nodes(t) && (b == nil || b in Nodes(r.left));
    assert up in m && tmp in m && b in m;
    assert up !in Nodes(t) && up != nil && b != node && b != tmp && node != tmp;
    assert m[node].right == tmp && m[tmp].left == b && m[node].parent == up;
    var m' := LeftRotated(m, node);
    Adopted(m, m', r.left, tmp, node, nil);
    LinkedFrame(m, m', t.left, node, nil);
    LinkedFrame(m, m', r.right, tmp, nil);
    Rehung(m, m', p, node, tmp, head, nil);
    assert Linked(m', RotatedLeft(t).left, tmp, nil);
  }

  lemma RotatedRightApart(p: Path<Node>, t: Tree<Node>, head: Node, nil: Node)
    requires Apart(p, t, head, nil) && t.Branch? && t.left.Branch?
    ensures Apart(p, RotatedRight(t), head, nil) && Nodes(RotatedRight(t)) == Nodes(t)
  {
    assert Distinct(t.left);
    assert Distinct(RotatedRight(t).right);
  }

  // Four different nodes meet in a rotation at `node`; the inner child may be the sentinel.
  ghost predicate CanRotateRight(m: Memory, node: Node) {
    && node in m && m[node].left in m && m[node].parent in m
    && var tmp, up: Node := m[node].left, m[node].parent;
    && m[tmp].right in m
    && var b: Node := m[tmp].right;
    && node != tmp && node != up && node != b && tmp != up && tmp != b && up != b
  }

  ghost function RightRotated(m: Memory, node: Node): Memory
    requires CanRotateRight(m, node)
  {
    var tmp, up: Node := m[node].left, m[node].parent;
    var b: Node := m[tmp].right;
    m[node := m[node].(left := b, parent := tmp)]
     [b := m[b].(parent := node)]
     [up := SetChild(m[up], node, tmp)]
     [tmp := m[tmp].(parent := up, right := node)]
  }

  method RightRotate(node: Node, ghost nodes: set<Node>)
    requires CanRotateRight(Snapshot(nodes), node)
    modifies nodes
    ensures Snapshot(nodes) == RightRotated(old(Snapshot(nodes)), node)
  {
    var tmp := node.left;
    node.left := tmp.right;
    tmp.right.parent := node;
    if node.parent.left == node {
      node.parent.left := tmp;
    } else {
      node.parent.right := tmp;
    }
    tmp.parent := node.parent;
    node.parent := tmp;
    tmp.right := node;
  }

  lemma RightRotatedRep(m: Memory, p: Path<Node>, t: Tree<Node>, head: Node, nil: Node)
    requires Rep(m, p, t, head, nil) && t.Branch? && t.left.Branch?
    ensures CanRotateRight(m, t.elem) && Rep(RightRotated(m, t.elem), p, RotatedRight(t), head, nil)
  {
    var node, r, up := t.elem, t.left, Above(p, head);
    var tmp := r.elem;
    RotatedRightApart(p, t, head, nil);
    assert Linked(m, t.right, node, nil) && Linked(m, r, node, nil) && Distinct(r);
    assert Linked(m, r.right, tmp, nil) && Linked(m, r.left, tmp, nil) && Distinct(r.right);
    var b := TopNode(r.right, nil);
    assert Nodes(r.right) <= Nodes(r) <= Nodes(t) && (b == nil || b in Nodes(r.right));
    assert up in m && tmp in m && b in m;
    assert up !in Nodes(t) && up != nil && b != node && b != tmp && node != tmp;
    assert m[node].left == tmp && m[tmp].right == b && m[node].parent == up;
    var m' := RightRotated(m, node);
    Adopted(m, m', r.right, tmp, node, nil);
    LinkedFrame(m, m', t.right, node, nil);
    LinkedFrame(m, m', r.left, tmp, nil);
    Rehung(m, m', p, node, tmp, head, nil);
    assert Linked(m', RotatedRight(t).right, tmp, nil);
  }

  // ---------- colours ----------

  method Paint(x: Node, c: Color, ghost nodes: set<Node>)
    requires x in nodes
    modifies x`color
    ensures Snapshot(nodes) == old(Snapshot(nodes))[x := old(Snapshot(nodes)[x]).(color := c)]
  {
    x.color := c;
  }

  ghost function Painted(m: Memory, x: Node, c: Color): Memory
    requires x in m
  {
    m[x := m[x].(color := c)]
  }

  lemma RepFrame(m: Memory, m': Memory, p: Path<Node>, t: Tree<Node>, head: Node, nil: Node)
    requires Rep(m, p, t, head, nil) && nil in m' && Childless(m'[nil])
    requires forall n | n in m && n in PathNodes(p) + Nodes(t) + {head} :: n in m' && m'[n] == m[n]
    ensures Rep(m', p, t, head, nil)
  {
    LinkedFrame(m, m', t, Above(p, head), nil);
    PathFrame(m, m', p, TopNode(t, nil), head, nil);
  }

  lemma PaintedTop(m: Memory, p: Path<Node>, t: Tree<Node>, c: Color, head: Node, nil: Node)
    requires Rep(m, p, t, head, nil) && t.Branch?
    ensures t.elem in m && Rep(Painted(m, t.elem, c), p, t.(color := c), head, nil)
  {
    var m' := Painted(m, t.elem, c);
    LinkedFrame(m, m', t.left, t.elem, nil);
    LinkedFrame(m, m', t.right, t.elem, nil);
    PathFrame(m, m', p, t.elem, head, nil);
  }

  lemma PaintedLeft(m: Memory, p: Path<Node>, t: Tree<Node>, c: Color, head: Node, nil: Node)
    requires Rep(m, p, t, head, nil) && t.Branch? && t.left.Branch?
    ensures t.left.elem in m && Rep(Painted(m, t.left.elem, c), p, t.(left := t.left.(color := c)), head, nil)
  {
    var q := InLeft(p, t.elem, t.color, t.right);
    FocusUp(m, q, t.left, head, nil);
    PaintedTop(m, q, t.left, c, head, nil);
    FocusUp(Painted(m, t.left.elem, c), q, t.left.(color := c), head, nil);
  }

  lemma PaintedRight(m: Memory, p: Path<Node>, t: Tree<Node>, c: Color, head: Node, nil: Node)
    requires Rep(m, p, t, head, nil) && t.Branch? && t.right.Branch?
    ensures t.right.elem in m && Rep(Painted(m, t.right.elem, c), p, t.(right := t.right.(color := c)), head, nil)
  {
    var q := InRight(p, t.left, t.elem, t.color);
    FocusUp(m, q, t.right, head, nil);
    PaintedTop(m, q, t.right, c, head, nil);
    FocusUp(Painted(m, t.right.elem, c), q, t.right.(color := c), head, nil);
  }
}
