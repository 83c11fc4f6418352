/** The pointer code of src/rb_tree.c: nodes with parent links, one shared sentinel
    `nil`, and a `head` whose left field is the root. */
module RbMemory {
  import opened RbTheory

  class Node {
    const pid: int
    var color: Color
    var parent: Node?
    var left: Node?
    var right: Node?

    // A zeroed struct: colour 0 is red.
    constructor (pid: int)
      ensures this.pid == pid && color == Red && parent == null && left == null && right == null
    {
      this.pid := pid;
      color, parent, left, right := Red, null, null, null;
    }
  }

  /** The fields of one node, and a snapshot of the nodes in play. */
  datatype Cell = Cell(color: Color, parent: Node?, left: Node?, right: Node?)

  type Memory = map<Node, Cell>

  ghost function Snapshot(nodes: set<Node>): Memory
    reads nodes
  {
    map n | n in nodes :: Cell(n.color, n.parent, n.left, n.right)
  }

  // ---------- what a snapshot represents ----------

  ghost function Nodes(t: Tree<Node>): set<Node> {
    if t.Leaf? then {} else Nodes(t.left) + {t.elem} + Nodes(t.right)
  }

  ghost function PathNodes(p: Path<Node>): set<Node> {
    if p.Top? then {} else PathNodes(p.up) + {p.elem} + Nodes(Sibling(p))
  }

  ghost predicate Distinct(t: Tree<Node>) {
    t.Branch? ==>
      && Distinct(t.left) && Distinct(t.right)
      && t.elem !in Nodes(t.left) && t.elem !in Nodes(t.right) && Nodes(t.left) !! Nodes(t.right)
  }

  ghost predicate PathDistinct(p: Path<Node>) {
    !p.Top? ==>
      && PathDistinct(p.up) && Distinct(Sibling(p))
      && p.elem !in PathNodes(p.up) && p.elem !in Nodes(Sibling(p)) && PathNodes(p.up) !! Nodes(Sibling(p))
  }

  ghost function TopNode(t: Tree<Node>, nil: Node): Node {
    if t.Leaf? then nil else t.elem
  }

  ghost function Above(p: Path<Node>, head: Node): Node {
    if p.Top? then head else p.elem
  }

  // Every link in t, up and down, and every colour, is the one in memory.
  ghost predicate Linked(m: Memory, t: Tree<Node>, up: Node, nil: Node) {
    t.Branch? ==>
      && t.elem in m && m[t.elem] == Cell(t.color, up, TopNode(t.left, nil), TopNode(t.right, nil))
      && Linked(m, t.left, t.elem, nil) && Linked(m, t.right, t.elem, nil)
  }

  // The same for the path above a subtree whose top is `at`.
  ghost predicate PathLinked(m: Memory, p: Path<Node>, at: Node, head: Node, nil: Node) {
    match p
    case Top => head in m && m[head].left == at
    case InLeft(up, x, c, r) =>
      && x in m && m[x] == Cell(c, Above(up, head), at, TopNode(r, nil))
      && Linked(m, r, x, nil) && PathLinked(m, up, x, head, nil)
    case InRight(up, l, x, c) =>
      && x in m && m[x] == Cell(c, Above(up, head), TopNode(l, nil), at)
      && Linked(m, l, x, nil) && PathLinked(m, up, x, head, nil)
  }

  ghost function RootAbove(p: Path<Node>, at: Node): Node {
    if p.Top? then at else RootAbove(p.up, p.elem)
  }

  // The places of Plug(p, t), the head and the sentinel are pairwise different.
  ghost predicate Apart(p: Path<Node>, t: Tree<Node>, head: Node, nil: Node) {
    && Distinct(t) && PathDistinct(p) && PathNodes(p) !! Nodes(t)
    && head != nil && head !in PathNodes(p) + Nodes(t) && nil !in PathNodes(p) + Nodes(t)
  }

  // Nothing is ever linked below the sentinel.
  ghost predicate Childless(c: Cell) { c.left == null && c.right == null }

  /** Memory below `head` is the tree Plug(p, t). */
  ghost predicate Rep(m: Memory, p: Path<Node>, t: Tree<Node>, head: Node, nil: Node) {
    && nil in m && Childless(m[nil]) && Apart(p, t, head, nil)
    && Linked(m, t, Above(p, head), nil) && PathLinked(m, p, TopNode(t, nil), head, nil)
  }

  // Moving the focus up and down one step.
  lemma FocusUp(m: Memory, p: Path<Node>, t: Tree<Node>, head: Node, nil: Node)
    requires !p.Top?
    ensures Rep(m, p, t, head, nil) <==> Rep(m, p.up, Lift(p, t), head, nil)
  {
  }

  lemma {:induction false} FocusTop(m: Memory, p: Path<Node>, t: Tree<Node>, head: Node, nil: Node)
    ensures Rep(m, p, t, head, nil) <==> Rep(m, Top, Plug(p, t), head, nil)
    decreases p
  {
    if !p.Top? {
      FocusUp(m, p, t, head, nil);
      FocusTop(m, p.up, Lift(p, t), head, nil);
    }
  }

  // What does not touch a part leaves it linked.
  lemma {:induction false} LinkedFrame(m: Memory, m': Memory, t: Tree<Node>, up: Node, nil: Node)
    requires Linked(m, t, up, nil) && forall n | n in Nodes(t) && n in m :: n in m' && m'[n] == m[n]
    ensures Linked(m', t, up, nil)
    decreases t
  {
    if t.Branch? {
      LinkedFrame(m, m', t.left, t.elem, nil);
      LinkedFrame(m, m', t.right, t.elem, nil);
    }
  }

  // A subtree taken over by another parent.
  lemma Adopted(m: Memory, m': Memory, t: Tree<Node>, up: Node, up': Node, nil: Node)
    requires Linked(m, t, up, nil) && Distinct(t)
    requires forall n | n in Nodes(t) && n in m && n != TopNode(t, nil) :: n in m' && m'[n] == m[n]
    requires t.Branch? ==> t.elem in m' && m'[t.elem] == m[t.elem].(parent := up')
    ensures Linked(m', t, up', nil)
  {
    if t.Branch? {
      LinkedFrame(m, m', t.left, t.elem, nil);
      LinkedFrame(m, m', t.right, t.elem, nil);
    }
  }

  // The hole of a path gets another top.
  function SetChild(c: Cell, from: Node, to: Node): Cell {
    if c.left == from then c.(left := to) else c.(right := to)
  }

  lemma {:induction false} PathFrame(m: Memory, m': Memory, p: Path<Node>, at: Node, head: Node, nil: Node)
    requires PathLinked(m, p, at, head, nil)
    requires forall n | (n in PathNodes(p) || n == head) && n in m :: n in m' && m'[n] == m[n]
    ensures PathLinked(m', p, at, head, nil)
    decreases p
  {
    if !p.Top? {
      LinkedFrame(m, m', Sibling(p), p.elem, nil);
      PathFrame(m, m', p.up, p.elem, head, nil);
    }
  }

  lemma Rehung(m: Memory, m': Memory, p: Path<Node>, at: Node, at': Node, head: Node, nil: Node)
    requires PathLinked(m, p, at, head, nil) && PathDistinct(p) && head !in PathNodes(p)
    requires at !in PathNodes(p) && at != nil
    requires forall n | (n in PathNodes(p) || n == head) && n in m && n != Above(p, head) :: n in m' && m'[n] == m[n]
    requires Above(p, head) in m && Above(p, head) in m' && m'[Above(p, head)] == SetChild(m[Above(p, head)], at, at')
    ensures PathLinked(m', p, at', head, nil)
  {
    if !p.Top? {
      LinkedFrame(m, m', Sibling(p), p.elem, nil);
      PathFrame(m, m', p.up, p.elem, head, nil);
    }
  }

  lemma {:induction false} RootAboveInside(p: Path<Node>, at: Node)
    ensures p.Top? ==> RootAbove(p, at) == at
    ensures !p.Top? ==> RootAbove(p, at) in PathNodes(p)
    decreases p
  {
    if !p.Top? {
      RootAboveInside(p.up, p.elem);
    }
  }
}
