/** Two nodes trading places: swap_node of src/rb_tree.c, and the exchange with an adjacent successor. */
module RbExchange {
  import opened RbTheory
  import opened RbMemory

  function SwapCell(c: Cell, a: Node, b: Node): Cell {
    Cell(c.color, Swap(c.parent, a, b), Swap(c.left, a, b), Swap(c.right, a, b))
  }

  // m' is m with a and b exchanged everywhere in the tree on `places`.
  ghost predicate Exchanged(m: Memory, m': Memory, places: set<Node>, head: Node, a: Node, b: Node) {
    && (forall x | x in places && x in m :: Swap(x, a, b) in m' && m'[Swap(x, a, b)] == SwapCell(m[x], a, b))
    && head in m && head in m' && m'[head].left == Swap(m[head].left, a, b)
  }

  lemma {:induction false} RenameNodes(t: Tree<Node>, a: Node, b: Node)
    ensures forall x :: x in Nodes(t) <==> Swap(x, a, b) in Nodes(Rename(t, a, b))
    ensures Distinct(t) ==> Distinct(Rename(t, a, b))
  {
    if t.Branch? {
      RenameNodes(t.left, a, b);
      RenameNodes(t.right, a, b);
      forall y | y in Nodes(Rename(t.left, a, b)) ensures Swap(y, a, b) in Nodes(t.left) {
        assert Swap(Swap(y, a, b), a, b) == y;
      }
      forall y | y in Nodes(Rename(t.right, a, b)) ensures Swap(y, a, b) in Nodes(t.right) {
        assert Swap(Swap(y, a, b), a, b) == y;
      }
    }
  }

  lemma {:induction false} ExchangedLinked(m: Memory, m': Memory, t: Tree<Node>, up: Node, nil: Node, head: Node,
                                           a: Node, b: Node)
    requires Linked(m, t, up, nil) && Exchanged(m, m', Nodes(t), head, a, b) && nil != a && nil != b
    ensures Linked(m', Rename(t, a, b), Swap(up, a, b), nil)
    decreases t
  {
    if t.Branch? {
      ExchangedLinked(m, m', t.left, t.elem, nil, head, a, b);
      ExchangedLinked(m, m', t.right, t.elem, nil, head, a, b);
    }
  }

  lemma ExchangedRep(m: Memory, m': Memory, w: Tree<Node>, head: Node, nil: Node, a: Node, b: Node)
    requires Rep(m, Top, w, head, nil) && nil in m' && Childless(m'[nil]) && a in Nodes(w) && b in Nodes(w)
    requires Exchanged(m, m', Nodes(w), head, a, b)
    ensures Rep(m', Top, Rename(w, a, b), head, nil)
  {
    RenameNodes(w, a, b);
    assert Swap(head, a, b) == head && Swap(nil, a, b) == nil;
    ExchangedLinked(m, m', w, head, nil, head, a, b);
  }

  // Child and parent links agree everywhere in a tree.
  ghost predicate LinksAgree(m: Memory, x: Node, places: set<Node>, nil: Node) {
    && x in m && m[x].parent != x && m[x].left != x && m[x].right != x
    && (m[x].left == nil || (m[x].left in places && m[x].left in m && m[m[x].left].parent == x))
    && (m[x].right == nil || (m[x].right in places && m[x].right in m && m[m[x].right].parent == x))
    && (m[x].left == m[x].right ==> m[x].left == nil)
  }

  lemma {:induction false} AllLinksAgree(m: Memory, t: Tree<Node>, up: Node, nil: Node)
    requires Linked(m, t, up, nil) && Distinct(t) && nil !in Nodes(t)
    requires up !in Nodes(t)
    ensures forall x | x in Nodes(t) :: LinksAgree(m, x, Nodes(t), nil)
    ensures forall x | x in Nodes(t) && x != TopNode(t, nil) ::
      && x in m && m[x].parent in Nodes(t) && m[x].parent in m
      && (m[m[x].parent].left == x || m[m[x].parent].right == x)
    decreases t
  {
    if t.Branch? {
      AllLinksAgree(m, t.left, t.elem, nil);
      AllLinksAgree(m, t.right, t.elem, nil);
    }
  }

  ghost predicate Near(m: Memory, n: Node?, a: Node, b: Node) {
    n in m && n != a && n != b
  }

  // Two nodes none of whose neighbours is the other, below different parents.
  ghost predicate CanSwap(m: Memory, a: Node, b: Node) {
    && a in m && b in m && a != b && m[a].parent != m[b].parent
    && Near(m, m[a].parent, a, b) && Near(m, m[a].left, a, b) && Near(m, m[a].right, a, b)
    && Near(m, m[b].parent, a, b) && Near(m, m[b].left, a, b) && Near(m, m[b].right, a, b)
  }

  ghost function Reparented(m: Memory, x: Node?, up: Node): Memory
    requires x in m
  {
    m[x := m[x].(parent := up)]
  }

  ghost function WithChild(m: Memory, up: Node?, x: Node, y: Node): Memory
    requires up in m
  {
    m[up := SetChild(m[up], x, y)]
  }

  // The parents' links and the two structs are exchanged, then the four children adopted.
  ghost function Exchange(m: Memory, a: Node, b: Node): Memory
    requires CanSwap(m, a, b)
  {
    WithChild(WithChild(m, m[a].parent, a, b), m[b].parent, b, a)[a := m[b]][b := m[a]]
  }

  ghost function ChildrenAdopted(m: Memory, a: Node): Memory
    requires a in m && m[a].left in m && m[a].right in m && m[a].left != a && m[a].right != a
  {
    Reparented(Reparented(m, m[a].left, a), m[a].right, a)
  }

  ghost function Swapped(m: Memory, a: Node, b: Node): Memory
    requires CanSwap(m, a, b)
  {
    ChildrenAdopted(ChildrenAdopted(Exchange(m, a, b), a), b)
  }

  method SetParent(x: Node, up: Node, ghost nodes: set<Node>)
    requires x in nodes
    modifies x`parent
    ensures Snapshot(nodes) == Reparented(old(Snapshot(nodes)), x, up)
  {
    x.parent := up;
  }

  method ReplaceChild(up: Node, x: Node, y: Node, ghost nodes: set<Node>)
    requires up in nodes
    modifies up`left, up`right
    ensures Snapshot(nodes) == WithChild(old(Snapshot(nodes)), up, x, y)
  {
    if up.left == x {
      up.left := y;
    } else {
      up.right := y;
    }
  }

  method AdoptChildren(a: Node, ghost nodes: set<Node>)
    requires var m := Snapshot(nodes); a in m && m[a].left in m && m[a].right in m && m[a].left != a && m[a].right != a
    modifies nodes
    ensures Snapshot(nodes) == ChildrenAdopted(old(Snapshot(nodes)), a)
  {
    SetParent(a.left, a, nodes);
    SetParent(a.right, a, nodes);
  }

  method ExchangeFields(a: Node, b: Node, ghost nodes: set<Node>)
    requires a in nodes && b in nodes && a != b
    modifies a, b
    ensures Snapshot(nodes) == old(Snapshot(nodes))[a := old(Snapshot(nodes)[b])][b := old(Snapshot(nodes)[a])]
  {
    var tmp := Cell(a.color, a.parent, a.left, a.right);
    a.color, a.parent, a.left, a.right := b.color, b.parent, b.left, b.right;
    b.color, b.parent, b.left, b.right := tmp.color, tmp.parent, tmp.left, tmp.right;
  }

  method SwapNode(a: Node, b: Node, ghost nodes: set<Node>)
    requires CanSwap(Snapshot(nodes), a, b)
    modifies nodes
    ensures Snapshot(nodes) == Swapped(old(Snapshot(nodes)), a, b)
  {
    ExchangePlaces(a, b, nodes);
    AdoptChildren(a, nodes);
    AdoptChildren(b, nodes);
  }

  // The parents' links and the two structs.
  method ExchangePlaces(a: Node, b: Node, ghost nodes: set<Node>)
    requires CanSwap(Snapshot(nodes), a, b)
    modifies nodes
    ensures Snapshot(nodes) == Exchange(old(Snapshot(nodes)), a, b)
  {
    ghost var m := Snapshot(nodes);
    ReplaceChild(a.parent, a, b, nodes);
    ReplaceChild(b.parent, b, a, nodes);
    ghost var m2 := Snapshot(nodes);
    assert m2 == WithChild(WithChild(m, m[a].parent, a, b), m[b].parent, b, a);
    assert m2[a] == m[a] && m2[b] == m[b];
    ExchangeFields(a, b, nodes);
  }

  // What the exchange leaves in each node.
  lemma ExchangeAt(m: Memory, a: Node, b: Node, x: Node)
    requires CanSwap(m, a, b) && x in m
    ensures var m' := Exchange(m, a, b);
      && m'.Keys == m.Keys && m'[a] == m[b] && m'[b] == m[a]
      && (x != a && x != b ==>
            m'[x] == if x == m[a].parent then SetChild(m[x], a, b)
                     else if x == m[b].parent then SetChild(m[x], b, a) else m[x])
  {
  }

  lemma AdoptedAt(m: Memory, a: Node, x: Node)
    requires a in m && m[a].left in m && m[a].right in m && m[a].left != a && m[a].right != a && x in m
    ensures var m' := ChildrenAdopted(m, a);
      && m'.Keys == m.Keys
      && m'[x] == if x == m[a].left || x == m[a].right then m[x].(parent := a) else m[x]
  {
  }

  lemma SwappedAt(m: Memory, a: Node, b: Node, x: Node)
    requires CanSwap(m, a, b) && x in m
    ensures var m', m1 := Swapped(m, a, b), Exchange(m, a, b);
      && m'.Keys == m.Keys && m1.Keys == m.Keys && m'[a] == m[b] && m'[b] == m[a]
      && (x != a && x != b ==>
            m'[x] == if x == m[a].left || x == m[a].right then m1[x].(parent := b)
                     else if x == m[b].left || x == m[b].right then m1[x].(parent := a) else m1[x])
  {
    var m1 := Exchange(m, a, b);
    ExchangeAt(m, a, b, x);
    var m2 := ChildrenAdopted(m1, a);
    AdoptedAt(m1, a, a);
    AdoptedAt(m1, a, b);
    AdoptedAt(m1, a, x);
    AdoptedAt(m2, b, a);
    AdoptedAt(m2, b, b);
    AdoptedAt(m2, b, x);
  }

  // Exchanging two far nodes is exchanging them everywhere: only their neighbours name them.
  lemma SwappedCell(m: Memory, places: set<Node>, nil: Node, a: Node, b: Node, x: Node)
    requires CanSwap(m, a, b)
    requires LinksAgree(m, a, places, nil) && LinksAgree(m, b, places, nil) && LinksAgree(m, x, places, nil)
    requires nil != a && nil != b && x != nil
    requires m[a].parent == x ==> m[x].left == a || m[x].right == a
    requires m[b].parent == x ==> m[x].left == b || m[x].right == b
    requires m[x].parent == a ==> m[a].left == x || m[a].right == x
    requires m[x].parent == b ==> m[b].left == x || m[b].right == x
    ensures Swap(x, a, b) in Swapped(m, a, b) && Swapped(m, a, b)[Swap(x, a, b)] == SwapCell(m[x], a, b)
  {
    SwappedAt(m, a, b, x);
    ExchangeAt(m, a, b, x);
  }

  lemma NeighboursNear(m: Memory, w: Tree<Node>, head: Node, nil: Node, a: Node, b: Node)
    requires Rep(m, Top, w, head, nil) && a in Nodes(w) && b in Nodes(w) && a != b && a in m && b in m
    requires m[a].parent != b && m[b].parent != a
    ensures Near(m, m[a].parent, a, b) && Near(m, m[a].left, a, b) && Near(m, m[a].right, a, b)
    ensures LinksAgree(m, a, Nodes(w), nil)
  {
    AllLinksAgree(m, w, head, nil);
    assert LinksAgree(m, a, Nodes(w), nil);
  }

  lemma SwappedExchanges(m: Memory, w: Tree<Node>, head: Node, nil: Node, a: Node, b: Node)
    requires Rep(m, Top, w, head, nil) && a in Nodes(w) && b in Nodes(w) && a != b && a in m && b in m
    requires m[a].parent != b && m[b].parent != a && m[a].parent != m[b].parent
    ensures CanSwap(m, a, b) && nil in Swapped(m, a, b)
    ensures Exchanged(m, Swapped(m, a, b), Nodes(w), head, a, b)
  {
    NeighboursNear(m, w, head, nil, a, b);
    NeighboursNear(m, w, head, nil, b, a);
    SwappedAt(m, a, b, nil);
    SwappedAt(m, a, b, head);
    ExchangeAt(m, a, b, head);
    forall x | x in Nodes(w) && x in m
      ensures Swap(x, a, b) in Swapped(m, a, b) && Swapped(m, a, b)[Swap(x, a, b)] == SwapCell(m[x], a, b)
    {
      SwappedInTree(m, w, head, nil, a, b, x);
    }
  }

  lemma SwappedInTree(m: Memory, w: Tree<Node>, head: Node, nil: Node, a: Node, b: Node, x: Node)
    requires Rep(m, Top, w, head, nil) && a in Nodes(w) && b in Nodes(w) && x in Nodes(w) && x in m && CanSwap(m, a, b)
    ensures Swap(x, a, b) in Swapped(m, a, b) && Swapped(m, a, b)[Swap(x, a, b)] == SwapCell(m[x], a, b)
  {
    AllLinksAgree(m, w, head, nil);
    assert LinksAgree(m, a, Nodes(w), nil) && LinksAgree(m, b, Nodes(w), nil) && LinksAgree(m, x, Nodes(w), nil);
    SwappedCell(m, Nodes(w), nil, a, b, x);
  }

  // The successor is the right child: the two are relinked by hand.
  ghost predicate CanSwapAdjacent(m: Memory, a: Node, b: Node, nil: Node) {
    && a in m && b in m && a != b && m[a].right == b && m[b].parent == a && m[b].left == nil && nil in m
    && Near(m, m[a].parent, a, b) && Near(m, m[a].left, a, b) && Near(m, m[b].right, a, b)
  }

  // The four steps of the relinking, a being the node and b its successor.
  ghost function MovedRight(m: Memory, a: Node, b: Node): Memory
    requires a in m && b in m && m[b].right in m
  {
    Reparented(m, m[b].right, a)[a := m[a].(right := m[b].right)]
  }

  ghost function MovedLeft(m: Memory, a: Node, b: Node): Memory
    requires a in m && b in m && m[a].left in m
  {
    Reparented(m, m[a].left, b)[b := m[b].(left := m[a].left)]
  }

  ghost function PlaceTaken(m: Memory, a: Node, b: Node): Memory
    requires a in m && b in m && m[a].parent in m
  {
    WithChild(m, m[a].parent, a, b)[b := m[b].(parent := m[a].parent)]
  }

  ghost function HungBelow(m: Memory, a: Node, b: Node, nil: Node): Memory
    requires a in m && b in m
  {
    m[a := Cell(m[b].color, b, nil, m[a].right)][b := m[b].(right := a, color := m[a].color)]
  }

  method MoveRight(node: Node, min: Node, ghost nodes: set<Node>)
    requires var m := Snapshot(nodes);
      node in m && min in m && m[min].right in m && m[min].right != node && node != min
    modifies node`right, min.right`parent
    ensures Snapshot(nodes) == MovedRight(old(Snapshot(nodes)), node, min)
  {
    node.right := min.right;
    min.right.parent := node;
  }

  method MoveLeft(min: Node, node: Node, ghost nodes: set<Node>)
    requires var m := Snapshot(nodes);
      node in m && min in m && m[node].left in m && m[node].left != min && node != min
    modifies min`left, node.left`parent
    ensures Snapshot(nodes) == MovedLeft(old(Snapshot(nodes)), node, min)
  {
    min.left := node.left;
    node.left.parent := min;
  }

  method TakePlace(min: Node, node: Node, ghost nodes: set<Node>)
    requires var m := Snapshot(nodes);
      node in m && min in m && node != min && m[node].parent in m && m[node].parent != min && m[node].parent != node
    modifies min`parent, node.parent`left, node.parent`right
    ensures Snapshot(nodes) == PlaceTaken(old(Snapshot(nodes)), node, min)
  {
    min.parent := node.parent;
    if node.parent.left == node {
      node.parent.left := min;
    } else {
      node.parent.right := min;
    }
  }

  method HangBelow(min: Node, node: Node, nil: Node, ghost nodes: set<Node>)
    requires node in nodes && min in nodes && node != min
    modifies min`right, min`color, node
    ensures Snapshot(nodes) == HungBelow(old(Snapshot(nodes)), node, min, nil)
  {
    min.right := node;
    node.parent := min;
    var ctmp := node.color;
    node.color := min.color;
    min.color := ctmp;
    node.left := nil;
  }

  // What each node holds after the first two steps, and after all four.
  ghost function MovedCell(m: Memory, a: Node, b: Node, nil: Node, x: Node): Cell
    requires CanSwapAdjacent(m, a, b, nil) && x in m
  {
    if x == a then m[a].(right := m[b].right)
    else if x == b then m[b].(left := m[a].left)
    else m[x].(parent := if x == m[a].left then b else if x == m[b].right then a else m[x].parent)
  }

  ghost function AdjacentCell(m: Memory, a: Node, b: Node, nil: Node, x: Node): Cell
    requires CanSwapAdjacent(m, a, b, nil) && x in m
  {
    if x == a then Cell(m[b].color, b, nil, m[b].right)
    else if x == b then Cell(m[a].color, m[a].parent, m[a].left, a)
    else
      var c := MovedCell(m, a, b, nil, x);
      if x == m[a].parent then SetChild(c, a, b) else c
  }

  lemma MovedAt(m: Memory, a: Node, b: Node, nil: Node, x: Node)
    requires CanSwapAdjacent(m, a, b, nil) && x in m
    ensures var m1 := MovedRight(m, a, b);
      && m1.Keys == m.Keys && m1[a].left == m[a].left
      && MovedLeft(m1, a, b).Keys == m.Keys && MovedLeft(m1, a, b)[x] == MovedCell(m, a, b, nil, x)
  {
  }

  lemma HungAt(m: Memory, a: Node, b: Node, nil: Node, x: Node)
    requires a in m && b in m && x in m && a != b && Near(m, m[a].parent, a, b)
    ensures var m' := HungBelow(PlaceTaken(m, a, b), a, b, nil);
      && m'.Keys == m.Keys
      && m'[x] == if x == a then Cell(m[b].color, b, nil, m[a].right)
                  else if x == b then Cell(m[a].color, m[a].parent, m[b].left, a)
                  else if x == m[a].parent then SetChild(m[x], a, b) else m[x]
  {
  }

  method SwapAdjacent(node: Node, min: Node, nil: Node, ghost nodes: set<Node>)
    requires CanSwapAdjacent(Snapshot(nodes), node, min, nil)
    modifies nodes
    ensures forall x | x in nodes :: Snapshot(nodes)[x] == AdjacentCell(old(Snapshot(nodes)), node, min, nil, x)
  {
    ghost var m := Snapshot(nodes);
    MovedAt(m, node, min, nil, node);
    MoveRight(node, min, nodes);
    MoveLeft(min, node, nodes);
    ghost var m2 := Snapshot(nodes);
    assert m2 == MovedLeft(MovedRight(m, node, min), node, min);
    assert m2[node] == MovedCell(m, node, min, nil, node);
    TakePlace(min, node, nodes);
    HangBelow(min, node, nil, nodes);
    forall x | x in nodes ensures Snapshot(nodes)[x] == AdjacentCell(m, node, min, nil, x) {
      MovedAt(m, node, min, nil, x);
      MovedAt(m, node, min, nil, min);
      HungAt(m2, node, min, nil, x);
    }
  }

  lemma AdjacentSwapCell(m: Memory, places: set<Node>, nil: Node, a: Node, b: Node, x: Node)
    requires CanSwapAdjacent(m, a, b, nil)
    requires LinksAgree(m, a, places, nil) && LinksAgree(m, b, places, nil) && LinksAgree(m, x, places, nil)
    requires nil != a && nil != b && x != nil
    requires m[a].parent == x ==> m[x].left == a || m[x].right == a
    requires m[x].parent == a ==> m[a].left == x || m[a].right == x
    requires m[x].parent == b ==> m[b].left == x || m[b].right == x
    ensures AdjacentCell(m, a, b, nil, Swap(x, a, b)) == SwapCell(m[x], a, b)
  {
  }

  lemma AdjacentExchanges(m: Memory, m': Memory, w: Tree<Node>, head: Node, nil: Node, a: Node, b: Node)
    requires Rep(m, Top, w, head, nil) && a in Nodes(w) && b in Nodes(w) && CanSwapAdjacent(m, a, b, nil)
    requires m'.Keys == m.Keys && forall x | x in m :: m'[x] == AdjacentCell(m, a, b, nil, x)
    ensures Exchanged(m, m', Nodes(w), head, a, b)
  {
    AllLinksAgree(m, w, head, nil);
    assert LinksAgree(m, a, Nodes(w), nil) && LinksAgree(m, b, Nodes(w), nil);
    assert m'[head].left == Swap(m[head].left, a, b) by {
      assert m'[head] == AdjacentCell(m, a, b, nil, head);
    }
    forall x | x in Nodes(w) && x in m
      ensures Swap(x, a, b) in m' && m'[Swap(x, a, b)] == SwapCell(m[x], a, b)
    {
      assert LinksAgree(m, x, Nodes(w), nil);
      AdjacentSwapCell(m, Nodes(w), nil, a, b, x);
    }
  }

  lemma SuccessorAdjacent(m: Memory, w: Tree<Node>, head: Node, nil: Node, a: Node, b: Node)
    requires Rep(m, Top, w, head, nil) && a in Nodes(w) && b in Nodes(w) && a in m && b in m
    requires m[a].right == b && m[b].left == nil && m[a].left != nil && m[a].parent != b
    ensures CanSwapAdjacent(m, a, b, nil)
  {
    AllLinksAgree(m, w, head, nil);
    assert LinksAgree(m, a, Nodes(w), nil) && LinksAgree(m, b, Nodes(w), nil);
  }
}
