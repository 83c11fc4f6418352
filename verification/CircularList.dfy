/** src/circular_list.c: a head and its nodes in a ring, standing for the sequence of the nodes. */
module CircularList {
  import opened Lists

  class ListNode {
    var next: ListNode
    var pre: ListNode

    // circular_list_init
    constructor ()
      ensures Ring([this])
    {
      next := this;
      pre := this;
    }
  }

  ghost function After(r: seq<ListNode>, i: nat): ListNode
    requires i < |r|
  {
    if i + 1 < |r| then r[i + 1] else r[0]
  }

  ghost function Before(r: seq<ListNode>, i: nat): ListNode
    requires i < |r|
  {
    if i > 0 then r[i - 1] else r[|r| - 1]
  }

  ghost predicate Joined(r: seq<ListNode>, i: nat)
    requires i < |r|
    reads r
  {
    r[i].next == After(r, i) && r[i].pre == Before(r, i)
  }

  /** r is the head followed by the nodes of its list, in order. */
  ghost predicate Ring(r: seq<ListNode>)
    reads r
  {
    r != [] && NoRepeats(r) && forall i: nat | i < |r| :: Joined(r, i)
  }

  // The ring with x put after its k-th node.
  ghost function Inserted(r: seq<ListNode>, k: nat, x: ListNode): seq<ListNode>
    requires k < |r|
  {
    r[..k + 1] + [x] + r[k + 1..]
  }

  lemma InsertedAt(r: seq<ListNode>, k: nat, x: ListNode, i: nat)
    requires k < |r| && i <= |r|
    ensures |Inserted(r, k, x)| == |r| + 1
    ensures Inserted(r, k, x)[i] == if i <= k then r[i] else if i == k + 1 then x else r[i - 1]
  {
  }

  lemma InsertedNoRepeats(r: seq<ListNode>, k: nat, x: ListNode)
    requires k < |r| && NoRepeats(r) && x !in r
    ensures NoRepeats(Inserted(r, k, x))
  {
  }

  /** Inserting at head.pre appends, inserting at the head prepends: the two ways the kernel does it. */
  lemma InsertedEnds(r: seq<ListNode>, x: ListNode)
    requires r != []
    ensures Inserted(r, |r| - 1, x) == r + [x]
    ensures Inserted(r, 0, x) == [r[0], x] + r[1..]
    ensures Ring(r) ==> r[0].pre == r[|r| - 1]
  {
    if Ring(r) {
      assert Joined(r, |r| - 1) && Joined(r, 0);
    }
  }

  /** circular_list_insert: node becomes the successor of position. */
  method Insert(position: ListNode, node: ListNode, ghost r: seq<ListNode>, ghost k: nat)
    requires Ring(r) && k < |r| && r[k] == position && node !in r
    modifies position, position.next, node
    ensures Ring(Inserted(r, k, node))
  {
    assert Joined(r, k);
    ghost var n := position.next;
    node.next := position.next;
    node.pre := position;
    position.next := node;
    node.next.pre := node;
    ghost var r' := Inserted(r, k, node);
    InsertedNoRepeats(r, k, node);
    forall i: nat | i < |r'| ensures Joined(r', i) {
      InsertedAt(r, k, node, i);
      if i + 1 < |r'| { InsertedAt(r, k, node, i + 1); }
      if i > 0 { InsertedAt(r, k, node, i - 1); }
      InsertedAt(r, k, node, 0);
      InsertedAt(r, k, node, |r|);
      if i <= k {
        assert old(Joined(r, i));
      } else if i > k + 1 {
        assert old(Joined(r, i - 1));
      }
    }
  }

  /** circular_list_remove: the others stay in order, and the node removed still points to its
      old successor, which the walk in ready_processes goes on from. */
  method Remove(node: ListNode, ghost r: seq<ListNode>, ghost k: nat)
    requires Ring(r) && 0 < k < |r| && r[k] == node
    modifies node.next, node.pre
    ensures Ring(r[..k] + r[k + 1..])
    ensures node.next == old(node.next) == After(r, k)
  {
    assert Joined(r, k);
    node.next.pre := node.pre;
    node.pre.next := node.next;
    ghost var r' := r[..k] + r[k + 1..];
    NoRepeatsWithout(r, k);
    forall i: nat | i < |r'| ensures Joined(r', i) {
      assert old(Joined(r, if i < k then i else i + 1));
    }
  }

  /** circular_list_remove of a node that is not linked any more: its old neighbours are joined again,
      and whatever has come between them since is dropped. */
  method RemoveAgain(node: ListNode, ghost r: seq<ListNode>, ghost i: nat, ghost j: nat)
    requires Ring(r) && node !in r && i < j <= |r|
    requires node.pre == r[i] && node.next == if j < |r| then r[j] else r[0]
    modifies node.next, node.pre
    ensures Ring(r[..i + 1] + r[j..])
    ensures j == i + 1 ==> r[..i + 1] + r[j..] == r
  {
    node.next.pre := node.pre;
    node.pre.next := node.next;
    ghost var r' := r[..i + 1] + r[j..];
    forall k, l | 0 <= k < l < |r'| ensures r'[k] != r'[l] {
      assert r'[k] == r[if k <= i then k else k - i - 1 + j];
      assert r'[l] == r[if l <= i then l else l - i - 1 + j];
    }
    forall k: nat | k < |r'| ensures Joined(r', k) {
      assert old(Joined(r, if k <= i then k else k - i - 1 + j));
    }
  }

  /** 0 when the node is in the list, -1 when it is not. */
  method IsInlist(head: ListNode, node: ListNode, ghost r: seq<ListNode>) returns (found: int)
    requires Ring(r) && r[0] == head
    ensures found == if node in r[1..] then 0 else -1
  {
    assert Joined(r, 0);
    var p := head.next;
    ghost var k: nat := 1;
    while p != head
      invariant 1 <= k <= |r| && p == (if k < |r| then r[k] else head)
      invariant node !in r[1..k]
      decreases |r| - k
    {
      if p == node {
        assert r[1..][k - 1] == node;
        return 0;
      }
      assert Joined(r, k);
      assert r[1..k + 1] == r[1..k] + [r[k]];
      p := p.next;
      k := k + 1;
    }
    assert r[1..] == r[1..k];
    return -1;
  }

  method Size(head: ListNode, ghost r: seq<ListNode>) returns (len: nat)
    requires Ring(r) && r[0] == head
    ensures len == |r| - 1
  {
    assert Joined(r, 0);
    len := 0;
    var p := head.next;
    while p != head
      invariant len < |r| && p == After(r, len)
      decreases |r| - len
    {
      len := len + 1;
      assert Joined(r, len);
      p := p.next;
    }
  }

  method IsEmpty(head: ListNode, ghost r: seq<ListNode>) returns (empty: bool)
    requires Ring(r) && r[0] == head
    ensures empty <==> |r| == 1
  {
    assert Joined(r, 0);
    empty := head.next == head;
  }
}
