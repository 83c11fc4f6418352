/** One level of src/buddy.c: struct buddy_alloc_t with its pair bits and its free list. */
module BuddyLevel {
  import opened Words
  import opened BuddyBlocks
  import opened Lists

  const NULL: int := -1

  // buddy_list_node_t; nodes are named by their index in list_start.
  datatype Link = Link(next: int, prev: int)

  ghost function At(s: seq<nat>, i: int): int {
    if 0 <= i < |s| then s[i] else NULL
  }

  /** The links from head on are the doubly linked list s. */
  ghost predicate DoublyLinked(links: seq<Link>, head: int, s: seq<nat>) {
    NoRepeats(s) && head == At(s, 0) && forall i | 0 <= i < |s| :: Joined(links, s, i)
  }

  // The i-th element of s names its neighbours in s.
  ghost predicate Joined(links: seq<Link>, s: seq<nat>, i: nat)
    requires i < |s|
  {
    s[i] < |links| && links[s[i]] == Link(At(s, i + 1), At(s, i - 1))
  }

  // One bit for two buddies, k being half the position of either.
  ghost predicate PairBit(words: seq<set<nat>>, k: nat)
    requires k / 32 < |words|
  {
    k % 32 in words[k / 32]
  }

  ghost predicate Odd(s: seq<nat>, k: nat) {
    (2 * k in s) != (2 * k + 1 in s)
  }

  lemma FlippedPair(c: seq<set<nat>>, c': seq<set<nat>>, j: nat, k: nat)
    requires j / 32 < |c| && c' == c[j / 32 := Toggled(c[j / 32], j % 32)] && k / 32 < |c|
    ensures PairBit(c', k) == if k == j then !PairBit(c, k) else PairBit(c, k)
  {
    if k / 32 == j / 32 && k % 32 == j % 32 {
      assert k == 32 * (k / 32) + k % 32 && j == 32 * (j / 32) + j % 32;
    }
  }

  // bits[j / 32] ^= 1 << (j % 32)
  method FlipPair(bits: array<Word>, j: nat)
    requires j / 32 < bits.Length
    modifies bits
    ensures forall k: nat | k / 32 < bits.Length ::
      PairBit(Contents(bits[..]), k)
      == if k == j then !PairBit(old(Contents(bits[..])), k) else PairBit(old(Contents(bits[..])), k)
  {
    ghost var c := Contents(bits[..]);
    FlipIn(bits, j / 32, j % 32);
    ghost var c' := Contents(bits[..]);
    assert c' == c[j / 32 := Toggled(c[j / 32], j % 32)];
    forall k: nat | k / 32 < bits.Length ensures PairBit(c', k) == if k == j then !PairBit(c, k) else PairBit(c, k) {
      FlippedPair(c, c', j, k);
    }
  }

  lemma AtWithout(s: seq<nat>, k: nat, i: int)
    requires k < |s|
    ensures At(s[..k] + s[k + 1..], i) == if i < k then At(s, i) else At(s, i + 1)
  {
    var r := s[..k] + s[k + 1..];
    if 0 <= i < |r| {
      assert r[i] == if i < k then s[i] else s[i + 1];
    }
  }

  // What the neighbours of the k-th element of s hold once it is unlinked.
  ghost predicate Rejoined(links: seq<Link>, s: seq<nat>, k: nat, i: nat)
    requires i < |s|
  {
    && s[i] < |links|
    && links[s[i]].next == (if i == k - 1 then At(s, k + 1) else At(s, i + 1))
    && links[s[i]].prev == (if i == k + 1 then At(s, k - 1) else At(s, i - 1))
  }

  lemma RejoinedIsJoined(links: seq<Link>, s: seq<nat>, k: nat, i: nat)
    requires k < |s| && i < |s| - 1 && Rejoined(links, s, k, if i < k then i else i + 1)
    ensures Joined(links, s[..k] + s[k + 1..], i)
  {
    AtWithout(s, k, i);
    AtWithout(s, k, i + 1);
    AtWithout(s, k, i - 1);
  }

  // The list without its k-th element.
  lemma UnlinkedFromList(links: seq<Link>, links': seq<Link>, head: int, head': int, s: seq<nat>, k: nat)
    requires DoublyLinked(links, head, s) && k < |s|
    requires head' == if k > 0 then head else At(s, 1)
    requires forall i | 0 <= i < |s| && i != k :: Rejoined(links', s, k, i)
    ensures DoublyLinked(links', head', s[..k] + s[k + 1..])
  {
    var r := s[..k] + s[k + 1..];
    AtWithout(s, k, 0);
    NoRepeatsWithout(s, k);
    forall i | 0 <= i < |r| ensures Joined(links', r, i) {
      assert Rejoined(links', s, k, if i < k then i else i + 1);
      RejoinedIsJoined(links', s, k, i);
    }
  }

  class Level {
    const size: nat
    const bits: array<Word>
    const list: array<Link>
    var head: int
    ghost var free: seq<nat>

    ghost predicate Linked()
      reads this, list
    {
      && size % 2 == 0 && size / 2 <= 32 * bits.Length && list.Length == size
      && bits as object != list && DoublyLinked(list[..], head, free)
    }

    // The bit of the k-th pair.
    ghost predicate Pair(k: nat)
      requires k / 32 < bits.Length
      reads bits
    {
      PairBit(Contents(bits[..]), k)
    }

    // A pair's bit is the exclusive or of its two blocks being free.
    ghost predicate Marked()
      requires size / 2 <= 32 * bits.Length
      reads this, bits
    {
      forall k: nat | k < size / 2 :: Pair(k) == Odd(free, k)
    }

    ghost predicate Valid()
      reads this, list, bits
    {
      Linked() && Marked()
    }

    // A zeroed level with nothing free.
    constructor (size: nat)
      requires size % 64 == 0 || (size % 2 == 0 && size <= 64)
      ensures Valid() && this.size == size && free == [] && fresh(bits) && fresh(list)
    {
      this.size := size;
      bits := new Word[if size / 64 < 1 then 1 else size / 64](_ => 0);
      list := new Link[size](_ => Link(NULL, NULL));
      head := NULL;
      free := [];
      new;
      ZeroContents(bits[..]);
    }

    // map[(pos >> 1) / 32] ^= 1 << ((pos >> 1) % 32)
    method Flip(pos: nat)
      requires Linked() && pos < size
      modifies bits
      ensures Linked()
      ensures forall k: nat | k < size / 2 :: Pair(k) == if k == pos / 2 then !old(Pair(k)) else old(Pair(k))
    {
      FlipPair(bits, pos / 2);
      assert list[..] == old(list[..]);
    }

    method Test(pos: nat) returns (b: bool)
      requires Linked() && pos < size
      ensures b == Pair(pos / 2)
    {
      b := TestIn(bits, (pos / 2) / 32, (pos / 2) % 32);
    }

    // The first free block leaves the list.
    method Pop() returns (pos: nat)
      requires Linked() && free != []
      modifies this`head, this`free, list
      ensures Linked() && pos == old(free)[0] && free == old(free)[1..]
    {
      ghost var s := free;
      assert Joined(list[..], s, 0);
      pos := head;
      head := list[pos].next;
      if head != NULL {
        assert Joined(list[..], s, 1);
        list[head] := list[head].(prev := NULL);
      }
      forall i | 0 <= i < |s| && i != 0 ensures Rejoined(list[..], s, 0, i) {
        assert Joined(old(list[..]), s, i);
      }
      UnlinkedFromList(old(list[..]), list[..], old(head), head, s, 0);
      assert s[..0] + s[1..] == s[1..];
      free := free[1..];
    }

    // A block joins at the front.
    method Push(pos: nat)
      requires Linked() && pos < size && pos !in free
      modifies this`head, this`free, list
      ensures Linked() && free == [pos] + old(free)
    {
      ghost var s := free;
      list[pos] := Link(head, NULL);
      if head != NULL {
        assert Joined(old(list[..]), s, 0);
        list[head] := list[head].(prev := pos);
      }
      head := pos;
      free := [pos] + free;
      forall i | 0 <= i < |free| ensures Joined(list[..], free, i) {
        if i > 0 {
          assert Joined(old(list[..]), s, i - 1);
        }
      }
    }

    // A block leaves from wherever it stands.
    method Unlink(pos: nat, ghost k: nat)
      requires Linked() && k < |free| && free[k] == pos
      modifies this`head, this`free, list
      ensures Linked() && free == old(free)[..k] + old(free)[k + 1..]
    {
      ghost var s := free;
      assert Joined(list[..], s, k);
      if list[pos].prev != NULL {
        assert Joined(list[..], s, k - 1);
        list[list[pos].prev] := list[list[pos].prev].(next := list[pos].next);
      } else {
        head := list[pos].next;
      }
      if list[pos].next != NULL {
        assert Joined(old(list[..]), s, k + 1);
        list[list[pos].next] := list[list[pos].next].(prev := list[pos].prev);
      }
      forall i | 0 <= i < |s| && i != k ensures Rejoined(list[..], s, k, i) {
        assert Joined(old(list[..]), s, i);
      }
      UnlinkedFromList(old(list[..]), list[..], old(head), head, s, k);
      free := free[..k] + free[k + 1..];
    }

    // get_address_area, list not empty: the first block goes and its pair's bit flips.
    method TakeFirst() returns (pos: nat)
      requires Valid() && free != []
      modifies this`head, this`free, list, bits
      ensures Valid() && pos < size && pos == old(free)[0] && free == old(free)[1..]
    {
      ghost var s := free;
      assert Joined(list[..], s, 0);
      pos := Pop();
      Flip(pos);
      forall k: nat | k < size / 2 ensures Pair(k) == Odd(free, k) {
        MemberOfRest(s, 2 * k);
        MemberOfRest(s, 2 * k + 1);
      }
    }

    // get_address_area, after a block one level up was split: its right half is listed.
    method AddRightHalf(pos: nat)
      requires Valid() && pos % 2 == 0 && pos + 1 < size && pos + 1 !in free
      modifies this`head, this`free, list, bits
      ensures Valid() && free == [pos + 1] + old(free)
    {
      Flip(pos);
      Push(pos + 1);
    }

    /** free_address_area on one level: the flipped bit is 0 exactly when the buddy is free;
        then (below the top) the buddy leaves the list, otherwise the block joins it. */
    method Return(pos: nat, top: bool) returns (merged: bool, ghost k: nat)
      requires Valid() && pos < size && pos !in free
      modifies this`head, this`free, list, bits
      ensures Valid() && (merged <==> !top && BuddyPos(pos) in old(free))
      ensures !merged ==> free == [pos] + old(free)
      ensures merged ==> k < |old(free)| && old(free)[k] == BuddyPos(pos) && free == old(free)[..k] + old(free)[k + 1..]
    {
      ghost var s := free;
      k := 0;
      assert Pair(pos / 2) == Odd(s, pos / 2);
      Flip(pos);
      var set_ := Test(pos);
      if set_ || top {
        Push(pos);
        return false, k;
      }
      var buddy := BuddyPos(pos);
      k :| k < |s| && s[k] == buddy;
      Unlink(buddy, k);
      forall j: nat | j < size / 2 ensures Pair(j) == Odd(free, j) {
        MemberWithout(s, k, 2 * j);
        MemberWithout(s, k, 2 * j + 1);
      }
      return true, k;
    }

    // list_start[i] for every i, then the two ends.
    method LinkInOrder()
      requires size == 16 && list.Length == size
      modifies list
      ensures forall j | 0 < j < 15 :: list[j] == Link(if j == 14 then NULL else j + 1, if j == 1 then NULL else j - 1)
    {
      for i := 0 to size
        invariant forall j | 0 <= j < i :: list[j] == Link(j + 1, j - 1)
      {
        list[i] := Link(i + 1, i - 1);
      }
      list[0] := list[0].(prev := NULL);
      list[size - 1] := list[size - 1].(next := NULL);
      list[1] := list[1].(prev := NULL);
      list[size - 2] := list[size - 2].(next := NULL);
    }

    // The second half of init_buddy_module: blocks 1 to size - 2 of the top level are listed
    // in order; the first and the last one are not managed.
    method OpenTop()
      requires Valid() && free == [] && size == 16
      modifies this, list, bits
      ensures Valid() && free == seq(14, i => i + 1)
    {
      ghost var c := Contents(bits[..]);
      forall k: nat | k < 8 ensures !PairBit(c, k) {
        assert Pair(k) == Odd(free, k);
      }
      LinkInOrder();
      ghost var links := list[..];
      assert Contents(bits[..]) == c;
      SetIn(bits, 0, 0);
      SetIn(bits, (size / 2) / 32, (size / 2) % 32 - 1);
      assert list[..] == links;
      head := 1;
      free := seq(14, i => i + 1);
      TopMarks(c, Contents(bits[..]), free);
      forall i | 0 <= i < 14 ensures Joined(list[..], free, i) {
        assert list[..][free[i]] == Link(if i == 13 then NULL else i + 2, if i == 0 then NULL else i);
      }
    }
  }

  // With blocks 1 to 14 free, only the first and the last pair are half free.
  lemma TopMarks(c: seq<set<nat>>, c': seq<set<nat>>, free: seq<nat>)
    requires |c| > 0 && (forall k: nat | k < 8 :: !PairBit(c, k)) && free == seq(14, i => i + 1)
    requires c' == c[0 := c[0] + {0} + {7}]
    ensures forall k: nat | k < 8 :: PairBit(c', k) == Odd(free, k)
  {
    forall p: nat | p < 16 ensures p in free <==> 1 <= p <= 14 {
      if 1 <= p <= 14 {
        assert free[p - 1] == p;
      }
    }
    forall k: nat | k < 8 ensures PairBit(c', k) == Odd(free, k) {
      assert !PairBit(c, k);
    }
  }
}
