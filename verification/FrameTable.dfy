/** The frame descriptors of src/mem.c and the free list linked through them. */
module FrameTable {
  import opened Lists

  const NULL: int := -1

  // mem_desc_t: present stands for MEM_FLAGS_P, point for the link while the frame is free.
  datatype Desc = Desc(present: bool, point: int)

  ghost function At(s: seq<nat>, i: nat): int {
    if i < |s| then s[i] else NULL
  }

  ghost predicate Linked(d: seq<Desc>, s: seq<nat>, i: nat)
    requires i < |s|
  {
    s[i] < |d| && d[s[i]] == Desc(false, At(s, i + 1))
  }

  /** From head on, the descriptors link the frames of s, all of them not present. */
  ghost predicate Chain(d: seq<Desc>, head: int, s: seq<nat>) {
    NoRepeats(s) && head == At(s, 0) && forall i: nat | i < |s| :: Linked(d, s, i)
  }

  // The descriptors link some list of free frames from head on.
  ghost predicate Sound(d: seq<Desc>, head: int) { exists s :: Chain(d, head, s) }

  // The frames from a up to b.
  ghost function Range(a: nat, b: nat): (s: seq<nat>)
    requires a <= b
    ensures |s| == b - a && forall i | 0 <= i < |s| :: s[i] == a + i
  {
    seq(b - a, i requires 0 <= i => a + i)
  }

  /** What is free at the start: below 640K, and above the kernel. */
  ghost function FreeAtStart(pagecount: nat, hasUsed: nat): seq<nat>
    requires 256 + hasUsed <= pagecount
  {
    Range(0, 160) + Range(256 + hasUsed, pagecount)
  }

  lemma StartMembers(pagecount: nat, hasUsed: nat, f: nat)
    requires 256 + hasUsed <= pagecount
    ensures f in FreeAtStart(pagecount, hasUsed) <==> f < 160 || 256 + hasUsed <= f < pagecount
  {
    var s := FreeAtStart(pagecount, hasUsed);
    if f < 160 {
      assert s[f] == f;
    } else if 256 + hasUsed <= f < pagecount {
      assert s[f - 96 - hasUsed] == f;
    }
  }

  // The kernel's own pages end above 2M, and a page is left above them.
  predicate Roomy(pagecount: nat, hasUsed: nat) {
    256 <= hasUsed && 256 + hasUsed < pagecount
  }

  // A descriptor as the loops of init_mem_desc leave it, also where they overlap.
  ghost function StartDesc(pagecount: nat, hasUsed: nat, f: nat): Desc {
    Desc(160 <= f < 512 || 512 <= f < 256 + hasUsed,
         if f == pagecount - 1 then NULL else if f == 159 then 256 + hasUsed
         else if 160 <= f < 256 + hasUsed then NULL else f + 1)
  }

  ghost predicate Started(d: seq<Desc>, pagecount: nat, hasUsed: nat) {
    && 512 < pagecount == |d| && 256 + hasUsed <= pagecount
    && forall f: nat | f < pagecount :: d[f] == StartDesc(pagecount, hasUsed, f)
  }

  lemma StartChain(d: seq<Desc>, pagecount: nat, hasUsed: nat)
    requires Started(d, pagecount, hasUsed) && Roomy(pagecount, hasUsed)
    ensures Chain(d, 0, FreeAtStart(pagecount, hasUsed))
    ensures forall f: nat | f < pagecount :: f in FreeAtStart(pagecount, hasUsed) <==> !d[f].present
  {
    var s := FreeAtStart(pagecount, hasUsed);
    assert forall i | 0 <= i < |s| :: s[i] == if i < 160 then i else i + 96 + hasUsed;
    forall f: nat | f < pagecount ensures f in s <==> !d[f].present {
      StartMembers(pagecount, hasUsed, f);
    }
  }

  // Any chain goes through the frames below 640K and on to a free frame above the kernel.
  lemma NoOtherChain(d: seq<Desc>, s: seq<nat>, pagecount: nat, hasUsed: nat)
    requires Started(d, pagecount, hasUsed) && Chain(d, 0, s)
    ensures Roomy(pagecount, hasUsed)
  {
    for i := 0 to 159
      invariant i < |s| && s[i] == i
    {
      assert Linked(d, s, i);
    }
    assert Linked(d, s, 159);
    assert Linked(d, s, 160);
  }

  /** The list init_mem_desc leaves is sound exactly when there is room. */
  lemma SoundIffRoomy(d: seq<Desc>, pagecount: nat, hasUsed: nat)
    requires Started(d, pagecount, hasUsed)
    ensures Sound(d, 0) <==> Roomy(pagecount, hasUsed)
    ensures Chain(d, 0, FreeAtStart(pagecount, hasUsed)) <==> Roomy(pagecount, hasUsed)
  {
    if Roomy(pagecount, hasUsed) {
      StartChain(d, pagecount, hasUsed);
    }
    forall s | Chain(d, 0, s) ensures Roomy(pagecount, hasUsed) {
      NoOtherChain(d, s, pagecount, hasUsed);
    }
  }

  class Frames {
    const mem_descs: array<Desc>
    var free_mem_desc_head: int
    ghost var free: seq<nat>

    ghost predicate Valid()
      reads this, mem_descs
    {
      Chain(mem_descs[..], free_mem_desc_head, free)
    }

    /** init_mem_desc, over descriptors that are zeroed first.  Its loops stay inside the table; the
        list they leave is sound exactly when there is room above the kernel, which fills 2M. */
    constructor (pagecount: nat, hasUsed: nat)
      requires 512 < pagecount && 256 + hasUsed <= pagecount
      ensures mem_descs.Length == pagecount && fresh(mem_descs) && free == FreeAtStart(pagecount, hasUsed)
      ensures Sound(mem_descs[..], free_mem_desc_head) <==> Roomy(pagecount, hasUsed)
      ensures Valid() <==> Roomy(pagecount, hasUsed)
      ensures |free| == 160 + pagecount - 256 - hasUsed
      ensures Roomy(pagecount, hasUsed) ==> forall f: nat | f < pagecount :: f in free <==> !mem_descs[f].present
    {
      mem_descs := new Desc[pagecount](i => Desc(false, 0));
      free_mem_desc_head := 0;
      free := FreeAtStart(pagecount, hasUsed);
      new;
      InitMemDesc(pagecount, hasUsed);
      SoundIffRoomy(mem_descs[..], pagecount, hasUsed);
      if Roomy(pagecount, hasUsed) {
        StartChain(mem_descs[..], pagecount, hasUsed);
        assert forall f: nat | f < pagecount :: mem_descs[..][f] == mem_descs[f];
      }
    }

    method InitMemDesc(pagecount: nat, hasUsed: nat)
      requires 512 < pagecount == mem_descs.Length && 256 + hasUsed <= pagecount
      requires forall f: nat | f < pagecount :: mem_descs[f] == Desc(false, 0)
      modifies mem_descs
      ensures Started(mem_descs[..], pagecount, hasUsed)
    {
      LinkRange(0, 160);
      Reserve(160, 256);
      Reserve(256, 512);
      if 512 < 256 + hasUsed {
        Reserve(512, 256 + hasUsed);
      }
      LinkRange(256 + hasUsed, pagecount);
      mem_descs[159] := mem_descs[159].(point := 256 + hasUsed);
      mem_descs[pagecount - 1] := mem_descs[pagecount - 1].(point := NULL);
    }

    // mem_descs[i].point = mem_descs + i + 1 for the frames from lo to hi
    method LinkRange(lo: nat, hi: nat)
      requires lo <= hi <= mem_descs.Length
      modifies mem_descs
      ensures forall f: nat | f < mem_descs.Length ::
        mem_descs[f] == if lo <= f < hi then old(mem_descs[f]).(point := f + 1) else old(mem_descs[f])
    {
      for i := lo to hi
        invariant forall f: nat | f < mem_descs.Length ::
          mem_descs[f] == if lo <= f < i then old(mem_descs[f]).(point := f + 1) else old(mem_descs[f])
      {
        mem_descs[i] := mem_descs[i].(point := i + 1);
      }
    }

    // The frames from lo to hi belong to the hardware and the kernel.
    method Reserve(lo: nat, hi: nat)
      requires lo <= hi <= mem_descs.Length
      modifies mem_descs
      ensures forall f: nat | f < mem_descs.Length ::
        mem_descs[f] == if lo <= f < hi then Desc(true, NULL) else old(mem_descs[f])
    {
      for i := lo to hi
        invariant forall f: nat | f < mem_descs.Length ::
          mem_descs[f] == if lo <= f < i then Desc(true, NULL) else old(mem_descs[f])
      {
        mem_descs[i] := Desc(true, NULL);
      }
    }

    /** The end of getonefreepage: the head leaves the list. */
    method Pop() returns (cur: nat)
      requires Valid() && free != []
      modifies this, mem_descs
      ensures Valid() && cur == old(free)[0] && free == old(free)[1..] && cur < mem_descs.Length
      ensures mem_descs[..] == old(mem_descs[..])[cur := Desc(true, NULL)]
    {
      assert Linked(mem_descs[..], free, 0);
      ghost var d, s := mem_descs[..], free;
      cur := free_mem_desc_head;
      free_mem_desc_head := mem_descs[cur].point;
      mem_descs[cur] := Desc(true, NULL);
      free := free[1..];
      forall i: nat | i < |free| ensures Linked(mem_descs[..], free, i) {
        assert Linked(d, s, i + 1);
      }
    }

    /** The start of freeonepage: the frame becomes the head. */
    method Push(desc: nat)
      requires Valid() && desc < mem_descs.Length && mem_descs[desc].present
      modifies this, mem_descs
      ensures Valid() && free == [desc] + old(free)
      ensures mem_descs[..] == old(mem_descs[..])[desc := Desc(false, old(free_mem_desc_head))]
    {
      ghost var d, s := mem_descs[..], free;
      mem_descs[desc] := Desc(false, free_mem_desc_head);
      free_mem_desc_head := desc;
      free := [desc] + free;
      forall i: nat | i < |s| ensures s[i] != desc && Linked(mem_descs[..], free, i + 1) {
        assert Linked(d, s, i);
      }
      assert desc !in s;
      NoRepeatsPrepend(desc, s);
      forall i: nat | i < |free| ensures Linked(mem_descs[..], free, i) {
        if i > 0 { assert Linked(mem_descs[..], free, i - 1 + 1); }
      }
    }

    /** The walk of get_free_mem_size. */
    method Count() returns (fc: nat)
      requires Valid()
      ensures fc == |free|
    {
      fc := 0;
      var p := free_mem_desc_head;
      while p != NULL
        invariant fc <= |free| && p == At(free, fc)
        decreases |free| - fc
      {
        assert Linked(mem_descs[..], free, fc);
        fc := fc + 1;
        p := mem_descs[p].point;
      }
    }
  }
}
