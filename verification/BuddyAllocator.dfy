/** get_address_area and free_address_area of src/buddy.c over the fifteen levels. */
module BuddyAllocator {
  import opened Arithmetic
  import opened BuddyBlocks
  import L = BuddyLevel
  import opened Lists

  const DEPTH: nat := 15              // BUDDY_DEP
  const MEM_START: nat := 0xc0000000
  const NULL_ADDRESS: nat := 0

  // Blocks at a level: 262144 >> n
  function Blocks(n: nat): (s: nat)
    requires n <= TOP
    ensures s % 2 == 0 && s >= 16
    decreases TOP - n
  {
    if n == TOP then 16 else 2 * Blocks(n + 1)
  }

  lemma {:induction false} BlocksWholeWords(n: nat)
    requires n <= TOP
    ensures Blocks(n) % 64 == 0 || Blocks(n) <= 64
    decreases TOP - n
  {
    if n < TOP {
      BlocksWholeWords(n + 1);
      if n == 12 {
        assert Blocks(13) == 2 * Blocks(14);
      } else if n < 12 {
        assert Blocks(12) == 2 * Blocks(13) == 4 * Blocks(14);
      }
    }
  }

  lemma BlocksAtBottom()
    ensures Blocks(0) == 262144
  {
    assert Blocks(12) == 64;
    assert Blocks(10) == 256;
    assert Blocks(8) == 1024;
    assert Blocks(6) == 4096;
    assert Blocks(4) == 16384;
    assert Blocks(2) == 65536;
  }

  function AddressOf(b: Block): nat {
    b.pos * Pow2(b.n) * 4096 + MEM_START
  }

  // The block of level n an address lies in.
  function BlockAt(p: nat, n: nat): Block
    requires p >= MEM_START
  {
    Block(n, (p - MEM_START) / 4096 / Pow2(n))
  }

  // ---------- addresses ----------

  lemma BlockAtParent(p: nat, n: nat)
    requires p >= MEM_START
    ensures BlockAt(p, n + 1) == Parent(BlockAt(p, n))
  {
    DivTwice((p - MEM_START) / 4096, Pow2(n));
  }

  lemma AddressRoundTrip(b: Block)
    ensures AddressOf(b) >= MEM_START && BlockAt(AddressOf(b), b.n) == b
  {
    var x := b.pos * Pow2(b.n);
    assert (x * 4096) / 4096 == x;
    Quotient(x, Pow2(b.n), b.pos, 0);
  }

  // A block and its left half start at the same address.
  lemma LeftAddress(b: Block)
    requires b.n > 0
    ensures AddressOf(Left(b)) == AddressOf(b)
  {
    assert b.pos * (2 * Pow2(b.n - 1)) == (2 * b.pos) * Pow2(b.n - 1);
  }

  lemma SplitAddress(p: nat, n: nat)
    requires p >= MEM_START && p == AddressOf(BlockAt(p, n + 1))
    ensures BlockAt(p, n) == Left(BlockAt(p, n + 1)) && p == AddressOf(BlockAt(p, n))
  {
    var b := BlockAt(p, n + 1);
    LeftAddress(b);
    AddressRoundTrip(Left(b));
  }

  lemma {:induction false} ManagedBound(b: Block)
    requires Managed(b)
    ensures b.pos < Blocks(b.n)
    decreases TOP - b.n
  {
    if b.n < TOP {
      ManagedUp(b);
      ManagedBound(Parent(b));
    }
  }

  lemma {:induction false} ManagedFits(b: Block)
    requires b.n <= TOP && b.pos < Blocks(b.n)
    ensures b.pos * Pow2(b.n) + Pow2(b.n) <= 262144
    decreases TOP - b.n
  {
    if b.n < TOP {
      ManagedFits(Parent(b));
      HalfTimesTwice(b.pos, Pow2(b.n));
    } else {
      TopPower();
      NextMultiple(b.pos, 16, Pow2(b.n));
    }
  }

  lemma TopPower()
    ensures Pow2(14) == 16384
  {
    assert Pow2(7) == 128;
    assert Pow2(10) == 1024;
  }

  /** No address computation leaves 32 bits. */
  lemma AddressFits(b: Block)
    requires Managed(b)
    ensures AddressOf(b) + Pow2(b.n) * 4096 <= 0x1_0000_0000
  {
    ManagedBound(b);
    ManagedFits(b);
  }

  // ---------- where blocks lie in memory ----------

  // A block is one half of its parent's 2^(n + 1) pages of 4096 bytes.
  lemma AreaInParent(b: Block)
    ensures AddressOf(Parent(b)) <= AddressOf(b)
    ensures AddressOf(b) + Pow2(b.n) * 4096 <= AddressOf(Parent(b)) + Pow2(b.n + 1) * 4096
  {
    HalfTimesTwice(b.pos, Pow2(b.n));
  }

  /** What a block covers lies inside it. */
  lemma {:induction false} AreaNested(b: Block, c: Block)
    requires Covers(b, c)
    ensures AddressOf(b) <= AddressOf(c) && AddressOf(c) + Pow2(c.n) * 4096 <= AddressOf(b) + Pow2(b.n) * 4096
    decreases b.n - c.n
  {
    if c.n < b.n {
      AreaInParent(c);
      AreaNested(b, Parent(c));
    }
  }

  /** Two blocks neither of which covers the other share no byte. */
  lemma AreasApart(b: Block, c: Block)
    requires !Covers(b, c) && !Covers(c, b)
    ensures AddressOf(b) + Pow2(b.n) * 4096 <= AddressOf(c) || AddressOf(c) + Pow2(c.n) * 4096 <= AddressOf(b)
  {
    if b.n <= c.n { LowerApart(b, c); } else { LowerApart(c, b); }
  }

  lemma {:induction false} LowerApart(b: Block, c: Block)
    requires b.n <= c.n && !Covers(c, b)
    ensures AddressOf(b) + Pow2(b.n) * 4096 <= AddressOf(c) || AddressOf(c) + Pow2(c.n) * 4096 <= AddressOf(b)
    decreases c.n - b.n
  {
    if b.n < c.n {
      AreaInParent(b);
      LowerApart(Parent(b), c);
    } else if b.pos < c.pos {
      NextMultiple(b.pos, c.pos, Pow2(b.n));
    } else {
      NextMultiple(c.pos, b.pos, Pow2(b.n));
    }
  }

  /** Managed blocks lie in the 14 top-level blocks, which fill the addresses from 0xc4000000 up to
      0xfc000000. */
  lemma AreaInside(b: Block)
    requires Managed(b)
    ensures 0xc400_0000 <= AddressOf(b) && AddressOf(b) + Pow2(b.n) * 4096 <= 0xfc00_0000
    ensures AddressOf(Block(14, 1)) == 0xc400_0000 && AddressOf(Block(14, 14)) + Pow2(14) * 4096 == 0xfc00_0000
  {
    var k := Up(b.pos, TOP - b.n);
    TopPower();
    AreaNested(Block(TOP, k), b);
  }

  // The 2^n pages from p on share no byte with a block of out.
  ghost predicate ClearOf(p: nat, n: nat, out: set<Block>) {
    forall b | b in out :: p + Pow2(n) * 4096 <= AddressOf(b) || AddressOf(b) + Pow2(b.n) * 4096 <= p
  }

  lemma UntouchedClear(out: set<Block>, b: Block)
    requires Untouched(out, b)
    ensures ClearOf(AddressOf(b), b.n, out)
  {
    forall c | c in out
      ensures AddressOf(b) + Pow2(b.n) * 4096 <= AddressOf(c) || AddressOf(c) + Pow2(c.n) * 4096 <= AddressOf(b)
    {
      if Covers(b, c) {
        var q := FirstPage(c);
        CoversTransitive(b, c, Page(q));
        assert CoveredBy(out, Page(q));
      } else if Covers(c, b) {
        var q := FirstPage(b);
        CoversTransitive(c, b, Page(q));
        assert CoveredBy(out, Page(q));
      }
      AreasApart(b, c);
    }
  }

  // ---------- the free lists as a set of blocks ----------

  ghost function FreeBlocks(lists: seq<seq<nat>>): set<Block> {
    set n: nat, p: nat | n < |lists| && p in lists[n] :: Block(n, p)
  }

  lemma FreeMember(lists: seq<seq<nat>>, b: Block)
    ensures b in FreeBlocks(lists) <==> b.n < |lists| && b.pos in lists[b.n]
  {
  }

  lemma FreePushed(lists: seq<seq<nat>>, n: nat, pos: nat)
    requires n < |lists|
    ensures FreeBlocks(lists[n := [pos] + lists[n]]) == FreeBlocks(lists) + {Block(n, pos)}
  {
    var lists' := lists[n := [pos] + lists[n]];
    forall b: Block ensures b in FreeBlocks(lists') <==> b in FreeBlocks(lists) + {Block(n, pos)} {
      FreeMember(lists', b);
      FreeMember(lists, b);
    }
  }

  lemma FreeDropped(lists: seq<seq<nat>>, n: nat, k: nat)
    requires n < |lists| && k < |lists[n]| && NoRepeats(lists[n])
    ensures FreeBlocks(lists[n := lists[n][..k] + lists[n][k + 1..]]) == FreeBlocks(lists) - {Block(n, lists[n][k])}
  {
    var s := lists[n];
    var r := s[..k] + s[k + 1..];
    var lists' := lists[n := r];
    forall b: Block ensures b in FreeBlocks(lists') <==> b in FreeBlocks(lists) - {Block(n, s[k])} {
      MemberWithout(s, k, b.pos);
      FreeMember(lists', b);
      FreeMember(lists, b);
    }
  }

  // No managed run of 2^n pages is wholly free.
  ghost predicate NoRun(out: set<Block>, n: nat) {
    forall pos: nat | Managed(Block(n, pos)) :: !Untouched(out, Block(n, pos))
  }

  lemma SomeRun(out: set<Block>, b: Block)
    requires Managed(b) && Untouched(out, b)
    ensures !NoRun(out, b.n)
  {
    assert Managed(Block(b.n, b.pos));
  }

  // p is the address of a wholly free run of 2^n managed pages, now outstanding.
  ghost predicate HandedOut(p: nat, n: nat, out: set<Block>, out': set<Block>) {
    && p >= MEM_START && p == AddressOf(BlockAt(p, n))
    && Managed(BlockAt(p, n)) && Untouched(out, BlockAt(p, n)) && out' == out + {BlockAt(p, n)}
  }

  // Where the area comes from: the lowest level from n on with something listed.
  function LevelFor(lists: seq<seq<nat>>, n: nat): nat
    decreases |lists| - n
  {
    if n < |lists| && lists[n] == [] then LevelFor(lists, n + 1) else n
  }

  // p is the start of the first block listed there.
  ghost predicate FromFirst(p: nat, lists: seq<seq<nat>>, n: nat) {
    var j := LevelFor(lists, n);
    j < |lists| && lists[j] != [] && p == AddressOf(Block(j, lists[j][0]))
  }

  lemma NotYetOut(out: set<Block>, b: Block)
    requires b.n > 0 && Untouched(out, b)
    ensures b !in out
  {
    var p := FirstPage(b);
    assert Covers(b, Page(p));
  }

  lemma AreaOfRun(p: nat, n: nat, out: set<Block>, out': set<Block>)
    requires HandedOut(p, n, out, out')
    ensures ClearOf(p, n, out) && 0xc400_0000 <= p && p + Pow2(n) * 4096 <= 0xfc00_0000
  {
    UntouchedClear(out, BlockAt(p, n));
    AreaInside(BlockAt(p, n));
  }

  lemma TakenOnce(p: nat, n: nat, out: set<Block>, out': set<Block>)
    requires HandedOut(p, n, out, out')
    ensures p >= MEM_START && n < DEPTH && BlockAt(p, n) in out' && out' - {BlockAt(p, n)} == out
  {
    var b := BlockAt(p, n);
    var q := FirstPage(b);
    assert Covers(b, Page(q));
  }

  lemma UntouchedHalf(out: set<Block>, b: Block)
    requires b.n > 0 && Untouched(out, b) && Managed(b)
    ensures Untouched(out, Left(b)) && Managed(Left(b))
  {
    HalvesUnder(b);
    ManagedUp(Left(b));
    forall p: nat | Covers(Left(b), Page(p)) ensures !CoveredBy(out, Page(p)) {
      CoversTransitive(b, Left(b), Page(p));
    }
  }

  // With nothing listed at level n and no run one level up, there is none at level n.
  lemma NoRunBelow(free: set<Block>, out: set<Block>, n: nat)
    requires Canonical(free, out) && n <= TOP && (forall b | b in free :: b.n != n)
    requires n < TOP ==> NoRun(out, n + 1)
    ensures NoRun(out, n)
  {
    forall pos: nat | Managed(Block(n, pos)) ensures !Untouched(out, Block(n, pos)) {
      var r := Block(n, pos);
      if Untouched(out, r) {
        RunCovered(free, out, r);
        var f :| f in free && Covers(f, r);
        CoversBoth(f, r);
        FreeUntouched(free, out, f);
        ManagedUp(r);
        forall p: nat | Covers(Parent(r), Page(p)) ensures !CoveredBy(out, Page(p)) {
          CoversTransitive(f, Parent(r), Page(p));
        }
        assert Untouched(out, Block(n + 1, pos / 2));
      }
    }
  }

  // ---------- the four moves on the lists ----------

  lemma TakenLists(ls: seq<seq<nat>>, out: set<Block>, n: nat)
    requires Canonical(FreeBlocks(ls), out) && n < |ls| && ls[n] != [] && NoRepeats(ls[n])
    ensures var b := Block(n, ls[n][0]);
      && Canonical(FreeBlocks(ls[n := ls[n][1..]]), out + {b})
      && Managed(b) && Untouched(out, b)
  {
    var b := Block(n, ls[n][0]);
    FreeMember(ls, b);
    assert ls[n][..0] + ls[n][1..] == ls[n][1..];
    FreeDropped(ls, n, 0);
    TakeKeeps(FreeBlocks(ls), out, b);
    FreeUntouched(FreeBlocks(ls), out, b);
  }

  lemma SplitLists(ls: seq<seq<nat>>, out: set<Block>, b: Block, n: nat, pos: nat)
    requires Canonical(FreeBlocks(ls), out) && b in out && b == Block(n + 1, pos / 2) && pos % 2 == 0 && n < |ls|
    ensures Canonical(FreeBlocks(ls[n := [pos + 1] + ls[n]]), out - {b} + {Left(b)})
    ensures pos + 1 !in ls[n] && n < TOP && pos + 1 < Blocks(n)
  {
    assert Right(b) == Block(n, pos + 1);
    SplitKeeps(FreeBlocks(ls), out, b);
    FreeMember(ls, Right(b));
    FreePushed(ls, n, pos + 1);
    ManagedBound(Right(b));
  }

  lemma GivenLists(ls: seq<seq<nat>>, out: set<Block>, b: Block)
    requires Canonical(FreeBlocks(ls), out) && b in out && b.n < |ls| && (b.n < TOP ==> BuddyPos(b.pos) !in ls[b.n])
    ensures Canonical(FreeBlocks(ls[b.n := [b.pos] + ls[b.n]]), out - {b})
  {
    FreeMember(ls, Buddy(b));
    FreePushed(ls, b.n, b.pos);
    GiveKeeps(FreeBlocks(ls), out, b);
  }

  lemma MergedLists(ls: seq<seq<nat>>, out: set<Block>, b: Block, k: nat)
    requires Canonical(FreeBlocks(ls), out) && b in out && b.n < |ls| && b.n < TOP
    requires k < |ls[b.n]| && ls[b.n][k] == BuddyPos(b.pos) && NoRepeats(ls[b.n])
    ensures Canonical(FreeBlocks(ls[b.n := ls[b.n][..k] + ls[b.n][k + 1..]]), out - {b} + {Parent(b)})
    ensures Parent(b) !in out
  {
    FreeMember(ls, Buddy(b));
    FreeDropped(ls, b.n, k);
    MergeKeeps(FreeBlocks(ls), out, b);
  }

  ghost function AfterReturn(out: set<Block>, b: Block, merged: bool): set<Block> {
    if merged then out - {b} + {Parent(b)} else out - {b}
  }

  lemma ReturnedLists(ls: seq<seq<nat>>, ls': seq<seq<nat>>, out: set<Block>, b: Block, merged: bool, k: nat)
    requires Canonical(FreeBlocks(ls), out) && b in out && b.n < |ls| && NoRepeats(ls[b.n])
    requires merged <==> b.n < TOP && BuddyPos(b.pos) in ls[b.n]
    requires !merged ==> ls' == ls[b.n := [b.pos] + ls[b.n]]
    requires merged ==> k < |ls[b.n]| && ls[b.n][k] == BuddyPos(b.pos)
    requires merged ==> ls' == ls[b.n := ls[b.n][..k] + ls[b.n][k + 1..]]
    ensures Canonical(FreeBlocks(ls'), AfterReturn(out, b, merged))
    ensures merged ==> Parent(b) !in out
  {
    if merged {
      MergedLists(ls, out, b, k);
    } else {
      GivenLists(ls, out, b);
    }
  }

  lemma OutBlock(ls: seq<seq<nat>>, out: set<Block>, b: Block)
    requires Canonical(FreeBlocks(ls), out) && b in out && b.n < |ls|
    ensures b.n <= TOP && b.pos < Blocks(b.n) && b.pos !in ls[b.n]
  {
    ManagedBound(b);
    FreeMember(ls, b);
  }

  lemma EmptyLevel(ls: seq<seq<nat>>, n: nat)
    requires n < |ls| && ls[n] == []
    ensures forall b | b in FreeBlocks(ls) :: b.n != n
  {
  }

  ghost predicate Separate(a: L.Level, b: L.Level) {
    a != b && a.bits != b.bits && a.list != b.list && a.bits as object != b.list && b.bits as object != a.list
  }

  // A fresh level n with nothing listed.
  ghost predicate Made(l: L.Level, n: nat, repr: set<object>)
    requires n <= TOP
    reads l, l.bits, l.list
  {
    l in repr && l.bits in repr && l.list in repr && l.Valid() && l.size == Blocks(n) && l.free == []
  }

  lemma BootLists(ls: seq<seq<nat>>)
    requires |ls| == DEPTH && ls[TOP] == seq(14, i => i + 1) && forall n | 0 <= n < TOP :: ls[n] == []
    ensures FreeBlocks(ls) == Boot()
  {
    forall b: Block ensures b in FreeBlocks(ls) <==> b in Boot() {
      FreeMember(ls, b);
      if b.n == TOP && 1 <= b.pos <= 14 {
        assert ls[TOP][b.pos - 1] == b.pos;
      }
    }
  }

  // The two computations between a block and its address.
  method ToAddress(pos: nat, n: nat) returns (p: nat)
    ensures p == AddressOf(Block(n, pos)) && p >= MEM_START
  {
    p := pos * Pow2(n) * 4096 + MEM_START;
  }

  method ToPos(p: nat, n: nat) returns (pos: nat)
    requires p >= MEM_START
    ensures Block(n, pos) == BlockAt(p, n)
  {
    pos := (p - MEM_START) / 4096 / Pow2(n);
  }

  class BuddySystem {
    const levels: seq<L.Level>
    ghost const Repr: set<object>
    ghost var out: set<Block>

    ghost predicate Shape() {
      && |levels| == DEPTH && this !in Repr
      && (forall n | 0 <= n < DEPTH :: Owned(n))
      && (forall m, n | 0 <= m < DEPTH && 0 <= n < DEPTH && m != n :: SeparateLevels(m, n))
    }

    ghost predicate Owned(n: nat)
      requires n < |levels|
    {
      levels[n] in Repr && levels[n].bits in Repr && levels[n].list in Repr
    }

    ghost predicate SeparateLevels(m: nat, n: nat)
      requires m < |levels| && n < |levels|
    {
      Separate(levels[m], levels[n])
    }

    ghost function Lists(): (ls: seq<seq<nat>>)
      requires |levels| == DEPTH
      reads levels
      ensures |ls| == DEPTH && forall n | 0 <= n < DEPTH :: ls[n] == levels[n].free
    {
      seq(DEPTH, n requires 0 <= n < DEPTH reads levels => levels[n].free)
    }

    ghost predicate LevelOk(n: nat)
      requires Shape() && n < DEPTH
      reads Repr
    {
      assert Owned(n);
      levels[n].Valid() && levels[n].size == Blocks(n)
    }

    // Levels with their arrays, nothing listed, sharing nothing.
    static ghost predicate AllMade(ls: seq<L.Level>, repr: set<object>)
      requires |ls| <= DEPTH
      reads ls, repr
    {
      && (forall n | 0 <= n < |ls| :: ls[n].bits in repr && ls[n].list in repr && Made(ls[n], n, repr))
      && (forall m, n | 0 <= m < |ls| && 0 <= n < |ls| && m != n :: Separate(ls[m], ls[n]))
    }

    static method AddLevel(ls0: seq<L.Level>, ghost repr0: set<object>, list_size: nat)
      returns (ls: seq<L.Level>, ghost repr: set<object>)
      requires |ls0| < DEPTH && AllMade(ls0, repr0) && list_size == Blocks(|ls0|)
      ensures |ls| == |ls0| + 1 && AllMade(ls, repr) && repr >= repr0 && fresh(repr - repr0)
    {
      BlocksWholeWords(|ls0|);
      var level := new L.Level(list_size);
      ls := ls0 + [level];
      repr := repr0 + {level, level.bits, level.list};
      forall m | 0 <= m < |ls0| ensures Separate(ls0[m], level) && Separate(level, ls0[m]) && Made(ls0[m], m, repr) {
        assert Made(ls0[m], m, repr0);
      }
    }

    static method MakeLevels() returns (ls: seq<L.Level>, ghost repr: set<object>)
      ensures |ls| == DEPTH && AllMade(ls, repr) && fresh(repr)
    {
      BlocksAtBottom();
      ls := [];
      repr := {};
      var list_size := 262144;
      for i := 0 to DEPTH
        invariant |ls| == i && (i <= TOP ==> list_size == Blocks(i)) && fresh(repr) && AllMade(ls, repr)
      {
        ls, repr := AddLevel(ls, repr, list_size);
        list_size := list_size / 2;
      }
    }

    /** init_buddy_module */
    constructor ()
      ensures Valid() && out == {} && FreeBlocks(Lists()) == Boot() && fresh(Repr)
    {
      var ls: seq<L.Level>;
      ghost var repr: set<object>;
      ls, repr := MakeLevels();
      levels := ls;
      Repr := repr;
      out := {};
      new;
      assert Made(ls[TOP], TOP, repr);
      levels[TOP].OpenTop();
      forall n | 0 <= n < TOP ensures Made(ls[n], n, repr) {
        assert Separate(ls[n], ls[TOP]);
      }
      BootCanonical();
      BootLists(Lists());
    }

    // Bits and lists agree on every level.
    ghost predicate Sound()
      reads Repr
    {
      Shape() && forall n | 0 <= n < DEPTH :: LevelOk(n)
    }

    /** And the listed and outstanding blocks are canonical. */
    ghost predicate Valid()
      reads this, Repr, levels
    {
      Sound() && Canonical(FreeBlocks(Lists()), out)
    }

    lemma LevelFacts(n: nat)
      requires Sound() && n < DEPTH
      ensures Owned(n) && LevelOk(n) && NoRepeats(Lists()[n])
      ensures levels[n].head == L.NULL <==> Lists()[n] == []
    {
      assert LevelOk(n);
    }

    // What one level does leaves the others as they are.
    lemma Apart(n: nat)
      requires Shape() && n < DEPTH
      ensures forall m | 0 <= m < DEPTH && m != n ::
        && levels[m] != levels[n] && levels[m].bits != levels[n].bits && levels[m].list != levels[n].list
        && levels[m].bits as object != levels[n].list && levels[n].bits as object != levels[m].list
    {
      forall m | 0 <= m < DEPTH && m != n
        ensures levels[m] != levels[n] && levels[m].bits != levels[n].bits && levels[m].list != levels[n].list
        ensures levels[m].bits as object != levels[n].list && levels[n].bits as object != levels[m].list
      {
        assert SeparateLevels(m, n);
      }
    }

    method TakeAt(n: nat) returns (pos: nat)
      requires Sound() && n < DEPTH && levels[n].free != []
      modifies levels[n], levels[n].list, levels[n].bits
      ensures Sound() && pos == old(Lists())[n][0]
      ensures Lists() == old(Lists())[n := old(Lists())[n][1..]]
    {
      LevelFacts(n);
      Apart(n);
      pos := levels[n].TakeFirst();
      forall m | 0 <= m < DEPTH ensures LevelOk(m) {
        assert old(LevelOk(m));
      }
    }

    method AddAt(n: nat, pos: nat)
      requires Sound() && n < DEPTH && pos % 2 == 0 && pos + 1 < Blocks(n) && pos + 1 !in levels[n].free
      modifies levels[n], levels[n].list, levels[n].bits
      ensures Sound() && Lists() == old(Lists())[n := [pos + 1] + old(Lists())[n]]
    {
      LevelFacts(n);
      Apart(n);
      levels[n].AddRightHalf(pos);
      forall m | 0 <= m < DEPTH ensures LevelOk(m) {
        assert old(LevelOk(m));
      }
    }

    method ReturnAt(n: nat, pos: nat) returns (merged: bool, ghost k: nat)
      requires Sound() && n < DEPTH && pos < Blocks(n) && pos !in levels[n].free
      modifies levels[n], levels[n].list, levels[n].bits
      ensures Sound() && (merged <==> n < TOP && BuddyPos(pos) in old(Lists())[n])
      ensures !merged ==> Lists() == old(Lists())[n := [pos] + old(Lists())[n]]
      ensures merged ==> k < |old(Lists())[n]| && old(Lists())[n][k] == BuddyPos(pos)
      ensures merged ==> Lists() == old(Lists())[n := old(Lists())[n][..k] + old(Lists())[n][k + 1..]]
    {
      LevelFacts(n);
      Apart(n);
      merged, k := levels[n].Return(pos, n == DEPTH - 1);
      forall m | 0 <= m < DEPTH ensures LevelOk(m) {
        assert old(LevelOk(m));
      }
    }

    method Take(n: nat) returns (pos: nat)
      requires Valid() && n < DEPTH && levels[n].free != []
      modifies this`out, Repr
      ensures Valid() && out == old(out) + {Block(n, pos)} && pos == old(Lists())[n][0]
      ensures Managed(Block(n, pos)) && Untouched(old(out), Block(n, pos))
    {
      LevelFacts(n);
      TakenLists(Lists(), out, n);
      pos := TakeAt(n);
      ghost var ls := Lists();
      out := out + {Block(n, pos)};
      assert Lists() == ls;
    }

    // The block b one level up is split: the left half stays out.
    method Split(n: nat, pos: nat, ghost b: Block)
      requires Valid() && b.n == n + 1 && pos == 2 * b.pos && b in out && n < TOP
      modifies this`out, Repr
      ensures Valid() && out == old(out) - {b} + {Left(b)}
    {
      LevelFacts(n);
      SplitLists(Lists(), out, b, n, pos);
      AddAt(n, pos);
      ghost var ls := Lists();
      out := out - {b} + {Left(b)};
      assert Lists() == ls;
    }

    // A block comes back to its list, or merges with its buddy into its parent.
    method Return(n: nat, pos: nat) returns (merged: bool)
      requires Valid() && n < DEPTH && Block(n, pos) in out
      modifies this`out, Repr
      ensures Valid() && (merged ==> n < TOP && Parent(Block(n, pos)) !in old(out))
      ensures out == AfterReturn(old(out), Block(n, pos), merged)
    {
      ghost var b, ls := Block(n, pos), Lists();
      LevelFacts(n);
      OutBlock(ls, out, b);
      ghost var k: nat;
      merged, k := ReturnAt(n, pos);
      ghost var ls' := Lists();
      ReturnedLists(ls, ls', out, b, merged, k);
      out := AfterReturn(out, b, merged);
      assert Lists() == ls';
    }

    /** get_address_area: NULL, with nothing changed, exactly when no aligned run of 2^n
        managed pages is wholly free; otherwise the address of such a run, handed out.  It shares no
        byte with what is out already, and starts the first block of the lowest level that has one. */
    method GetAddressArea(n: nat) returns (p: nat)
      requires Valid()
      modifies this`out, Repr
      ensures Valid()
      ensures p == NULL_ADDRESS <==> n >= DEPTH || NoRun(old(out), n)
      ensures p == NULL_ADDRESS ==> out == old(out) && Lists() == old(Lists())
      ensures p != NULL_ADDRESS ==> HandedOut(p, n, old(out), out) && FromFirst(p, old(Lists()), n)
      ensures p != NULL_ADDRESS ==> ClearOf(p, n, old(out)) && 0xc400_0000 <= p && p + Pow2(n) * 4096 <= 0xfc00_0000
      decreases DEPTH - n
    {
      if n >= DEPTH {
        return NULL_ADDRESS;
      }
      LevelFacts(n);
      if levels[n].head != L.NULL {
        p := TakeHere(n);
        AreaOfRun(p, n, old(out), out);
        return;
      }
      EmptyLevel(Lists(), n);
      var parent := GetAddressArea(n + 1);
      if parent == NULL_ADDRESS {
        NoRunBelow(FreeBlocks(Lists()), out, n);
        return NULL_ADDRESS;
      }
      SplitHere(n, parent, old(out));
      AreaOfRun(parent, n, old(out), out);
      return parent;
    }

    // The first block of the level is handed out.
    method TakeHere(n: nat) returns (p: nat)
      requires Valid() && n < DEPTH && levels[n].free != []
      modifies this`out, Repr
      ensures Valid() && p != NULL_ADDRESS && HandedOut(p, n, old(out), out) && !NoRun(old(out), n)
      ensures p == AddressOf(Block(n, old(Lists())[n][0]))
    {
      var pos := Take(n);
      AddressRoundTrip(Block(n, pos));
      p := ToAddress(pos, n);
      SomeRun(old(out), Block(n, pos));
    }

    // The block taken one level up is split, and its left half handed out.
    method SplitHere(n: nat, parent: nat, ghost out0: set<Block>)
      requires Valid() && n < TOP && HandedOut(parent, n + 1, out0, out)
      modifies this`out, Repr
      ensures Valid() && HandedOut(parent, n, out0, out) && !NoRun(out0, n)
    {
      UntouchedHalf(out0, BlockAt(parent, n + 1));
      NotYetOut(out0, BlockAt(parent, n + 1));
      SplitParent(n, parent);
      SomeRun(out0, BlockAt(parent, n));
    }

    // The block one level up, at the address parent, is split.
    method SplitParent(n: nat, parent: nat)
      requires Valid() && n < TOP && parent >= MEM_START && BlockAt(parent, n + 1) in out
      requires parent == AddressOf(BlockAt(parent, n + 1))
      modifies this`out, Repr
      ensures Valid() && BlockAt(parent, n) == Left(BlockAt(parent, n + 1)) && parent == AddressOf(BlockAt(parent, n))
      ensures out == old(out) - {BlockAt(parent, n + 1)} + {BlockAt(parent, n)}
    {
      SplitAddress(parent, n);
      var pos := ToPos(parent, n);
      Split(n, pos, BlockAt(parent, n + 1));
    }

    /** free_address_area: the block the address lies in at level n comes back. */
    method FreeAddressArea(p: nat, n: nat)
      requires Valid() && n < DEPTH && p >= MEM_START && BlockAt(p, n) in out
      modifies this`out, Repr
      ensures Valid() && out == old(out) - {BlockAt(p, n)}
      decreases DEPTH - n
    {
      var pos := ToPos(p, n);
      var merged := Return(n, pos);
      if merged {
        BlockAtParent(p, n);
        FreeAddressArea(p, n + 1);
      }
    }

    /** Taking an address and giving it back at the same level, as process_cow does with its
        scratch page: the lists hold the same blocks again, however deep the split went. */
    method TakeAndGiveBack(n: nat)
      requires Valid()
      modifies this`out, Repr
      ensures Valid() && out == old(out) && FreeBlocks(Lists()) == old(FreeBlocks(Lists()))
    {
      ghost var free := FreeBlocks(Lists());
      var p := GetAddressArea(n);
      if p != NULL_ADDRESS {
        TakenOnce(p, n, old(out), out);
        FreeAddressArea(p, n);
      }
      FreeDetermined(free, FreeBlocks(Lists()), old(out));
    }

    /** In every reachable state a pair's bit is the exclusive or of its blocks being listed,
        so below the top the bit flipped at free time is 0 exactly when the buddy is listed. */
    lemma BitMeansHalfFree(b: Block)
      requires Valid() && b in out
      ensures b.n < DEPTH && (b.pos / 2) / 32 < levels[b.n].bits.Length
      ensures levels[b.n].Pair(b.pos / 2) <==> Buddy(b) in FreeBlocks(Lists())
    {
      OutBlock(Lists(), out, b);
      assert LevelOk(b.n);
      FreeMember(Lists(), Buddy(b));
      assert levels[b.n].Pair(b.pos / 2) == L.Odd(levels[b.n].free, b.pos / 2);
    }

    /** With everything given back the fourteen top-level blocks are listed whole. */
    lemma NothingOutIsBoot()
      requires Valid() && out == {}
      ensures FreeBlocks(Lists()) == Boot()
    {
      AllBackIsBoot(FreeBlocks(Lists()));
    }
  }
}
