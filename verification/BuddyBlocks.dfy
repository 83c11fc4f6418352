/** The buddy system as sets of blocks: what src/buddy.c's bits and lists stand for. */
module BuddyBlocks {
  const TOP: nat := 14

  // Pages pos * 2^n up to (pos + 1) * 2^n.
  datatype Block = Block(n: nat, pos: nat)

  // The ancestor d levels up.
  function Up(pos: nat, d: nat): nat {
    if d == 0 then pos else Up(pos / 2, d - 1)
  }

  predicate Covers(b: Block, c: Block) {
    c.n <= b.n && Up(c.pos, b.n - c.n) == b.pos
  }

  function Parent(b: Block): Block { Block(b.n + 1, b.pos / 2) }

  function Left(b: Block): Block
    requires b.n > 0
  {
    Block(b.n - 1, 2 * b.pos)
  }

  function Right(b: Block): Block
    requires b.n > 0
  {
    Block(b.n - 1, 2 * b.pos + 1)
  }

  // pos ^ 1
  function BuddyPos(pos: nat): nat {
    if pos % 2 == 0 then pos + 1 else pos - 1
  }

  function Buddy(b: Block): Block { Block(b.n, BuddyPos(b.pos)) }

  function Page(p: nat): Block { Block(0, p) }

  // The allocator manages top-level blocks 1 to 14.
  predicate Managed(b: Block) {
    b.n <= TOP && 1 <= Up(b.pos, TOP - b.n) <= 14
  }

  ghost predicate PairwiseApart(s: set<Block>) {
    forall b, c | b in s && c in s && b != c :: !Covers(b, c)
  }

  ghost predicate CoveredBy(s: set<Block>, c: Block) {
    exists b :: b in s && Covers(b, c)
  }

  ghost predicate Complete(s: set<Block>) {
    forall p: nat | Managed(Page(p)) :: CoveredBy(s, Page(p))
  }

  // No two buddies below the top are both free.
  ghost predicate Merged(free: set<Block>) {
    forall b | b in free && b.n < TOP :: Buddy(b) !in free
  }

  /** Free and outstanding blocks partition the managed pages, and nothing more can merge. */
  ghost predicate Canonical(free: set<Block>, out: set<Block>) {
    && free !! out
    && (forall b | b in free + out :: Managed(b))
    && PairwiseApart(free + out) && Complete(free + out) && Merged(free)
  }

  // ---------- ancestors ----------

  lemma {:induction false} UpAdd(pos: nat, d: nat, e: nat)
    ensures Up(Up(pos, d), e) == Up(pos, d + e)
    decreases d
  {
    if d > 0 {
      UpAdd(pos / 2, d - 1, e);
    }
  }

  lemma CoversTransitive(a: Block, b: Block, c: Block)
    requires Covers(a, b) && Covers(b, c)
    ensures Covers(a, c)
  {
    UpAdd(c.pos, b.n - c.n, a.n - b.n);
  }

  // Two blocks over the same block: one covers the other.
  lemma Nested(a: Block, b: Block, c: Block)
    requires Covers(a, c) && Covers(b, c) && a.n <= b.n
    ensures Covers(b, a)
  {
    UpAdd(c.pos, a.n - c.n, b.n - a.n);
  }

  lemma ParentCovers(b: Block)
    ensures Covers(Parent(b), b)
  {
    assert Up(b.pos, 1) == Up(b.pos / 2, 0);
  }

  lemma CoversBoth(a: Block, b: Block)
    requires Covers(a, b) && a != b
    ensures Covers(a, Parent(b)) && a.n > b.n
  {
  }

  // What a block covers, one of its halves covers.
  lemma HalfCovers(b: Block, c: Block)
    requires Covers(b, c) && c.n < b.n
    ensures Covers(Left(b), c) || Covers(Right(b), c)
  {
    var h := Up(c.pos, b.n - 1 - c.n);
    UpAdd(c.pos, b.n - 1 - c.n, 1);
    assert Up(h, 1) == Up(h / 2, 0);
    assert h / 2 == b.pos;
  }

  lemma HalvesUnder(b: Block)
    requires b.n > 0
    ensures Parent(Left(b)) == b && Parent(Right(b)) == b && Buddy(Left(b)) == Right(b) && Buddy(Right(b)) == Left(b)
    ensures Covers(b, Left(b)) && Covers(b, Right(b))
    ensures !Covers(Left(b), Right(b)) && !Covers(Right(b), Left(b))
  {
    ParentCovers(Left(b));
    ParentCovers(Right(b));
  }

  lemma BuddyHalves(b: Block)
    ensures Buddy(Buddy(b)) == b && Parent(Buddy(b)) == Parent(b)
    ensures {b, Buddy(b)} == {Left(Parent(b)), Right(Parent(b))}
  {
  }

  lemma ManagedUp(b: Block)
    requires b.n < TOP
    ensures Managed(b) <==> Managed(Parent(b))
  {
  }

  // Some page lies below every block.
  function FirstPage(b: Block): (p: nat)
    ensures Covers(b, Page(p))
    decreases b.n
  {
    if b.n == 0 then b.pos
    else
      HalvesUnder(b);
      var p := FirstPage(Left(b));
      CoversTransitive(b, Left(b), Page(p));
      p
  }

  // ---------- the four moves ----------

  // A free block is handed out.
  lemma TakeKeeps(free: set<Block>, out: set<Block>, b: Block)
    requires Canonical(free, out) && b in free
    ensures Canonical(free - {b}, out + {b})
  {
    assert (free - {b}) + (out + {b}) == free + out;
  }

  // A block comes back whose buddy is not free.
  lemma GiveKeeps(free: set<Block>, out: set<Block>, b: Block)
    requires Canonical(free, out) && b in out && (b.n < TOP ==> Buddy(b) !in free)
    ensures Canonical(free + {b}, out - {b})
  {
    assert (free + {b}) + (out - {b}) == free + out;
    forall c | c in free + {b} && c.n < TOP ensures Buddy(c) !in free + {b} {
      BuddyHalves(c);
    }
  }

  // Replacing a block by its two halves.
  lemma HalvesApart(s: set<Block>, b: Block)
    requires PairwiseApart(s) && Complete(s) && b in s && b.n > 0
    ensures PairwiseApart(s - {b} + {Left(b), Right(b)}) && Complete(s - {b} + {Left(b), Right(b)})
    ensures Left(b) !in s && Right(b) !in s
  {
    var l, r, s' := Left(b), Right(b), s - {b} + {Left(b), Right(b)};
    HalvesUnder(b);
    forall c, d | c in s' && d in s' && c != d ensures !Covers(c, d) {
      if Covers(c, d) {
        if c in {l, r} {
          CoversTransitive(b, c, d);
        } else if d in {l, r} {
          CoversBoth(c, d);
        }
      }
    }
    forall p: nat | Managed(Page(p)) ensures CoveredBy(s', Page(p)) {
      var c :| c in s && Covers(c, Page(p));
      if c == b {
        HalfCovers(b, Page(p));
      }
    }
  }

  // Replacing two buddies by the block they make.
  lemma WholeApart(s: set<Block>, b: Block)
    requires PairwiseApart(s) && Complete(s) && b.n > 0 && Left(b) in s && Right(b) in s
    ensures PairwiseApart(s - {Left(b), Right(b)} + {b}) && Complete(s - {Left(b), Right(b)} + {b})
    ensures b !in s
  {
    var l, r, s' := Left(b), Right(b), s - {Left(b), Right(b)} + {b};
    HalvesUnder(b);
    forall c, d | c in s' && d in s' && c != d ensures !Covers(c, d) {
      if Covers(c, d) {
        if c == b {
          HalfCovers(b, d);
        } else if d == b {
          CoversTransitive(c, b, l);
        }
      }
    }
    forall p: nat | Managed(Page(p)) ensures CoveredBy(s', Page(p)) {
      var c :| c in s && Covers(c, Page(p));
      if c in {l, r} {
        CoversTransitive(b, c, Page(p));
      } else {
        assert c in s';
      }
    }
  }

  // An outstanding block is split: the left half stays out, the right half is free.
  lemma SplitKeeps(free: set<Block>, out: set<Block>, b: Block)
    requires Canonical(free, out) && b in out && b.n > 0
    ensures Canonical(free + {Right(b)}, out - {b} + {Left(b)})
    ensures Left(b) !in free + out && Right(b) !in free + out
  {
    var l, r := Left(b), Right(b);
    HalvesUnder(b);
    HalvesApart(free + out, b);
    assert (free + {r}) + (out - {b} + {l}) == (free + out) - {b} + {l, r};
    ManagedUp(l);
    ManagedUp(r);
    forall c | c in free + {r} && c.n < TOP ensures Buddy(c) !in free + {r} {
      BuddyHalves(c);
    }
  }

  // A returned block joins its free buddy.
  lemma MergeKeeps(free: set<Block>, out: set<Block>, b: Block)
    requires Canonical(free, out) && b in out && b.n < TOP && Buddy(b) in free
    ensures Canonical(free - {Buddy(b)}, out - {b} + {Parent(b)})
    ensures Parent(b) !in free + out
  {
    var w := Parent(b);
    BuddyHalves(b);
    WholeApart(free + out, w);
    assert (free - {Buddy(b)}) + (out - {b} + {w}) == (free + out) - {Left(w), Right(w)} + {w};
    ManagedUp(b);
  }

  // ---------- what is outstanding decides what is free ----------

  // No page of r is handed out.
  ghost predicate Untouched(out: set<Block>, r: Block) {
    forall p: nat | Covers(r, Page(p)) :: !CoveredBy(out, Page(p))
  }

  /** A wholly free aligned run lies inside one free block. */
  lemma {:induction false} RunCovered(free: set<Block>, out: set<Block>, r: Block)
    requires Canonical(free, out) && Managed(r) && Untouched(out, r)
    ensures CoveredBy(free, r)
    decreases r.n
  {
    if r.n == 0 {
      assert r == Page(r.pos) && Covers(r, Page(r.pos));
      var b :| b in free + out && Covers(b, Page(r.pos));
      assert b in free;
    } else {
      var l, q := Left(r), Right(r);
      HalvesUnder(r);
      ManagedUp(l);
      ManagedUp(q);
      forall p: nat | Covers(l, Page(p)) || Covers(q, Page(p)) ensures !CoveredBy(out, Page(p)) {
        if Covers(l, Page(p)) {
          CoversTransitive(r, l, Page(p));
        } else {
          CoversTransitive(r, q, Page(p));
        }
      }
      RunCovered(free, out, l);
      RunCovered(free, out, q);
      var a :| a in free && Covers(a, l);
      var b :| b in free && Covers(b, q);
      if a != l {
        CoversBoth(a, l);
      } else if b != q {
        CoversBoth(b, q);
      }
    }
  }

  lemma FreeUntouched(free: set<Block>, out: set<Block>, b: Block)
    requires Canonical(free, out) && b in free
    ensures Untouched(out, b)
  {
    forall p: nat | Covers(b, Page(p)) ensures !CoveredBy(out, Page(p)) {
      if c :| c in out && Covers(c, Page(p)) {
        if b.n <= c.n {
          Nested(b, c, Page(p));
        } else {
          Nested(c, b, Page(p));
        }
      }
    }
  }

  lemma FreeSubset(free: set<Block>, free': set<Block>, out: set<Block>)
    requires Canonical(free, out) && Canonical(free', out)
    ensures free <= free'
  {
    forall b | b in free ensures b in free' {
      FreeUntouched(free, out, b);
      RunCovered(free', out, b);
      var f :| f in free' && Covers(f, b);
      FreeUntouched(free', out, f);
      RunCovered(free, out, f);
      var g :| g in free && Covers(g, f);
      CoversTransitive(g, f, b);
      assert g == b;
    }
  }

  /** The free lists hold exactly the maximal free blocks: what is handed out decides them. */
  lemma FreeDetermined(free: set<Block>, free': set<Block>, out: set<Block>)
    requires Canonical(free, out) && Canonical(free', out)
    ensures free == free'
  {
    FreeSubset(free, free', out);
    FreeSubset(free', free, out);
  }

  /** The state of the allocator after boot: the fourteen top-level blocks are free. */
  function Boot(): set<Block> {
    set i: nat | 1 <= i <= 14 :: Block(TOP, i)
  }

  lemma BootCanonical()
    ensures Canonical(Boot(), {})
  {
    forall b, c | b in Boot() && c in Boot() && b != c ensures !Covers(b, c) {
      assert Up(c.pos, 0) == c.pos;
    }
    forall p: nat | Managed(Page(p)) ensures CoveredBy(Boot() + {}, Page(p)) {
      var b := Block(TOP, Up(p, TOP));
      assert b in Boot() && Covers(b, Page(p));
    }
    forall b | b in Boot() ensures Managed(b) {
      assert Up(b.pos, 0) == b.pos;
    }
  }

  /** Once everything is back, the fourteen top-level blocks are whole again. */
  lemma AllBackIsBoot(free: set<Block>)
    requires Canonical(free, {})
    ensures free == Boot()
  {
    BootCanonical();
    FreeDetermined(free, Boot(), {});
  }
}
