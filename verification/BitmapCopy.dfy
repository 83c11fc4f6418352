/** level_bitmap_cpy: the same set in a bitmap of another height. */
module BitmapCopy {
  import opened BitmapTree

  // Every word of an empty subtree is empty.
  ghost predicate AllEmpty(c: Words, lo: nat, hi: nat)
    requires hi <= |c|
  {
    forall k: nat | lo <= k < hi :: c[k] == {}
  }

  lemma {:induction false} EmptyThroughout(c: Words, base: nat, l: nat)
    requires InBounds(c, base, l) && WellFormed(c, base, l) && c[base] == {}
    ensures AllEmpty(c, base, base + Size(l))
    decreases l
  {
    if l > 0 {
      EmptyChildren(c, base, l, 0);
    }
  }

  // The words of the children d to 31.
  lemma {:induction false} EmptyChildren(c: Words, base: nat, l: nat, d: nat)
    requires InBounds(c, base, l) && WellFormed(c, base, l) && l > 0 && d <= 32
    requires forall e | e in c[base] :: e < d
    ensures AllEmpty(c, Child(base, l, d), base + Size(l))
    decreases l, 32 - d
  {
    if d == 32 {
      SkipAll(l);
    } else {
      ChildInside(base, l, d);
      assert DigitOk(c, base, l, d);
      EmptyThroughout(c, Child(base, l, d), l - 1);
      EmptyChildren(c, base, l, d + 1);
    }
  }

  lemma {:induction false} ZerosWellFormed(c: Words, base: nat, l: nat)
    requires InBounds(c, base, l) && AllEmpty(c, base, base + Size(l))
    ensures WellFormed(c, base, l)
    decreases l
  {
    if l > 0 {
      forall d: nat | d < 32 ensures DigitOk(c, base, l, d) {
        ChildInside(base, l, d);
        ZerosWellFormed(c, Child(base, l, d), l - 1);
      }
    }
  }

  ghost predicate UpTo(c: Words, base: nat, l: nat, count: nat)
    requires InBounds(c, base, l)
  {
    forall b: nat | b < Capacity(l) && Has(c, base, l, b) :: b <= count
  }

  lemma {:induction false} ScaleMonotone(d: nat, e: nat, l: nat)
    requires d < e
    ensures Scale(d, l) + Pow32(l) <= Scale(e, l)
  {
    ScaleStep(e - 1, l);
    if d + 1 < e {
      ScaleMonotone(d, e - 1, l);
    }
  }

  // No bit above count: the word at the top has no digit above count's.
  lemma DigitsUpTo(c: Words, base: nat, l: nat, count: nat)
    requires InBounds(c, base, l) && WellFormed(c, base, l) && l > 0 && count < Capacity(l) && UpTo(c, base, l, count)
    ensures forall d | d in c[base] :: d <= Digit(count, l)
  {
    forall d | d in c[base] ensures d <= Digit(count, l) {
      ChildInside(base, l, d);
      assert DigitOk(c, base, l, d);
      var r := SomeBit(c, Child(base, l, d), l - 1);
      Composed(d, r, l);
      var b := Scale(d, l) + r;
      DigitSmall(b, l);
      assert Has(c, base, l, b);
      DigitSmall(count, l);
      if Digit(count, l) < d {
        ScaleMonotone(Digit(count, l), d, l);
      }
    }
  }

  lemma ChildUpTo(c: Words, base: nat, l: nat, count: nat)
    requires InBounds(c, base, l) && l > 0 && count < Capacity(l) && UpTo(c, base, l, count)
    ensures Digit(count, l) < 32 && Rest(count, l) < Capacity(l - 1)
    ensures InBounds(c, Child(base, l, Digit(count, l)), l - 1)
    ensures UpTo(c, Child(base, l, Digit(count, l)), l - 1, Rest(count, l))
  {
    DigitSmall(count, l);
    var d, j := Digit(count, l), l - 1;
    ChildInside(base, l, d);
    var q := Child(base, l, d);
    forall r: nat | r < Capacity(j) && Has(c, q, j, r) ensures r <= Rest(count, l) {
      Composed(d, r, l);
      DigitSmall(Scale(d, l) + r, l);
      assert Has(c, base, l, Scale(d, l) + r);
    }
  }

  /** With no bit above count, nothing is set past count's leaf word: a copy of the words up
      to there is a copy of the whole. */
  lemma {:induction false} TailEmpty(c: Words, base: nat, l: nat, count: nat)
    requires InBounds(c, base, l) && WellFormed(c, base, l) && count < Capacity(l) && UpTo(c, base, l, count)
    ensures Down(base, l, count) < base + Size(l)
    ensures AllEmpty(c, Down(base, l, count) + 1, base + Size(l))
    decreases l
  {
    DownInside(base, l, count);
    if l > 0 {
      var d := Digit(count, l);
      DigitsUpTo(c, base, l, count);
      ChildUpTo(c, base, l, count);
      ChildInside(base, l, d);
      assert DigitOk(c, base, l, d);
      TailEmpty(c, Child(base, l, d), l - 1, Rest(count, l));
      EmptyChildren(c, base, l, d + 1);
    }
  }

  // ---------- moving a subtree ----------

  ghost predicate Moved(c: Words, base: nat, c': Words, base': nat, n: nat) {
    base + n <= |c| && base' + n <= |c'| && c'[base'..base' + n] == c[base..base + n]
  }

  lemma MovedPart(c: Words, base: nat, c': Words, base': nat, n: nat, off: nat, m: nat)
    requires Moved(c, base, c', base', n) && off + m <= n
    ensures Moved(c, base + off, c', base' + off, m)
  {
    SliceOfSlice(c, base, n, off, m);
    SliceOfSlice(c', base', n, off, m);
  }

  lemma SliceOfSlice<T>(s: seq<T>, a: nat, n: nat, off: nat, m: nat)
    requires a + n <= |s| && off + m <= n
    ensures s[a..a + n][off..off + m] == s[a + off..a + off + m]
  {
    var t := s[a..a + n];
    var x, y := t[off..off + m], s[a + off..a + off + m];
    forall i | 0 <= i < m ensures x[i] == y[i] {
      assert t[off + i] == s[a + (off + i)];
    }
  }

  lemma {:induction false} MovedKeeps(c: Words, base: nat, c': Words, base': nat, l: nat)
    requires Moved(c, base, c', base', Size(l)) && WellFormed(c, base, l)
    ensures WellFormed(c', base', l) && c'[base'] == c[base]
    decreases l
  {
    assert c'[base'..base' + Size(l)][0] == c[base..base + Size(l)][0];
    if l > 0 {
      forall d: nat | d < 32 ensures DigitOk(c', base', l, d) {
        ChildInside(base, l, d);
        ChildInside(base', l, d);
        assert DigitOk(c, base, l, d);
        MovedPart(c, base, c', base', Size(l), 1 + Skip(d, l), Size(l - 1));
        MovedKeeps(c, Child(base, l, d), c', Child(base', l, d), l - 1);
      }
    }
  }

  lemma {:induction false} MovedHas(c: Words, base: nat, c': Words, base': nat, l: nat, b: nat)
    requires Moved(c, base, c', base', Size(l)) && b < Capacity(l)
    ensures Has(c', base', l, b) == Has(c, base, l, b)
    decreases l
  {
    if l == 0 {
      assert c'[base'..base' + Size(l)][0] == c[base..base + Size(l)][0];
    } else {
      DigitSmall(b, l);
      var d := Digit(b, l);
      ChildInside(base, l, d);
      ChildInside(base', l, d);
      MovedPart(c, base, c', base', Size(l), 1 + Skip(d, l), Size(l - 1));
      MovedHas(c, Child(base, l, d), c', Child(base', l, d), l - 1, Rest(b, l));
    }
  }

  // ---------- a taller and a shorter tree over the same bits ----------

  // A number that fits below has leading digit 0.
  lemma {:induction false} LowNumber(b: nat, l: nat)
    requires l > 0 && b < Capacity(l - 1)
    ensures Digit(b, l) == 0 && Rest(b, l) == b
  {
    DigitSmall(b, l);
    if l == 1 {
      assert Digit(b, 1) == Digit(b / 32, 0) && Rest(b, 1) == 32 * Rest(b / 32, 0) + b % 32;
    } else {
      LowNumber(b / 32, l - 1);
    }
  }

  /** Putting {0} above a non-empty tree, with the other 31 subtrees zero, changes no bit. */
  lemma RaisedOne(c: Words, base: nat, l: nat)
    requires l > 0 && InBounds(c, base, l) && c[base] == {0}
    requires InBounds(c, base + 1, l - 1) && WellFormed(c, base + 1, l - 1)
    requires AllEmpty(c, base + 1 + Size(l - 1), base + Size(l))
    ensures WellFormed(c, base, l) <==> c[base + 1] != {}
    ensures forall b: nat | b < Capacity(l) :: Has(c, base, l, b) <==> b < Capacity(l - 1) && Has(c, base + 1, l - 1, b)
  {
    assert Child(base, l, 0) == base + 1;
    forall d: nat | 0 < d < 32 ensures DigitOk(c, base, l, d) {
      ChildInside(base, l, d);
      ChildrenApart(base, l, 0, d);
      SkipMonotone(0, d, l);
      ZerosWellFormed(c, Child(base, l, d), l - 1);
    }
    ChildInside(base, l, 0);
    assert c[base + 1] != {} <==> DigitOk(c, base, l, 0);
    forall b: nat | b < Capacity(l)
      ensures Has(c, base, l, b) <==> b < Capacity(l - 1) && Has(c, base + 1, l - 1, b)
    {
      DigitSmall(b, l);
      var d := Digit(b, l);
      if d > 0 {
        ChildInside(base, l, d);
        SkipMonotone(0, d, l);
        ZerosWellFormed(c, Child(base, l, d), l - 1);
        EmptyHasNone(c, Child(base, l, d), l - 1, Rest(b, l));
        if b < Capacity(l - 1) {
          LowNumber(b, l);
        }
      } else {
        ScaleZero(l);
        assert Rest(b, l) == b;
      }
    }
  }

  /** When every bit fits one level down, the first child holds the same set. */
  lemma LoweredOne(c: Words, base: nat, l: nat, count: nat)
    requires l > 0 && InBounds(c, base, l) && WellFormed(c, base, l)
    requires count < Capacity(l - 1) && UpTo(c, base, l, count)
    ensures InBounds(c, base + 1, l - 1) && WellFormed(c, base + 1, l - 1) && UpTo(c, base + 1, l - 1, count)
    ensures forall b: nat | b < Capacity(l) :: Has(c, base, l, b) <==> b < Capacity(l - 1) && Has(c, base + 1, l - 1, b)
  {
    assert Child(base, l, 0) == base + 1;
    ChildInside(base, l, 0);
    assert DigitOk(c, base, l, 0);
    var q, j := base + 1, l - 1;
    forall b: nat | b < Capacity(l)
      ensures Has(c, base, l, b) <==> b < Capacity(j) && Has(c, q, j, b)
    {
      if b < Capacity(j) {
        LowNumber(b, l);
        DigitSmall(b, l);
      }
    }
    forall b: nat | b < Capacity(j) && Has(c, q, j, b) ensures b <= count {
      LowNumber(b, l);
      DigitSmall(b, l);
      assert Has(c, base, l, b);
    }
  }

  // ---------- many levels at once ----------

  ghost predicate SameBits(c: Words, base: nat, l: nat, c': Words, base': nat, l': nat)
    requires InBounds(c, base, l) && InBounds(c', base', l')
  {
    forall b: nat :: (b < Capacity(l) && Has(c, base, l, b)) <==> (b < Capacity(l') && Has(c', base', l', b))
  }

  ghost predicate Spine(c: Words, base: nat, n: nat)
    requires base + n <= |c|
  {
    forall k: nat | base <= k < base + n :: c[k] == {0}
  }

  /** A spine of n words {0} above a tree, all else zero: well formed, over the same set,
      exactly when there is no spine or the tree is not empty. */
  lemma {:induction false} Raised(c: Words, base: nat, l: nat, n: nat)
    requires n <= l && InBounds(c, base, l) && base + n + Size(l - n) <= base + Size(l)
    requires Spine(c, base, n) && WellFormed(c, base + n, l - n)
    requires AllEmpty(c, base + n + Size(l - n), base + Size(l))
    ensures WellFormed(c, base, l) <==> n == 0 || c[base + n] != {}
    ensures n == 0 || c[base + n] != {} ==> SameBits(c, base, l, c, base + n, l - n)
    decreases n
  {
    if n > 0 {
      ChildInside(base, l, 0);
      assert Child(base, l, 0) == base + 1;
      SpineFits(l - 1, n - 1);
      Raised(c, base + 1, l - 1, n - 1);
      if WellFormed(c, base + 1, l - 1) {
        RaisedOne(c, base, l);
      } else {
        assert !DigitOk(c, base, l, 0);
      }
    }
  }

  lemma {:induction false} SpineFits(l: nat, n: nat)
    requires n <= l
    ensures n + Size(l - n) <= Size(l)
  {
    if n > 0 {
      SpineFits(l - 1, n - 1);
    }
  }

  /** n levels down the first children, when every bit fits there. */
  lemma {:induction false} Lowered(c: Words, base: nat, l: nat, n: nat, count: nat)
    requires n <= l && InBounds(c, base, l) && WellFormed(c, base, l)
    requires count < Capacity(l - n) && UpTo(c, base, l, count)
    ensures InBounds(c, base + n, l - n) && WellFormed(c, base + n, l - n) && UpTo(c, base + n, l - n, count)
    ensures SameBits(c, base, l, c, base + n, l - n)
    decreases n
  {
    if n > 0 {
      CapacityMonotone(l - n, l - 1);
      LoweredOne(c, base, l, count);
      Lowered(c, base + 1, l - 1, n - 1, count);
    }
  }

  lemma {:induction false} CapacityMonotone(i: nat, l: nat)
    requires i <= l
    ensures Capacity(i) <= Capacity(l)
  {
    if i < l {
      CapacityMonotone(i, l - 1);
    }
  }

  // ---------- what level_bitmap_cpy leaves ----------

  // n words of c from `from` on, copied to `at`; zero from there to hi.
  ghost predicate Copied(c: Words, from: nat, c': Words, at: nat, n: nat, hi: nat) {
    && from + n <= |c| && at + n <= hi <= |c'|
    && (forall k: nat | at <= k < at + n :: c'[k] == c[from + (k - at)])
    && AllEmpty(c', at + n, hi)
  }

  lemma SlicesEqual(c: Words, from: nat, c': Words, at: nat, n: nat)
    requires from + n <= |c| && at + n <= |c'| && forall k: nat | at <= k < at + n :: c'[k] == c[from + (k - at)]
    ensures Moved(c, from, c', at, n)
  {
    var x, y := c'[at..at + n], c[from..from + n];
    forall i | 0 <= i < n ensures x[i] == y[i] {
      assert x[i] == c'[at + i];
    }
  }

  // Copying up to count's leaf moves the whole subtree.
  lemma CopiedMoves(c: Words, from: nat, c': Words, at: nat, l: nat, n: nat, hi: nat, count: nat)
    requires InBounds(c, from, l) && WellFormed(c, from, l) && count < Capacity(l) && UpTo(c, from, l, count)
    requires n == ShiftSum(count) + l + 1 && Copied(c, from, c', at, n, hi) && at + Size(l) <= hi
    ensures Moved(c, from, c', at, Size(l)) && WellFormed(c', at, l) && c'[at] == c[from]
    ensures SameBits(c, from, l, c', at, l)
  {
    TailEmpty(c, from, l, count);
    DownIsShiftSum(from, l, count);
    forall k: nat | at <= k < at + Size(l) ensures c'[k] == c[from + (k - at)] {
      assert k >= at + n ==> c[from + (k - at)] == {};
    }
    SlicesEqual(c, from, c', at, Size(l));
    MovedKeeps(c, from, c', at, l);
    forall b: nat | b < Capacity(l) ensures Has(c, from, l, b) == Has(c', at, l, b) {
      MovedHas(c, from, c', at, l, b);
    }
  }

  // The last leaf is the last word.
  lemma {:induction false} LastLeaf(l: nat)
    ensures ShiftSum(Capacity(l) - 1) + l + 1 == Size(l)
  {
    if l > 0 {
      LastLeaf(l - 1);
      SizeStep(l);
      ShiftSumStep(Capacity(l) - 1);
    } else {
      ShiftSumSmall(31);
    }
  }

  // The source's tree stands below the spine, and after it whatever lies past the source's words.
  lemma GrownPlaced(c: Words, l: nat, c': Words, m: nat, count: nat, n: nat, hi: nat)
    requires InBounds(c, 0, l) && WellFormed(c, 0, l) && UpTo(c, 0, l, count)
    requires n == ShiftSum(count) + l + 1 && Copied(c, 0, c', m, n, hi) && m + Size(l) <= hi
    ensures WellFormed(c', m, l) && c'[m] == c[0] && SameBits(c, 0, l, c', m, l)
    ensures AllEmpty(c', m + Size(l), hi) <==> AllEmpty(c, Size(l), n)
  {
    if count < Capacity(l) {
      PlacedInRange(c, l, c', m, count, n, hi);
    } else {
      LastLeaf(l);
      ShiftSumMonotone(Capacity(l) - 1, count);
      WholeMoves(c, c', m, l);
      JunkMoves(c, l, c', m, n, hi);
    }
  }

  lemma PlacedInRange(c: Words, l: nat, c': Words, m: nat, count: nat, n: nat, hi: nat)
    requires InBounds(c, 0, l) && WellFormed(c, 0, l) && UpTo(c, 0, l, count) && count < Capacity(l)
    requires n == ShiftSum(count) + l + 1 && Copied(c, 0, c', m, n, hi) && m + Size(l) <= hi
    ensures WellFormed(c', m, l) && c'[m] == c[0] && SameBits(c, 0, l, c', m, l)
    ensures n <= Size(l) && AllEmpty(c', m + Size(l), hi)
  {
    CopiedMoves(c, 0, c', m, l, n, hi, count);
    TailEmpty(c, 0, l, count);
    DownIsShiftSum(0, l, count);
  }

  lemma WholeMoves(c: Words, c': Words, m: nat, l: nat)
    requires InBounds(c, 0, l) && WellFormed(c, 0, l) && m + Size(l) <= |c'|
    requires forall k: nat | m <= k < m + Size(l) :: c'[k] == c[0 + (k - m)]
    ensures WellFormed(c', m, l) && c'[m] == c[0] && SameBits(c, 0, l, c', m, l)
  {
    SlicesEqual(c, 0, c', m, Size(l));
    MovedKeeps(c, 0, c', m, l);
    forall b: nat | b < Capacity(l) ensures Has(c, 0, l, b) == Has(c', m, l, b) {
      MovedHas(c, 0, c', m, l, b);
    }
  }

  lemma JunkMoves(c: Words, l: nat, c': Words, m: nat, n: nat, hi: nat)
    requires Size(l) <= n && Copied(c, 0, c', m, n, hi)
    ensures AllEmpty(c', m + Size(l), hi) <==> AllEmpty(c, Size(l), n)
  {
    if AllEmpty(c', m + Size(l), hi) {
      forall k: nat | Size(l) <= k < n ensures c[k] == {} {
        assert c'[m + k] == c[0 + (m + k - m)];
      }
    }
  }

  // A well-formed spine leaves the first children no brothers.
  lemma {:induction false} SpineAlone(c: Words, base: nat, l: nat, n: nat)
    requires 0 < n <= l && InBounds(c, base, l) && base + n + Size(l - n) <= base + Size(l)
    requires Spine(c, base, n) && WellFormed(c, base, l)
    ensures c[base + n] != {} && AllEmpty(c, base + n + Size(l - n), base + Size(l))
    decreases n
  {
    ChildInside(base, l, 0);
    assert DigitOk(c, base, l, 0) && Child(base, l, 0) == base + 1 && c[base] == {0};
    EmptyChildren(c, base, l, 1);
    assert Child(base, l, 1) == base + 1 + Size(l - 1);
    if n > 1 {
      SpineFits(l - 1, n - 1);
      SpineAlone(c, base + 1, l - 1, n - 1);
    }
  }

  // What level_bitmap_cpy leaves when it grows: a spine, n words of the source, zeros.
  ghost predicate GrownCopy(c: Words, l: nat, c': Words, l': nat, count: nat, n: nat) {
    && l < l' && InBounds(c, 0, l) && InBounds(c', 0, l') && WellFormed(c, 0, l) && UpTo(c, 0, l, count)
    && n == ShiftSum(count) + l + 1 && l' - l <= |c'| && Spine(c', 0, l' - l) && Copied(c, 0, c', l' - l, n, Size(l'))
  }

  /** Growing: the copy is consistent exactly when the source is not empty and the words copied from
      past its end, if count leads there, are zero. */
  lemma Grown(c: Words, l: nat, c': Words, l': nat, count: nat, n: nat)
    requires GrownCopy(c, l, c', l', count, n)
    ensures WellFormed(c', 0, l') <==> c[0] != {} && AllEmpty(c, Size(l), n)
  {
    SpineFits(l', l' - l);
    GrownPlaced(c, l, c', l' - l, count, n, Size(l'));
    SpineSound(c', l', l' - l);
  }

  /** And then it stands for the same set. */
  lemma GrownSame(c: Words, l: nat, c': Words, l': nat, count: nat, n: nat)
    requires GrownCopy(c, l, c', l', count, n) && WellFormed(c', 0, l')
    ensures SameBits(c, 0, l, c', 0, l')
  {
    SpineFits(l', l' - l);
    GrownPlaced(c, l, c', l' - l, count, n, Size(l'));
    SpineSound(c', l', l' - l);
    SameBitsJoin(c, l, c', l' - l, l');
  }

  lemma SameBitsJoin(c: Words, l: nat, c': Words, m: nat, l': nat)
    requires InBounds(c, 0, l) && InBounds(c', m, l) && InBounds(c', 0, l')
    requires SameBits(c, 0, l, c', m, l) && SameBits(c', 0, l', c', m, l)
    ensures SameBits(c, 0, l, c', 0, l')
  {
  }

  /** A spine of n words {0} above a tree is well formed exactly when the tree is not empty and has
      nothing beside it. */
  lemma SpineSound(c: Words, l: nat, n: nat)
    requires 0 < n <= l && InBounds(c, 0, l) && n + Size(l - n) <= Size(l)
    requires Spine(c, 0, n) && WellFormed(c, n, l - n)
    ensures WellFormed(c, 0, l) <==> c[n] != {} && AllEmpty(c, n + Size(l - n), Size(l))
    ensures WellFormed(c, 0, l) ==> SameBits(c, 0, l, c, n, l - n)
  {
    if AllEmpty(c, n + Size(l - n), Size(l)) {
      Raised(c, 0, l, n);
    } else if WellFormed(c, 0, l) {
      SpineAlone(c, 0, l, n);
      assert false;
    }
  }

  // What growing from level 0 to level 4 leaves of the words v and w.
  ghost function GrownFrom(v: set<nat>, w: set<nat>): (c: Words)
    ensures |c| == Size(4)
  {
    seq(Size(4), k => if k < 4 then {0} else if k == 4 then v else if k == 5 then w else {})
  }

  /** An input that fails: the descriptor table's first growth, of an empty bitmap of level 0 to
      level 4 with a count of 9, leaves ones above an empty word. */
  lemma GrowingEmptyBreaks()
    ensures var c, c' := [{}], GrownFrom({}, {});
      && WellFormed(c, 0, 0) && Spine(c', 0, 4) && Copied(c, 0, c', 4, ShiftSum(9) + 0 + 1, Size(4))
      && !WellFormed(c', 0, 4) && c'[0] != {}
  {
    var c: Words := [{}];
    var c' := GrownFrom({}, {});
    ShiftSumSmall(9);
    Grown(c, 0, c', 4, 9, 1);
  }

  /** Another: with a count of 40 the copy runs past the one word of the source, here {3}, and takes
      what follows it, here {5}, for a part of the set. */
  lemma GrowingPastRangeBreaks()
    ensures var c, c' := [{3}, {5}], GrownFrom({3}, {5});
      && WellFormed(c, 0, 0) && Spine(c', 0, 4) && Copied(c, 0, c', 4, ShiftSum(40) + 0 + 1, Size(4))
      && !WellFormed(c', 0, 4)
  {
    var c: Words := [{3}, {5}];
    var c' := GrownFrom({3}, {5});
    ShiftSumStep(40);
    ShiftSumSmall(1);
    assert UpTo(c, 0, 0, 40) by {
      assert Capacity(0) == 32;
    }
    assert c[1] != {};
    Grown(c, 0, c', 4, 40, 2);
  }

  /** Keeping the height or shrinking: always the same set. */
  lemma Shrunk(c: Words, l: nat, c': Words, l': nat, count: nat)
    requires l' <= l && InBounds(c, 0, l) && InBounds(c', 0, l') && WellFormed(c, 0, l)
    requires count < Capacity(l') && UpTo(c, 0, l, count)
    requires Copied(c, l - l', c', 0, ShiftSum(count) + l' + 1, Size(l'))
    ensures WellFormed(c', 0, l') && SameBits(c, 0, l, c', 0, l')
  {
    Lowered(c, 0, l, l - l', count);
    CopiedMoves(c, l - l', c', 0, l', ShiftSum(count) + l' + 1, Size(l'), count);
  }
}
