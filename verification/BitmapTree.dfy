/** The 32-ary summary tree of src/level_bitmap.c, laid out in preorder in one word array:
    a word, then the subtrees of its 32 bits.  Products and powers are written as recursive
    functions, so that the proofs need linear arithmetic only. */
module BitmapTree {
  type Words = seq<set<nat>>

  function Pow32(n: nat): (p: nat)
    ensures p > 0
  {
    if n == 0 then 1 else 32 * Pow32(n - 1)
  }

  // Words of a subtree of level l, and bits it can hold.
  function Size(l: nat): (s: nat)
    ensures s > 0
  {
    if l == 0 then 1 else 1 + 32 * Size(l - 1)
  }

  function Capacity(l: nat): nat { Pow32(l + 1) }

  // Words of d subtrees one level below l: d * Size(l - 1).
  function Skip(d: nat, l: nat): nat {
    if d == 0 || l == 0 then 0 else Skip(d - 1, l) + Size(l - 1)
  }

  lemma {:induction false} SkipIsProduct(d: nat, l: nat)
    requires l > 0
    ensures Skip(d, l) == d * Size(l - 1)
  {
    if d > 0 {
      SkipIsProduct(d - 1, l);
    }
  }

  lemma {:induction false} SkipMonotone(d: nat, e: nat, l: nat)
    requires l > 0 && d < e
    ensures Skip(d, l) + Size(l - 1) <= Skip(e, l)
  {
    if d + 1 < e {
      SkipMonotone(d, e - 1, l);
    }
  }

  lemma SkipAll(l: nat)
    requires l > 0
    ensures 1 + Skip(32, l) == Size(l)
  {
    SkipIsProduct(32, l);
  }

  // Where the subtree of bit d of the word at base starts; l is the level of that word.
  function Child(base: nat, l: nat, d: nat): nat
    requires l > 0
  {
    base + 1 + Skip(d, l)
  }

  lemma ChildInside(base: nat, l: nat, d: nat)
    requires l > 0 && d < 32
    ensures base < Child(base, l, d) && Child(base, l, d) + Size(l - 1) <= base + Size(l)
  {
    SkipMonotone(d, 32, l);
    SkipAll(l);
  }

  // Two different children share no word.
  lemma ChildrenApart(base: nat, l: nat, d: nat, e: nat)
    requires l > 0 && d != e
    ensures Child(base, l, d) + Size(l - 1) <= Child(base, l, e) || Child(base, l, e) + Size(l - 1) <= Child(base, l, d)
  {
    if d < e {
      SkipMonotone(d, e, l);
    } else {
      SkipMonotone(e, d, l);
    }
  }

  ghost predicate InBounds(c: Words, base: nat, l: nat) {
    base + Size(l) <= |c|
  }

  ghost predicate DigitOk(c: Words, base: nat, l: nat, d: nat)
    requires l > 0 && d < 32 && InBounds(c, base, l)
    decreases l, 0
  {
    ChildInside(base, l, d);
    (d in c[base] <==> c[Child(base, l, d)] != {}) && WellFormed(c, Child(base, l, d), l - 1)
  }

  /** An interior bit is one exactly when the word below it is not empty, all the way down. */
  ghost predicate WellFormed(c: Words, base: nat, l: nat)
    requires InBounds(c, base, l)
    decreases l, 1
  {
    && (forall d | d in c[base] :: d < 32)
    && (l > 0 ==> forall d: nat | d < 32 :: DigitOk(c, base, l, d))
  }

  // The leading digit of a bit number, b >> 5l, and what is left below it.
  function Digit(b: nat, l: nat): nat {
    if l == 0 then b else Digit(b / 32, l - 1)
  }

  function Rest(b: nat, l: nat): nat {
    if l == 0 then 0 else 32 * Rest(b / 32, l - 1) + b % 32
  }

  // d << 5l
  function Scale(d: nat, l: nat): nat {
    if l == 0 then d else 32 * Scale(d, l - 1)
  }

  lemma {:induction false} DigitSmall(b: nat, l: nat)
    ensures b < Capacity(l) <==> Digit(b, l) < 32
    ensures l > 0 ==> Rest(b, l) < Capacity(l - 1)
    ensures b == Scale(Digit(b, l), l) + Rest(b, l)
  {
    if l > 0 {
      DigitSmall(b / 32, l - 1);
      assert l == 1 ==> Rest(b / 32, 0) == 0;
    }
  }

  lemma {:induction false} Composed(d: nat, r: nat, l: nat)
    requires r < Pow32(l)
    ensures Digit(Scale(d, l) + r, l) == d && Rest(Scale(d, l) + r, l) == r
  {
    if l > 0 {
      Composed(d, r / 32, l - 1);
      assert (Scale(d, l) + r) / 32 == Scale(d, l - 1) + r / 32;
    }
  }

  /** Bit b is set in the subtree at base. */
  ghost predicate Has(c: Words, base: nat, l: nat, b: nat)
    requires InBounds(c, base, l) && b < Capacity(l)
    decreases l
  {
    if l == 0 then b in c[base]
    else
      DigitSmall(b, l);
      ChildInside(base, l, Digit(b, l));
      Has(c, Child(base, l, Digit(b, l)), l - 1, Rest(b, l))
  }

  // Words outside the subtree do not matter to it.
  ghost predicate SameOn(c: Words, c': Words, base: nat, n: nat) {
    base + n <= |c| && |c'| == |c| && forall k | base <= k < base + n :: c'[k] == c[k]
  }

  lemma {:induction false} SubtreeFrame(c: Words, c': Words, base: nat, l: nat)
    requires SameOn(c, c', base, Size(l)) && WellFormed(c, base, l)
    ensures WellFormed(c', base, l)
    decreases l
  {
    if l > 0 {
      forall d: nat | d < 32 ensures DigitOk(c', base, l, d) {
        ChildInside(base, l, d);
        assert DigitOk(c, base, l, d);
        SubtreeFrame(c, c', Child(base, l, d), l - 1);
      }
    }
  }

  lemma {:induction false} HasFrame(c: Words, c': Words, base: nat, l: nat, b: nat)
    requires SameOn(c, c', base, Size(l)) && b < Capacity(l)
    ensures Has(c', base, l, b) == Has(c, base, l, b)
    decreases l
  {
    if l > 0 {
      DigitSmall(b, l);
      ChildInside(base, l, Digit(b, l));
      HasFrame(c, c', Child(base, l, Digit(b, l)), l - 1, Rest(b, l));
    }
  }

  // ---------- emptiness ----------

  lemma {:induction false} EmptyHasNone(c: Words, base: nat, l: nat, b: nat)
    requires InBounds(c, base, l) && WellFormed(c, base, l) && c[base] == {} && b < Capacity(l)
    ensures !Has(c, base, l, b)
    decreases l
  {
    if l > 0 {
      DigitSmall(b, l);
      ChildInside(base, l, Digit(b, l));
      assert DigitOk(c, base, l, Digit(b, l));
      EmptyHasNone(c, Child(base, l, Digit(b, l)), l - 1, Rest(b, l));
    }
  }

  // Some bit of a non-empty subtree.
  lemma {:induction false} SomeBit(c: Words, base: nat, l: nat) returns (b: nat)
    requires InBounds(c, base, l) && WellFormed(c, base, l) && c[base] != {}
    ensures b < Capacity(l) && Has(c, base, l, b)
    decreases l
  {
    var d :| d in c[base];
    if l == 0 {
      b := d;
      DigitSmall(b, 0);
    } else {
      ChildInside(base, l, d);
      assert DigitOk(c, base, l, d);
      var r := SomeBit(c, Child(base, l, d), l - 1);
      b := Scale(d, l) + r;
      Composed(d, r, l);
      DigitSmall(b, l);
    }
  }

  ghost predicate NoBits(c: Words, base: nat, l: nat)
    requires InBounds(c, base, l)
  {
    forall b: nat | b < Capacity(l) :: !Has(c, base, l, b)
  }

  /** A subtree's first word is empty exactly when no bit is set in it. */
  lemma EmptyIffNoBits(c: Words, base: nat, l: nat)
    requires InBounds(c, base, l) && WellFormed(c, base, l)
    ensures c[base] == {} <==> NoBits(c, base, l)
  {
    if c[base] == {} {
      forall b: nat | b < Capacity(l) ensures !Has(c, base, l, b) {
        EmptyHasNone(c, base, l, b);
      }
    } else {
      var b := SomeBit(c, base, l);
      assert Has(c, base, l, b);
    }
  }

  // ---------- setting a bit ----------

  /** What the descent of level_bitmap_bit_set writes. */
  ghost function SetIn(c: Words, base: nat, l: nat, b: nat): (c': Words)
    requires InBounds(c, base, l) && b < Capacity(l)
    ensures |c'| == |c|
    decreases l
  {
    DigitSmall(b, l);
    var d := Digit(b, l);
    var c1 := c[base := c[base] + {d}];
    if l == 0 then c1
    else
      ChildInside(base, l, d);
      SetIn(c1, Child(base, l, d), l - 1, Rest(b, l))
  }

  lemma {:induction false} SetFrame(c: Words, base: nat, l: nat, b: nat)
    requires InBounds(c, base, l) && b < Capacity(l)
    ensures var c' := SetIn(c, base, l, b);
      (forall k | 0 <= k < |c| && !(base <= k < base + Size(l)) :: c'[k] == c[k]) && c'[base] == c[base] + {Digit(b, l)}
    decreases l
  {
    DigitSmall(b, l);
    if l > 0 {
      var d := Digit(b, l);
      ChildInside(base, l, d);
      SetFrame(c[base := c[base] + {d}], Child(base, l, d), l - 1, Rest(b, l));
    }
  }

  lemma {:induction false} SetKeeps(c: Words, base: nat, l: nat, b: nat)
    requires InBounds(c, base, l) && b < Capacity(l) && WellFormed(c, base, l)
    ensures WellFormed(SetIn(c, base, l, b), base, l)
    decreases l
  {
    DigitSmall(b, l);
    SetFrame(c, base, l, b);
    if l > 0 {
      var d, c' := Digit(b, l), SetIn(c, base, l, b);
      var c1 := c[base := c[base] + {d}];
      ChildInside(base, l, d);
      SetFrame(c1, Child(base, l, d), l - 1, Rest(b, l));
      forall e: nat | e < 32 ensures DigitOk(c', base, l, e) {
        ChildInside(base, l, e);
        assert DigitOk(c, base, l, e);
        SubtreeFrame(c, c1, Child(base, l, e), l - 1);
        if e == d {
          SetKeeps(c1, Child(base, l, d), l - 1, Rest(b, l));
        } else {
          ChildrenApart(base, l, d, e);
          SubtreeFrame(c1, c', Child(base, l, e), l - 1);
        }
      }
    }
  }

  lemma {:induction false} SetHas(c: Words, base: nat, l: nat, b: nat, b': nat)
    requires InBounds(c, base, l) && b < Capacity(l) && b' < Capacity(l)
    ensures Has(SetIn(c, base, l, b), base, l, b') <==> b' == b || Has(c, base, l, b')
    decreases l
  {
    DigitSmall(b, l);
    DigitSmall(b', l);
    if l > 0 {
      var d, e := Digit(b, l), Digit(b', l);
      var c1 := c[base := c[base] + {d}];
      ChildInside(base, l, d);
      ChildInside(base, l, e);
      HasFrame(c, c1, Child(base, l, e), l - 1, Rest(b', l));
      SetFrame(c1, Child(base, l, d), l - 1, Rest(b, l));
      if d == e {
        SetHas(c1, Child(base, l, d), l - 1, Rest(b, l), Rest(b', l));
      } else {
        ChildrenApart(base, l, d, e);
        HasFrame(c1, SetIn(c, base, l, b), Child(base, l, e), l - 1, Rest(b', l));
      }
    }
  }

  // ---------- clearing a bit ----------

  /** What the climb of level_bitmap_bit_clear leaves: an ancestor's bit goes exactly when
      the word below it became empty. */
  ghost function ClearIn(c: Words, base: nat, l: nat, b: nat): (c': Words)
    requires InBounds(c, base, l) && b < Capacity(l)
    ensures |c'| == |c|
    decreases l
  {
    DigitSmall(b, l);
    var d := Digit(b, l);
    if l == 0 then c[base := c[base] - {d}]
    else
      ChildInside(base, l, d);
      var c1 := ClearIn(c, Child(base, l, d), l - 1, Rest(b, l));
      if c1[Child(base, l, d)] == {} then c1[base := c1[base] - {d}] else c1
  }

  lemma {:induction false} ClearFrame(c: Words, base: nat, l: nat, b: nat)
    requires InBounds(c, base, l) && b < Capacity(l)
    ensures forall k | 0 <= k < |c| && !(base <= k < base + Size(l)) :: ClearIn(c, base, l, b)[k] == c[k]
    decreases l
  {
    if l > 0 {
      DigitSmall(b, l);
      ChildInside(base, l, Digit(b, l));
      ClearFrame(c, Child(base, l, Digit(b, l)), l - 1, Rest(b, l));
    }
  }

  lemma {:induction false} ClearKeeps(c: Words, base: nat, l: nat, b: nat)
    requires InBounds(c, base, l) && b < Capacity(l) && WellFormed(c, base, l)
    ensures WellFormed(ClearIn(c, base, l, b), base, l)
    ensures c[base] == {} ==> ClearIn(c, base, l, b)[base] == {}
    decreases l
  {
    if l > 0 {
      DigitSmall(b, l);
      var d, c' := Digit(b, l), ClearIn(c, base, l, b);
      ChildInside(base, l, d);
      var c1 := ClearIn(c, Child(base, l, d), l - 1, Rest(b, l));
      ClearFrame(c, Child(base, l, d), l - 1, Rest(b, l));
      assert DigitOk(c, base, l, d);
      ClearKeeps(c, Child(base, l, d), l - 1, Rest(b, l));
      forall e: nat | e < 32 ensures DigitOk(c', base, l, e) {
        ChildInside(base, l, e);
        assert DigitOk(c, base, l, e);
        if e != d {
          ChildrenApart(base, l, d, e);
          SubtreeFrame(c, c1, Child(base, l, e), l - 1);
        }
        ClearedDigit(c, c1, base, l, d, e);
      }
    }
  }

  // The digit d goes when its word is empty; no other digit and no subtree changes.
  lemma ClearedDigit(c: Words, c1: Words, base: nat, l: nat, d: nat, e: nat)
    requires l > 0 && d < 32 && e < 32 && InBounds(c, base, l) && |c1| == |c| && c1[base] == c[base]
    requires Child(base, l, e) < |c| && Child(base, l, d) < |c| && InBounds(c1, Child(base, l, e), l - 1)
    requires e != d ==> c1[Child(base, l, e)] == c[Child(base, l, e)]
    requires e == d && e !in c[base] ==> c1[Child(base, l, e)] == {}
    requires DigitOk(c, base, l, e) && WellFormed(c1, Child(base, l, e), l - 1)
    ensures var c' := if c1[Child(base, l, d)] == {} then c1[base := c1[base] - {d}] else c1;
      DigitOk(c', base, l, e)
  {
    ChildInside(base, l, e);
    var c' := if c1[Child(base, l, d)] == {} then c1[base := c1[base] - {d}] else c1;
    SubtreeFrame(c1, c', Child(base, l, e), l - 1);
  }

  lemma {:induction false} ClearHas(c: Words, base: nat, l: nat, b: nat, b': nat)
    requires InBounds(c, base, l) && b < Capacity(l) && b' < Capacity(l)
    ensures Has(ClearIn(c, base, l, b), base, l, b') <==> b' != b && Has(c, base, l, b')
    decreases l
  {
    DigitSmall(b, l);
    DigitSmall(b', l);
    if l > 0 {
      var d, e := Digit(b, l), Digit(b', l);
      ChildInside(base, l, d);
      ChildInside(base, l, e);
      var c1 := ClearIn(c, Child(base, l, d), l - 1, Rest(b, l));
      ClearFrame(c, Child(base, l, d), l - 1, Rest(b, l));
      HasFrame(c1, ClearIn(c, base, l, b), Child(base, l, e), l - 1, Rest(b', l));
      if d == e {
        ClearHas(c, Child(base, l, d), l - 1, Rest(b, l), Rest(b', l));
      } else {
        ChildrenApart(base, l, d, e);
        HasFrame(c, c1, Child(base, l, e), l - 1, Rest(b', l));
      }
    }
  }

  // ---------- addresses ----------

  // The word the descent for b ends at.
  function Down(base: nat, l: nat, b: nat): nat
    decreases l
  {
    if l == 0 then base else Down(Child(base, l, Digit(b, l)), l - 1, Rest(b, l))
  }

  // The ancestor of that word at level i.
  function Ancestor(base: nat, l: nat, b: nat, i: nat): nat
    requires i <= l
    decreases l
  {
    if i == l then base else Ancestor(Child(base, l, Digit(b, l)), l - 1, Rest(b, l), i)
  }

  // The sum of b >> 5k over k >= 1, as test and clear compute it.
  function ShiftSum(b: nat): nat {
    if b == 0 then 0 else b / 32 + ShiftSum(b / 32)
  }

  lemma {:induction false} ScaleStep(d: nat, l: nat)
    ensures Scale(d + 1, l) == Scale(d, l) + Pow32(l)
  {
    if l > 0 {
      ScaleStep(d, l - 1);
    }
  }

  lemma {:induction false} SizeStep(l: nat)
    requires l > 0
    ensures Size(l) == Pow32(l) + Size(l - 1)
  {
    if l > 1 {
      SizeStep(l - 1);
    }
  }

  lemma {:induction false} ScaleAndSkip(d: nat, l: nat)
    requires l > 0
    ensures Scale(d, l - 1) + Skip(d, l - 1) == Skip(d, l)
  {
    if d == 0 {
      ScaleZero(l - 1);
    } else {
      ScaleAndSkip(d - 1, l);
      ScaleStep(d - 1, l - 1);
      if l > 1 {
        SizeStep(l - 1);
      }
    }
  }

  lemma {:induction false} ScaleZero(l: nat)
    ensures Scale(0, l) == 0
  {
    if l > 0 {
      ScaleZero(l - 1);
    }
  }

  lemma ShiftSumStep(b: nat)
    ensures ShiftSum(b) == b / 32 + ShiftSum(b / 32)
  {
  }

  lemma ShiftSumSmall(b: nat)
    requires b < 32
    ensures ShiftSum(b) == 0
  {
    assert ShiftSum(0) == 0;
  }

  lemma {:induction false} ShiftSumSplits(b: nat, l: nat)
    requires l > 0 && b < Capacity(l)
    ensures ShiftSum(b) == Skip(Digit(b, l), l) + ShiftSum(Rest(b, l))
  {
    var b' := b / 32;
    ShiftSumStep(b);
    ShiftSumStep(Rest(b, l));
    assert Rest(b, l) / 32 == Rest(b', l - 1);
    DigitSmall(b', l - 1);
    ScaleAndSkip(Digit(b', l - 1), l);
    if l > 1 {
      ShiftSumSplits(b', l - 1);
    } else {
      ShiftSumSmall(b');
      ShiftSumSmall(Rest(b, l));
    }
  }

  /** The descent and the sum of shifts reach the same word. */
  lemma {:induction false} DownIsShiftSum(base: nat, l: nat, b: nat)
    requires b < Capacity(l)
    ensures Down(base, l, b) == base + ShiftSum(b) + l
    decreases l
  {
    DigitSmall(b, l);
    if l == 0 {
      ShiftSumSmall(b);
    } else {
      ShiftSumSplits(b, l);
      DownIsShiftSum(Child(base, l, Digit(b, l)), l - 1, Rest(b, l));
    }
  }

  lemma {:induction false} DownInside(base: nat, l: nat, b: nat)
    requires b < Capacity(l)
    ensures base <= Down(base, l, b) < base + Size(l)
    decreases l
  {
    DigitSmall(b, l);
    if l > 0 {
      ChildInside(base, l, Digit(b, l));
      DownInside(Child(base, l, Digit(b, l)), l - 1, Rest(b, l));
    }
  }

  // The digit of b at level i.
  function DigitAt(b: nat, i: nat): nat { Digit(b, i) % 32 }

  lemma {:induction false} RestDigits(b: nat, l: nat, i: nat)
    requires i < l
    ensures Digit(Rest(b, l), i) % 32 == Digit(b, i) % 32 && Rest(Rest(b, l), i) == Rest(b, i)
    ensures i + 1 < l || Digit(Rest(b, l), i) < 32
    decreases i
  {
    if i == 0 {
      assert Rest(b, l) % 32 == b % 32;
      if l == 1 {
        assert Rest(b, 1) == 32 * Rest(b / 32, 0) + b % 32;
      }
    } else {
      assert Rest(b, l) / 32 == Rest(b / 32, l - 1);
      RestDigits(b / 32, l - 1, i - 1);
      assert Rest(b, l) % 32 == b % 32;
    }
  }

  lemma {:induction false} AncestorLeaf(base: nat, l: nat, b: nat)
    ensures Ancestor(base, l, b, 0) == Down(base, l, b)
    decreases l
  {
    if l > 0 {
      AncestorLeaf(Child(base, l, Digit(b, l)), l - 1, Rest(b, l));
    }
  }

  /** The climb of level_bitmap_bit_clear meets exactly the words the descent went through:
      from the ancestor at level i it steps back over the earlier siblings to the one at i + 1. */
  lemma {:induction false} ClimbStep(base: nat, l: nat, b: nat, i: nat)
    requires i < l && b < Capacity(l)
    ensures Ancestor(base, l, b, i) == Child(Ancestor(base, l, b, i + 1), i + 1, DigitAt(b, i + 1))
    decreases l
  {
    DigitSmall(b, l);
    if i + 1 < l {
      ClimbStep(Child(base, l, Digit(b, l)), l - 1, Rest(b, l), i);
      RestDigits(b, l, i + 1);
    }
  }

  lemma {:induction false} ShiftSumMonotone(b: nat, b': nat)
    requires b <= b'
    ensures ShiftSum(b) <= ShiftSum(b')
  {
    if b < b' {
      ShiftSumMonotone(b / 32, b' / 32);
      ShiftSumStep(b);
      ShiftSumStep(b');
    }
  }

  // ---------- every node has its own word ----------

  // An ancestor's subtree lies inside the tree.
  lemma {:induction false} AncestorInside(base: nat, l: nat, b: nat, i: nat)
    requires b < Capacity(l) && i <= l
    ensures base <= Ancestor(base, l, b, i) && Ancestor(base, l, b, i) + Size(i) <= base + Size(l)
    ensures i < l ==> base < Ancestor(base, l, b, i)
    decreases l
  {
    if i < l {
      DigitSmall(b, l);
      ChildInside(base, l, Digit(b, l));
      AncestorInside(Child(base, l, Digit(b, l)), l - 1, Rest(b, l), i);
    }
  }

  // The digits of b from level j on, put together again.
  lemma {:induction false} DigitSplits(b: nat, l: nat, j: nat)
    requires j <= l
    ensures Digit(b, j) == Scale(Digit(b, l), l - j) + Digit(Rest(b, l), j)
    decreases j
  {
    if j == 0 {
      DigitSmall(b, l);
    } else {
      DigitSplits(b / 32, l - 1, j - 1);
      assert Rest(b, l) / 32 == Rest(b / 32, l - 1);
    }
  }

  // Numbers that agree down to level i + 1 agree above it.
  lemma {:induction false} DigitsAbove(b: nat, b': nat, i: nat, l: nat)
    requires i <= l && Digit(b, i) == Digit(b', i)
    ensures Digit(b, l) == Digit(b', l)
    decreases l
  {
    if i < l {
      DigitsAbove(b, b', i, l - 1);
      DigitStep(b, l - 1);
      DigitStep(b', l - 1);
    }
  }

  lemma {:induction false} DigitStep(b: nat, i: nat)
    ensures Digit(b, i) / 32 == Digit(b, i + 1)
  {
    if i > 0 {
      DigitStep(b / 32, i - 1);
    }
  }

  lemma TopDigitGone(b: nat, l: nat)
    requires b < Capacity(l)
    ensures Digit(b, l + 1) == 0
  {
    DigitSmall(b, l);
    DigitStep(b, l);
  }

  /** Distinct nodes have distinct words: the word met at level i on the way to b is the one met at
      level i' on the way to b' exactly when the two are the same node of the tree. */
  lemma {:induction false} NodesApart(base: nat, l: nat, b: nat, i: nat, b': nat, i': nat)
    requires b < Capacity(l) && b' < Capacity(l) && i <= l && i' <= l
    ensures Ancestor(base, l, b, i) == Ancestor(base, l, b', i') <==> i == i' && Digit(b, i + 1) == Digit(b', i' + 1)
    decreases l
  {
    AncestorInside(base, l, b, i);
    AncestorInside(base, l, b', i');
    TopDigitGone(b, l);
    TopDigitGone(b', l);
    if i < l && i' < l {
      DigitSmall(b, l);
      DigitSmall(b', l);
      if Digit(b, l) == Digit(b', l) {
        NodesApart(Child(base, l, Digit(b, l)), l - 1, Rest(b, l), i, Rest(b', l), i');
        DigitSplits(b, l, i + 1);
        DigitSplits(b', l, i' + 1);
      } else {
        SubtreesApart(base, l, b, i, b', i');
        if i == i' && Digit(b, i + 1) == Digit(b', i + 1) {
          DigitsAbove(b, b', i + 1, l);
          assert false;
        }
      }
    }
  }

  lemma SubtreesApart(base: nat, l: nat, b: nat, i: nat, b': nat, i': nat)
    requires b < Capacity(l) && b' < Capacity(l) && i < l && i' < l && Digit(b, l) != Digit(b', l)
    ensures Ancestor(base, l, b, i) != Ancestor(base, l, b', i')
  {
    DigitSmall(b, l);
    DigitSmall(b', l);
    AncestorInside(Child(base, l, Digit(b, l)), l - 1, Rest(b, l), i);
    AncestorInside(Child(base, l, Digit(b', l)), l - 1, Rest(b', l), i');
    ChildrenApart(base, l, Digit(b, l), Digit(b', l));
  }
}
