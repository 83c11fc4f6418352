/** src/level_bitmap.c over real 32-bit words. */
module LevelBitmap {
  import opened Words
  import T = BitmapTree
  import S = BitmapSearch
  import C = BitmapCopy

  // level_jump_sizes; the last entry overflows to 0 in the source's 32-bit arithmetic.
  const JUMP: seq<nat> := [0, 1, 33, 1057, 33825, 1082401, 34636833, 0]
  const SSIZE_LIMIT: nat := 0x8000_0000

  lemma JumpIsSize(i: nat)
    requires 0 < i <= 6
    ensures JUMP[i] == T.Size(i - 1)
  {
    assert T.Size(0) == 1;
    assert T.Size(1) == 33;
    assert T.Size(2) == 1057;
    assert T.Size(3) == 33825;
    assert T.Size(4) == 1082401;
    assert T.Size(5) == 34636833;
  }

  // npos * level_jump_sizes[i] + 1
  lemma JumpIsChild(p: nat, i: nat, d: nat)
    requires 0 < i <= 6
    ensures p + d * JUMP[i] + 1 == T.Child(p, i, d)
  {
    JumpIsSize(i);
    T.SkipIsProduct(d, i);
  }

  // What is left of bit once the digits above level i are dropped.
  function Low(bit: nat, i: nat): nat { T.Rest(bit, i + 1) }

  lemma {:induction false} RestWhole(bit: nat, l: nat)
    requires bit < T.Pow32(l)
    ensures T.Rest(bit, l) == bit
  {
    if l > 0 {
      RestWhole(bit / 32, l - 1);
    }
  }

  lemma LowStep(bit: nat, i: nat)
    ensures Low(bit, i) < T.Capacity(i)
    ensures T.Digit(Low(bit, i), i) == T.DigitAt(bit, i)
    ensures i > 0 ==> T.Rest(Low(bit, i), i) == Low(bit, i - 1)
  {
    T.DigitSmall(bit, i + 1);
    T.RestDigits(bit, i + 1, i);
  }

  // A bit is set when its last digit is in its leaf word.
  lemma {:induction false} HasDown(c: T.Words, base: nat, l: nat, b: nat)
    requires T.InBounds(c, base, l) && b < T.Capacity(l)
    ensures base <= T.Down(base, l, b) < base + T.Size(l)
    ensures T.Has(c, base, l, b) <==> b % 32 in c[T.Down(base, l, b)]
    decreases l
  {
    T.DownInside(base, l, b);
    if l > 0 {
      T.DigitSmall(b, l);
      T.ChildInside(base, l, T.Digit(b, l));
      HasDown(c, T.Child(base, l, T.Digit(b, l)), l - 1, T.Rest(b, l));
      RestLast(b, l);
    }
  }

  lemma RestLast(b: nat, l: nat)
    requires l > 0
    ensures T.Rest(b, l) % 32 == b % 32
  {
  }

  lemma {:induction false} AncestorOk(c: T.Words, base: nat, l: nat, b: nat, i: nat)
    requires T.InBounds(c, base, l) && T.WellFormed(c, base, l) && b < T.Capacity(l) && i <= l
    ensures T.InBounds(c, T.Ancestor(base, l, b, i), i) && T.WellFormed(c, T.Ancestor(base, l, b, i), i)
    decreases l
  {
    if i < l {
      T.DigitSmall(b, l);
      T.ChildInside(base, l, T.Digit(b, l));
      assert T.DigitOk(c, base, l, T.Digit(b, l));
      AncestorOk(c, T.Child(base, l, T.Digit(b, l)), l - 1, T.Rest(b, l), i);
    }
  }

  /** Once a word stays non-empty the climb may stop: no ancestor's bit changes. */
  lemma {:induction false} EarlyStop(c: T.Words, l: nat, bit: nat, j: nat, i: nat)
    requires T.InBounds(c, 0, l) && T.WellFormed(c, 0, l) && bit < T.Capacity(l) && j <= i <= l
    requires var q := T.Ancestor(0, l, bit, j);
      T.InBounds(c, q, j) && Low(bit, j) < T.Capacity(j) && (j < l ==> T.ClearIn(c, q, j, Low(bit, j))[q] != {})
    ensures var q, p := T.Ancestor(0, l, bit, j), T.Ancestor(0, l, bit, i);
      && T.InBounds(c, p, i) && Low(bit, i) < T.Capacity(i)
      && T.ClearIn(c, p, i, Low(bit, i)) == T.ClearIn(c, q, j, Low(bit, j))
      && (i < l ==> T.ClearIn(c, p, i, Low(bit, i))[p] != {})
    decreases i
  {
    AncestorOk(c, 0, l, bit, i);
    LowStep(bit, i);
    if j < i {
      EarlyStop(c, l, bit, j, i - 1);
      AncestorOk(c, 0, l, bit, i - 1);
      T.ClimbStep(0, l, bit, i - 1);
      NotEmptied(c, T.Ancestor(0, l, bit, i), i, Low(bit, i));
    }
  }

  // A subtree that keeps a bit below its digit d changes nothing above.
  lemma NotEmptied(c: T.Words, p: nat, i: nat, b: nat)
    requires i > 0 && T.InBounds(c, p, i) && T.WellFormed(c, p, i) && b < T.Capacity(i)
    requires var r := T.Child(p, i, T.Digit(b, i));
      T.InBounds(c, r, i - 1) && T.Rest(b, i) < T.Capacity(i - 1) && T.ClearIn(c, r, i - 1, T.Rest(b, i))[r] != {}
    ensures T.ClearIn(c, p, i, b) == T.ClearIn(c, T.Child(p, i, T.Digit(b, i)), i - 1, T.Rest(b, i))
    ensures T.ClearIn(c, p, i, b)[p] != {}
  {
    var d := T.Digit(b, i);
    T.DigitSmall(b, i);
    T.ChildInside(p, i, d);
    assert T.DigitOk(c, p, i, d);
    T.ClearKeeps(c, T.Child(p, i, d), i - 1, T.Rest(b, i));
    T.ClearFrame(c, T.Child(p, i, d), i - 1, T.Rest(b, i));
  }

  ghost function Members(c: T.Words, l: nat): set<nat>
    requires T.InBounds(c, 0, l)
  {
    set b: nat | b < T.Capacity(l) && T.Has(c, 0, l, b)
  }

  lemma SetMembers(c: T.Words, l: nat, bit: nat)
    requires T.InBounds(c, 0, l) && T.WellFormed(c, 0, l) && bit < T.Capacity(l)
    ensures T.WellFormed(T.SetIn(c, 0, l, bit), 0, l)
    ensures Members(T.SetIn(c, 0, l, bit), l) == Members(c, l) + {bit}
  {
    T.SetKeeps(c, 0, l, bit);
    forall b: nat | b < T.Capacity(l)
      ensures b in Members(T.SetIn(c, 0, l, bit), l) <==> b in Members(c, l) + {bit}
    {
      T.SetHas(c, 0, l, bit, b);
    }
  }

  lemma ClearMembers(c: T.Words, l: nat, bit: nat)
    requires T.InBounds(c, 0, l) && T.WellFormed(c, 0, l) && bit < T.Capacity(l)
    ensures T.WellFormed(T.ClearIn(c, 0, l, bit), 0, l)
    ensures Members(T.ClearIn(c, 0, l, bit), l) == Members(c, l) - {bit}
  {
    T.ClearKeeps(c, 0, l, bit);
    forall b: nat | b < T.Capacity(l)
      ensures b in Members(T.ClearIn(c, 0, l, bit), l) <==> b in Members(c, l) - {bit}
    {
      T.ClearHas(c, 0, l, bit, b);
    }
  }

  lemma MemberBit(c: T.Words, l: nat, bit: nat)
    requires T.InBounds(c, 0, l) && bit < T.Capacity(l)
    ensures T.ShiftSum(bit) + l < T.Size(l)
    ensures bit in Members(c, l) <==> bit % 32 in c[T.ShiftSum(bit) + l]
  {
    HasDown(c, 0, l, bit);
    T.DownIsShiftSum(0, l, bit);
  }

  // One step of the descent of bit_set at a word of level i.
  lemma SetStep(c: T.Words, p: nat, i: nat, bit: nat)
    requires 0 < i && T.InBounds(c, p, i)
    ensures var d, low := T.DigitAt(bit, i), Low(bit, i);
      var q := T.Child(p, i, d);
      && d < 32 && low < T.Capacity(i) && Low(bit, i - 1) < T.Capacity(i - 1) && p < q && T.InBounds(c, q, i - 1)
      && T.SetIn(c, p, i, low) == T.SetIn(c[p := c[p] + {d}], q, i - 1, Low(bit, i - 1))
      && T.Down(p, i, low) == T.Down(q, i - 1, Low(bit, i - 1))
  {
    LowStep(bit, i);
    LowStep(bit, i - 1);
    T.ChildInside(p, i, T.DigitAt(bit, i));
  }

  // Between two steps of that descent: what is left to write from p on completes the whole.
  ghost predicate Descending(c0: T.Words, l: nat, bit: nat, c: T.Words, p: nat, i: nat) {
    && |c| == |c0| && i <= l && T.InBounds(c0, 0, l) && bit < T.Capacity(l)
    && T.InBounds(c, p, i) && Low(bit, i) < T.Capacity(i)
    && T.SetIn(c, p, i, Low(bit, i)) == T.SetIn(c0, 0, l, bit)
    && T.Down(p, i, Low(bit, i)) == T.Down(0, l, bit)
    && (forall k | p <= k < |c| :: c[k] == c0[k])
  }

  lemma DescentStarts(c: T.Words, l: nat, bit: nat)
    requires T.InBounds(c, 0, l) && bit < T.Capacity(l)
    ensures Descending(c, l, bit, c, 0, l)
  {
    RestWhole(bit, l + 1);
  }

  lemma DescentStep(c0: T.Words, l: nat, bit: nat, c: T.Words, p: nat, i: nat)
    requires Descending(c0, l, bit, c, p, i) && 0 < i
    ensures p < |c| && T.DigitAt(bit, i) < 32
    ensures Descending(c0, l, bit, c[p := c[p] + {T.DigitAt(bit, i)}], T.Child(p, i, T.DigitAt(bit, i)), i - 1)
  {
    SetStep(c, p, i, bit);
  }

  lemma DescentEnds(c0: T.Words, l: nat, bit: nat, c: T.Words, p: nat)
    requires Descending(c0, l, bit, c, p, 0)
    ensures p < |c| && p == T.Down(0, l, bit) && c[p] == c0[p]
    ensures c[p := c[p] + {bit % 32}] == T.SetIn(c0, 0, l, bit)
  {
    LowStep(bit, 0);
    assert T.Digit(Low(bit, 0), 0) == bit % 32;
  }

  // The words when that descent has come to level i.
  ghost function Marked(c0: T.Words, l: nat, bit: nat, i: nat): (c: T.Words)
    requires i <= l && T.InBounds(c0, 0, l) && bit < T.Capacity(l)
    ensures |c| == |c0|
    decreases l - i
  {
    if i == l then c0
    else
      T.AncestorInside(0, l, bit, i + 1);
      var c, p := Marked(c0, l, bit, i + 1), T.Ancestor(0, l, bit, i + 1);
      c[p := c[p] + {T.DigitAt(bit, i + 1)}]
  }

  lemma {:induction false} MarkedDescends(c0: T.Words, l: nat, bit: nat, i: nat)
    requires i <= l && T.InBounds(c0, 0, l) && bit < T.Capacity(l)
    ensures Descending(c0, l, bit, Marked(c0, l, bit, i), T.Ancestor(0, l, bit, i), i)
    decreases l - i
  {
    if i == l {
      DescentStarts(c0, l, bit);
    } else {
      MarkedDescends(c0, l, bit, i + 1);
      DescentStep(c0, l, bit, Marked(c0, l, bit, i + 1), T.Ancestor(0, l, bit, i + 1), i + 1);
      T.ClimbStep(0, l, bit, i);
    }
  }

  lemma MarkedEnds(c0: T.Words, l: nat, bit: nat)
    requires T.InBounds(c0, 0, l) && bit < T.Capacity(l)
    ensures var c, p := Marked(c0, l, bit, 0), T.Ancestor(0, l, bit, 0);
      && p < |c| && p == T.Down(0, l, bit) && c[p] == c0[p]
      && c[p := c[p] + {bit % 32}] == T.SetIn(c0, 0, l, bit)
  {
    MarkedDescends(c0, l, bit, 0);
    DescentEnds(c0, l, bit, Marked(c0, l, bit, 0), T.Ancestor(0, l, bit, 0));
  }

  // While bit_clear climbs: the subtree of the ancestor p at level i is as ClearIn leaves it.
  ghost predicate Climbing(c0: T.Words, l: nat, bit: nat, c: T.Words, p: nat, i: nat) {
    && i <= l && T.InBounds(c0, 0, l) && T.WellFormed(c0, 0, l) && bit < T.Capacity(l)
    && p == T.Ancestor(0, l, bit, i) && T.InBounds(c0, p, i) && Low(bit, i) < T.Capacity(i)
    && c == T.ClearIn(c0, p, i, Low(bit, i))
  }

  lemma ClimbStarts(c: T.Words, l: nat, bit: nat)
    requires T.InBounds(c, 0, l) && T.WellFormed(c, 0, l) && bit < T.Capacity(l)
    ensures var p := T.ShiftSum(bit) + l;
      p < |c| && Climbing(c, l, bit, c[p := c[p] - {bit % 32}], p, 0)
  {
    AncestorOk(c, 0, l, bit, 0);
    T.AncestorLeaf(0, l, bit);
    T.DownIsShiftSum(0, l, bit);
    LowStep(bit, 0);
    assert T.Digit(Low(bit, 0), 0) == bit % 32;
  }

  lemma ClearAbove(c: T.Words, q: nat, i: nat, b: nat, p: nat)
    requires 0 < i && T.InBounds(c, q, i) && b < T.Capacity(i) && p == T.Child(q, i, T.Digit(b, i))
    requires T.InBounds(c, p, i - 1) && T.Rest(b, i) < T.Capacity(i - 1)
    requires var c1 := T.ClearIn(c, p, i - 1, T.Rest(b, i)); p < |c| && c1[p] == {}
    ensures var c1 := T.ClearIn(c, p, i - 1, T.Rest(b, i));
      T.ClearIn(c, q, i, b) == c1[q := c1[q] - {T.Digit(b, i)}]
  {
  }

  // One step up, to q, when the word p has become empty.
  lemma ClimbUp(c0: T.Words, l: nat, bit: nat, c: T.Words, p: nat, i: nat)
    requires Climbing(c0, l, bit, c, p, i) && i < l && p < |c| && c[p] == {}
    ensures var d, q := T.DigitAt(bit, i + 1), T.Ancestor(0, l, bit, i + 1);
      && d < 32 && p == T.Child(q, i + 1, d) && q < |c|
      && Climbing(c0, l, bit, c[q := c[q] - {d}], q, i + 1)
  {
    T.ClimbStep(0, l, bit, i);
    InsideAncestor(c0, l, bit, i + 1);
    ClearAbove(c0, T.Ancestor(0, l, bit, i + 1), i + 1, Low(bit, i + 1), p);
  }

  lemma InsideAncestor(c: T.Words, l: nat, bit: nat, i: nat)
    requires T.InBounds(c, 0, l) && T.WellFormed(c, 0, l) && bit < T.Capacity(l) && 0 < i <= l
    ensures T.InBounds(c, T.Ancestor(0, l, bit, i), i) && Low(bit, i) < T.Capacity(i)
    ensures T.Digit(Low(bit, i), i) == T.DigitAt(bit, i) && T.Rest(Low(bit, i), i) == Low(bit, i - 1)
  {
    AncestorOk(c, 0, l, bit, i);
    LowStep(bit, i);
  }

  lemma ClimbEnds(c0: T.Words, l: nat, bit: nat, c: T.Words, p: nat, i: nat)
    requires Climbing(c0, l, bit, c, p, i) && p < |c| && (i == l || c[p] != {})
    ensures c == T.ClearIn(c0, 0, l, bit)
  {
    EarlyStop(c0, l, bit, i, l);
    RestWhole(bit, l + 1);
  }

  // While get_min or get_max descends: p of level i holds the bits from v on, v being rs << 5i.
  ghost predicate Searching(c: T.Words, l: nat, p: nat, i: nat, rs: nat) {
    && T.InBounds(c, 0, l) && T.InBounds(c, p, i) && T.WellFormed(c, p, i) && c[p] != {} && i <= l
    && S.Window(c, l, p, i, T.Scale(rs, i))
  }

  lemma SearchStarts(c: T.Words, l: nat)
    requires T.InBounds(c, 0, l) && T.WellFormed(c, 0, l) && c[0] != {}
    ensures Searching(c, l, 0, l, 0) && T.Scale(0, l) == 0
  {
    T.ScaleZero(l);
  }

  lemma SearchStep(c: T.Words, l: nat, p: nat, i: nat, rs: nat, d: nat)
    requires Searching(c, l, p, i, rs) && 0 < i && d in c[p]
    ensures Searching(c, l, T.Child(p, i, d), i - 1, 32 * (rs + d))
    ensures T.Scale(32 * (rs + d), i - 1) == T.Scale(rs, i) + T.Scale(d, i)
  {
    S.ChildWindow(c, l, p, i, T.Scale(rs, i), d);
    S.ScaleAdd(rs, d, i);
    S.ScaleShift(rs + d, i);
  }

  // Results are ssize_t.
  ghost predicate AllFit(s: set<nat>) {
    forall b | b in s :: b < SSIZE_LIMIT
  }

  // The number built so far never exceeds a set bit, so no shift overflows.
  lemma SearchFits(c: T.Words, l: nat, p: nat, i: nat, rs: nat)
    requires Searching(c, l, p, i, rs) && AllFit(Members(c, l))
    ensures rs < SSIZE_LIMIT
  {
    var r := T.SomeBit(c, p, i);
    assert S.InWhole(c, l, T.Scale(rs, i) + r);
    assert T.Scale(rs, i) + r in Members(c, l);
    S.ScaleGrows(rs, i);
  }

  lemma LeafInWhole(c: T.Words, l: nat, p: nat, v: nat, d: nat)
    requires T.InBounds(c, 0, l) && T.InBounds(c, p, 0) && S.Window(c, l, p, 0, v) && d in c[p] && d < T.Capacity(0)
    ensures S.InWhole(c, l, v + d)
  {
    assert T.Has(c, p, 0, d);
  }

  lemma SearchEnds(c: T.Words, l: nat, p: nat, rs: nat, d: nat)
    requires T.InBounds(c, 0, l) && T.InBounds(c, p, 0) && S.Window(c, l, p, 0, rs) && d in c[p] && d < 32
    ensures rs + d in Members(c, l)
  {
    assert T.Capacity(0) == 32;
    LeafInWhole(c, l, p, rs, d);
  }

  ghost predicate SearchingMin(c: T.Words, l: nat, p: nat, i: nat, rs: nat) {
    Searching(c, l, p, i, rs) && S.NoneBelow(c, l, T.Scale(rs, i))
  }

  ghost predicate SearchingMax(c: T.Words, l: nat, p: nat, i: nat, rs: nat) {
    Searching(c, l, p, i, rs) && S.NoneFrom(c, l, T.Scale(rs, i) + T.Capacity(i))
  }

  lemma MinStarts(c: T.Words, l: nat)
    requires T.InBounds(c, 0, l) && T.WellFormed(c, 0, l) && c[0] != {}
    ensures SearchingMin(c, l, 0, l, 0)
  {
    SearchStarts(c, l);
  }

  lemma MinStep(c: T.Words, l: nat, p: nat, i: nat, rs: nat, d: nat)
    requires SearchingMin(c, l, p, i, rs) && 0 < i && IsLeast(c[p], d) && AllFit(Members(c, l))
    ensures SearchingMin(c, l, T.Child(p, i, d), i - 1, 32 * (rs + d)) && 32 * (rs + d) < SSIZE_LIMIT
  {
    S.LeastChild(c, l, p, i, T.Scale(rs, i), d);
    SearchStep(c, l, p, i, rs, d);
    SearchFits(c, l, T.Child(p, i, d), i - 1, 32 * (rs + d));
  }

  lemma MaxStarts(c: T.Words, l: nat)
    requires T.InBounds(c, 0, l) && T.WellFormed(c, 0, l) && c[0] != {}
    ensures SearchingMax(c, l, 0, l, 0)
  {
    SearchStarts(c, l);
  }

  lemma MaxStep(c: T.Words, l: nat, p: nat, i: nat, rs: nat, d: nat)
    requires SearchingMax(c, l, p, i, rs) && 0 < i && IsGreatest(c[p], d) && AllFit(Members(c, l))
    ensures SearchingMax(c, l, T.Child(p, i, d), i - 1, 32 * (rs + d)) && 32 * (rs + d) < SSIZE_LIMIT
  {
    S.GreatestChild(c, l, p, i, T.Scale(rs, i), d);
    SearchStep(c, l, p, i, rs, d);
    SearchFits(c, l, T.Child(p, i, d), i - 1, 32 * (rs + d));
  }

  lemma MinEnds(c: T.Words, l: nat, p: nat, rs: nat, d: nat)
    requires SearchingMin(c, l, p, 0, rs) && IsLeast(c[p], d) && d < 32
    ensures IsLeast(Members(c, l), rs + d)
  {
    assert T.Scale(rs, 0) == rs;
    S.LeastChild(c, l, p, 0, rs, d);
    SearchEnds(c, l, p, rs, d);
    assert T.Scale(rs, 0) == rs && T.Scale(d, 0) == d;
    LeastMember(c, l, rs + d);
  }

  lemma MaxEnds(c: T.Words, l: nat, p: nat, rs: nat, d: nat)
    requires SearchingMax(c, l, p, 0, rs) && IsGreatest(c[p], d) && d < 32
    ensures IsGreatest(Members(c, l), rs + d)
  {
    assert T.Scale(rs, 0) == rs;
    S.GreatestChild(c, l, p, 0, rs, d);
    SearchEnds(c, l, p, rs, d);
    assert T.Scale(rs, 0) == rs && T.Scale(d, 0) == d && T.Pow32(0) == 1;
    GreatestMember(c, l, rs + d);
  }

  lemma LeastMember(c: T.Words, l: nat, v: nat)
    requires T.InBounds(c, 0, l) && v in Members(c, l) && S.NoneBelow(c, l, v)
    ensures IsLeast(Members(c, l), v)
  {
    forall b | b in Members(c, l) ensures v <= b {
      assert S.InWhole(c, l, b);
    }
  }

  lemma GreatestMember(c: T.Words, l: nat, v: nat)
    requires T.InBounds(c, 0, l) && v in Members(c, l) && S.NoneFrom(c, l, v + 1)
    ensures IsGreatest(Members(c, l), v)
  {
    forall b | b in Members(c, l) ensures b <= v {
      assert S.InWhole(c, l, b);
    }
  }

  lemma EmptyMembers(c: T.Words, l: nat)
    requires T.InBounds(c, 0, l) && T.WellFormed(c, 0, l)
    ensures c[0] == {} <==> Members(c, l) == {}
  {
    T.EmptyIffNoBits(c, 0, l);
    if c[0] != {} {
      var b := T.SomeBit(c, 0, l);
      assert b in Members(c, l);
    }
  }

  // p += npos * level_jump_sizes[i] + 1, and back again.
  method JumpDown(p: nat, i: nat, npos: nat) returns (q: nat)
    requires 0 < i <= 6
    ensures q == T.Child(p, i, npos)
  {
    JumpIsChild(p, i, npos);
    q := p + npos * JUMP[i] + 1;
  }

  method JumpBack(p: nat, i: nat, npos: nat, ghost up: nat) returns (q: nat)
    requires 0 < i <= 6 && p == T.Child(up, i, npos)
    ensures q == up
  {
    JumpIsChild(up, i, npos);
    q := p - (npos * JUMP[i] + 1);
  }

  /** The sum of bit >> 5k, by the source's loop. */
  method SumOfShifts(bit0: nat) returns (n: nat)
    ensures n == T.ShiftSum(bit0)
  {
    var bit := bit0;
    n := 0;
    while bit != 0
      invariant n + T.ShiftSum(bit) == T.ShiftSum(bit0)
    {
      bit := bit / 32;
      n := n + bit;
    }
  }

  class LevelBitmap {
    const bitmaps: array<Word>
    const max_level: nat

    ghost predicate Shape() {
      max_level <= 6 && T.Size(max_level) <= bitmaps.Length
    }

    /** The summary tree is consistent, and every bit number fits an ssize_t. */
    ghost predicate Valid()
      reads bitmaps
    {
      && Shape() && T.WellFormed(Contents(bitmaps[..]), 0, max_level)
      && AllFit(Set())
    }

    // The set of naturals the bitmap stands for.
    ghost function Set(): set<nat>
      requires Shape()
      reads bitmaps
    {
      Members(Contents(bitmaps[..]), max_level)
    }

    constructor (bitmaps: array<Word>, max_level: nat)
      requires max_level <= 6 && T.Size(max_level) <= bitmaps.Length
      requires forall k | 0 <= k < bitmaps.Length :: bitmaps[k] == 0
      ensures Valid() && Set() == {} && this.bitmaps == bitmaps && this.max_level == max_level
    {
      this.bitmaps := bitmaps;
      this.max_level := max_level;
      new;
      ghost var c := Contents(bitmaps[..]);
      ZeroContents(bitmaps[..]);
      C.ZerosWellFormed(c, 0, max_level);
      T.EmptyIffNoBits(c, 0, max_level);
    }

    method BitTest(bit: nat) returns (b: bool)
      requires Valid() && bit < T.Capacity(max_level)
      ensures b <==> bit in Set()
    {
      var n := SumOfShifts(bit);
      MemberBit(Contents(bitmaps[..]), max_level, bit);
      b := TestIn(bitmaps, n + max_level, bit % 32);
    }

    // The descent of bit_set: every interior word on the way gets its digit.
    method MarkAncestors(bit: nat) returns (p: nat)
      requires Shape() && bit < T.Capacity(max_level)
      modifies bitmaps
      ensures p == T.Ancestor(0, max_level, bit, 0)
      ensures Contents(bitmaps[..]) == Marked(old(Contents(bitmaps[..])), max_level, bit, 0)
    {
      ghost var c0 := Contents(bitmaps[..]);
      p := 0;
      var i: nat := max_level;
      while i > 0
        invariant i <= max_level && p == T.Ancestor(0, max_level, bit, i)
        invariant Contents(bitmaps[..]) == Marked(c0, max_level, bit, i)
      {
        p := MarkOne(bit, p, i, c0);
        i := i - 1;
      }
    }

    method MarkOne(bit: nat, p0: nat, i: nat, ghost c0: T.Words) returns (p: nat)
      requires Shape() && 0 < i <= max_level && bit < T.Capacity(max_level) && T.InBounds(c0, 0, max_level)
      requires p0 == T.Ancestor(0, max_level, bit, i) && Contents(bitmaps[..]) == Marked(c0, max_level, bit, i)
      modifies bitmaps
      ensures p == T.Ancestor(0, max_level, bit, i - 1) && Contents(bitmaps[..]) == Marked(c0, max_level, bit, i - 1)
    {
      T.AncestorInside(0, max_level, bit, i);
      T.ClimbStep(0, max_level, bit, i - 1);
      var npos := T.Digit(bit, i) % 32;
      SetIn(bitmaps, p0, npos);
      p := JumpDown(p0, i, npos);
    }

    method BitSet(bit: nat) returns (was: bool)
      requires Valid() && bit < T.Capacity(max_level) && bit < SSIZE_LIMIT
      modifies bitmaps
      ensures Valid() && Set() == old(Set()) + {bit} && (was <==> bit in old(Set()))
    {
      ghost var c0 := Contents(bitmaps[..]);
      MemberBit(c0, max_level, bit);
      SetMembers(c0, max_level, bit);
      was := SetBelow(bit);
    }

    // The whole of bit_set, on the words.
    method SetBelow(bit: nat) returns (was: bool)
      requires Shape() && bit < T.Capacity(max_level) && T.ShiftSum(bit) + max_level < T.Size(max_level)
      modifies bitmaps
      ensures Contents(bitmaps[..]) == T.SetIn(old(Contents(bitmaps[..])), 0, max_level, bit)
      ensures was <==> bit % 32 in old(Contents(bitmaps[..]))[T.ShiftSum(bit) + max_level]
    {
      T.DownIsShiftSum(0, max_level, bit);
      MarkedEnds(Contents(bitmaps[..]), max_level, bit);
      var p := MarkAncestors(bit);
      was := TestIn(bitmaps, p, bit % 32);
      SetIn(bitmaps, p, bit % 32);
    }

    // The climb: an ancestor loses its digit while the word below is empty.
    method BitClear(bit0: nat) returns (was: bool)
      requires Valid() && bit0 < T.Capacity(max_level)
      modifies bitmaps
      ensures Valid() && Set() == old(Set()) - {bit0} && (was <==> bit0 in old(Set()))
    {
      ghost var c0 := Contents(bitmaps[..]);
      MemberBit(c0, max_level, bit0);
      ClearMembers(c0, max_level, bit0);
      was := ClearBelow(bit0);
    }

    // The whole of bit_clear, on the words.
    method ClearBelow(bit0: nat) returns (was: bool)
      requires Shape() && bit0 < T.Capacity(max_level) && T.WellFormed(Contents(bitmaps[..]), 0, max_level)
      requires T.ShiftSum(bit0) + max_level < T.Size(max_level)
      modifies bitmaps
      ensures Contents(bitmaps[..]) == T.ClearIn(old(Contents(bitmaps[..])), 0, max_level, bit0)
      ensures was <==> bit0 % 32 in old(Contents(bitmaps[..]))[T.ShiftSum(bit0) + max_level]
    {
      ghost var c0 := Contents(bitmaps[..]);
      var p: nat;
      p, was := ClearLeaf(bit0);
      ClimbUpFrom(p, bit0, c0);
    }

    // The leaf word, reached by the sum of shifts.
    method ClearLeaf(bit0: nat) returns (p: nat, was: bool)
      requires Shape() && bit0 < T.Capacity(max_level) && T.WellFormed(Contents(bitmaps[..]), 0, max_level)
      requires T.ShiftSum(bit0) + max_level < T.Size(max_level)
      modifies bitmaps
      ensures p < bitmaps.Length && Climbing(old(Contents(bitmaps[..])), max_level, bit0, Contents(bitmaps[..]), p, 0)
      ensures was <==> bit0 % 32 in old(Contents(bitmaps[..]))[T.ShiftSum(bit0) + max_level]
    {
      ClimbStarts(Contents(bitmaps[..]), max_level, bit0);
      var n := SumOfShifts(bit0);
      p := n + max_level;
      was := TestAndClear(p, bit0 % 32);
    }

    method TestAndClear(p: nat, npos: nat) returns (was: bool)
      requires p < bitmaps.Length && npos < 32
      modifies bitmaps
      ensures Contents(bitmaps[..]) == old(Contents(bitmaps[..])[p := Contents(bitmaps[..])[p] - {npos}])
      ensures was <==> npos in old(Contents(bitmaps[..]))[p]
    {
      was := TestIn(bitmaps, p, npos);
      ClearIn(bitmaps, p, npos);
    }

    // for(i = 1; i <= max_level && *p == 0; ++i)
    method ClimbUpFrom(p0: nat, bit0: nat, ghost c0: T.Words)
      requires Shape() && Climbing(c0, max_level, bit0, Contents(bitmaps[..]), p0, 0) && p0 < bitmaps.Length
      modifies bitmaps
      ensures Contents(bitmaps[..]) == T.ClearIn(c0, 0, max_level, bit0)
    {
      var p: nat, bit: nat, i: nat := p0, bit0 / 32, 1;
      var zero := IsZero(bitmaps, p);
      while i <= max_level && zero
        invariant 1 <= i <= max_level + 1 && Climbing(c0, max_level, bit0, Contents(bitmaps[..]), p, i - 1)
        invariant bit == T.Digit(bit0, i) && p < bitmaps.Length && (zero <==> Contents(bitmaps[..])[p] == {})
      {
        p, bit, zero := ClimbOne(p, bit, i, bit0, c0);
        i := i + 1;
      }
      ClimbEnds(c0, max_level, bit0, Contents(bitmaps[..]), p, i - 1);
    }

    method ClimbOne(p0: nat, rest0: nat, i: nat, ghost bit0: nat, ghost c0: T.Words)
      returns (p: nat, rest: nat, zero: bool)
      requires Shape() && 0 < i <= max_level && Climbing(c0, max_level, bit0, Contents(bitmaps[..]), p0, i - 1)
      requires p0 < bitmaps.Length && Contents(bitmaps[..])[p0] == {} && rest0 == T.Digit(bit0, i)
      modifies bitmaps
      ensures p < bitmaps.Length && Climbing(c0, max_level, bit0, Contents(bitmaps[..]), p, i)
      ensures rest == T.Digit(bit0, i + 1) && (zero <==> Contents(bitmaps[..])[p] == {})
    {
      ClimbUp(c0, max_level, bit0, Contents(bitmaps[..]), p0, i - 1);
      T.DigitStep(bit0, i);
      var npos := rest0 % 32;
      p := JumpBack(p0, i, npos, T.Ancestor(0, max_level, bit0, i));
      ClearIn(bitmaps, p, npos);
      rest := rest0 / 32;
      zero := IsZero(bitmaps, p);
    }

    /** -1 exactly when the set is empty, its least element otherwise. */
    method GetMin() returns (r: int)
      requires Valid()
      ensures r == -1 <==> Set() == {}
      ensures r != -1 ==> 0 <= r && IsLeast(Set(), r)
    {
      EmptyMembers(Contents(bitmaps[..]), max_level);
      var zero := IsZero(bitmaps, 0);
      if zero {
        return -1;
      }
      r := DescendMin();
    }

    // The loop, once the first word is not zero.
    method DescendMin() returns (r: nat)
      requires Shape() && AllFit(Set()) && T.WellFormed(Contents(bitmaps[..]), 0, max_level)
      requires Contents(bitmaps[..])[0] != {}
      ensures IsLeast(Set(), r)
    {
      MinStarts(Contents(bitmaps[..]), max_level);
      var p: nat, rs: nat, i: nat := 0, 0, max_level;
      while i > 0
        invariant i <= max_level && SearchingMin(Contents(bitmaps[..]), max_level, p, i, rs)
      {
        p, rs := StepMin(p, i, rs);
        i := i - 1;
      }
      r := LastMin(p, rs);
    }

    method StepMin(p0: nat, i: nat, rs0: nat) returns (p: nat, rs: nat)
      requires Shape() && AllFit(Set()) && 0 < i <= max_level
      requires SearchingMin(Contents(bitmaps[..]), max_level, p0, i, rs0)
      ensures SearchingMin(Contents(bitmaps[..]), max_level, p, i - 1, rs) && rs < SSIZE_LIMIT
    {
      var npos := LowestIn(bitmaps, p0);
      MinStep(Contents(bitmaps[..]), max_level, p0, i, rs0, npos);
      rs := 32 * (rs0 + npos);
      p := JumpDown(p0, i, npos);
    }

    method LastMin(p: nat, rs: nat) returns (r: nat)
      requires Shape() && SearchingMin(Contents(bitmaps[..]), max_level, p, 0, rs)
      ensures IsLeast(Set(), r)
    {
      var npos := LowestIn(bitmaps, p);
      MinEnds(Contents(bitmaps[..]), max_level, p, rs, npos);
      r := rs + npos;
    }

    /** -1 exactly when the set is empty, its greatest element otherwise. */
    method GetMax() returns (r: int)
      requires Valid()
      ensures r == -1 <==> Set() == {}
      ensures r != -1 ==> 0 <= r && IsGreatest(Set(), r)
    {
      EmptyMembers(Contents(bitmaps[..]), max_level);
      var zero := IsZero(bitmaps, 0);
      if zero {
        return -1;
      }
      r := DescendMax();
    }

    // The loop, once the first word is not zero.
    method DescendMax() returns (r: nat)
      requires Shape() && AllFit(Set()) && T.WellFormed(Contents(bitmaps[..]), 0, max_level)
      requires Contents(bitmaps[..])[0] != {}
      ensures IsGreatest(Set(), r)
    {
      MaxStarts(Contents(bitmaps[..]), max_level);
      var p: nat, rs: nat, i: nat := 0, 0, max_level;
      while i > 0
        invariant i <= max_level && SearchingMax(Contents(bitmaps[..]), max_level, p, i, rs)
      {
        p, rs := StepMax(p, i, rs);
        i := i - 1;
      }
      r := LastMax(p, rs);
    }

    method StepMax(p0: nat, i: nat, rs0: nat) returns (p: nat, rs: nat)
      requires Shape() && AllFit(Set()) && 0 < i <= max_level
      requires SearchingMax(Contents(bitmaps[..]), max_level, p0, i, rs0)
      ensures SearchingMax(Contents(bitmaps[..]), max_level, p, i - 1, rs) && rs < SSIZE_LIMIT
    {
      var npos := HighestIn(bitmaps, p0);
      MaxStep(Contents(bitmaps[..]), max_level, p0, i, rs0, npos);
      rs := 32 * (rs0 + npos);
      p := JumpDown(p0, i, npos);
    }

    method LastMax(p: nat, rs: nat) returns (r: nat)
      requires Shape() && SearchingMax(Contents(bitmaps[..]), max_level, p, 0, rs)
      ensures IsGreatest(Set(), r)
    {
      var npos := HighestIn(bitmaps, p);
      MaxEnds(Contents(bitmaps[..]), max_level, p, rs, npos);
      r := rs + npos;
    }
  }

  lemma SameMembers(c: T.Words, l: nat, c': T.Words, l': nat)
    requires T.InBounds(c, 0, l) && T.InBounds(c', 0, l') && C.SameBits(c, 0, l, c', 0, l')
    ensures Members(c, l) == Members(c', l')
  {
  }

  lemma MembersUpTo(c: T.Words, l: nat, count: nat)
    requires T.InBounds(c, 0, l) && forall b | b in Members(c, l) :: b <= count
    ensures C.UpTo(c, 0, l, count)
  {
    forall b: nat | b < T.Capacity(l) && T.Has(c, 0, l, b) ensures b <= count {
      assert b in Members(c, l);
    }
  }

  // The word of a bit in range is inside the bitmap.
  lemma CopyFits(l: nat, count: nat)
    requires count < T.Capacity(l)
    ensures T.ShiftSum(count) + l < T.Size(l)
  {
    T.DownInside(0, l, count);
    T.DownIsShiftSum(0, l, count);
  }

  lemma EmptyWords(s: seq<Word>, lo: nat, hi: nat)
    requires hi <= |s|
    ensures C.AllEmpty(Contents(s), lo, hi) <==> forall k: nat | lo <= k < hi :: s[k] == 0
  {
    forall k: nat | lo <= k < hi ensures Contents(s)[k] == {} <==> s[k] == 0 {
      ContentsAt(s, k);
      NoPositions();
      EmptyIsZero(s[k]);
    }
  }

  // _memcpy between two bitmaps.
  method CopyWords(to: array<Word>, at: nat, src: array<Word>, from: nat, n: nat)
    requires to != src && at + n <= to.Length && from + n <= src.Length
    modifies to
    ensures forall k: nat | k < to.Length && !(at <= k < at + n) :: to[k] == old(to[k])
    ensures forall k: nat | at <= k < at + n :: to[k] == src[from + (k - at)]
  {
    var i: nat := 0;
    while i < n
      invariant i <= n
      invariant forall k: nat | k < to.Length && !(at <= k < at + i) :: to[k] == old(to[k])
      invariant forall k: nat | at <= k < at + i :: to[k] == src[from + (k - at)]
    {
      to[at + i] := src[from + i];
      i := i + 1;
    }
  }

  lemma OnePositions()
    ensures Positions(1) == {0}
  {
    SetPositions(0, 0);
    assert (0 as Word) | Mask(0) == 1;
    NoPositions();
  }

  method WriteSpine(to: array<Word>, n: nat)
    requires n <= to.Length
    modifies to
    ensures forall k: nat | k < n :: to[k] == 1
    ensures forall k: nat | n <= k < to.Length :: to[k] == old(to[k])
  {
    var i: nat := 0;
    while i < n
      invariant i <= n
      invariant forall k: nat | k < i :: to[k] == 1
      invariant forall k: nat | i <= k < to.Length :: to[k] == old(to[k])
    {
      to[i] := 1;
      i := i + 1;
    }
  }

  // What the words say, said of their sets.
  lemma CopiedContents(src: seq<Word>, from: nat, to: seq<Word>, at: nat, n: nat, hi: nat)
    requires from + n <= |src| && at + n <= hi <= |to|
    requires forall k: nat | at <= k < at + n :: to[k] == src[from + (k - at)]
    requires forall k: nat | at + n <= k < hi :: to[k] == 0
    ensures C.Copied(Contents(src), from, Contents(to), at, n, hi)
  {
    forall k: nat | at <= k < at + n ensures Contents(to)[k] == Contents(src)[from + (k - at)] {
      ContentsAt(to, k);
      ContentsAt(src, from + (k - at));
    }
    forall k: nat | at + n <= k < hi ensures Contents(to)[k] == {} {
      ContentsAt(to, k);
      NoPositions();
    }
  }

  lemma SpineContents(to: seq<Word>, n: nat)
    requires n <= |to| && forall k: nat | k < n :: to[k] == 1
    ensures C.Spine(Contents(to), 0, n)
  {
    forall k: nat | k < n ensures Contents(to)[k] == {0} {
      ContentsAt(to, k);
      OnePositions();
    }
  }

  // The words read past the source's own are zero.
  ghost predicate ZeroPast(src: LevelBitmap, n: nat)
    requires n <= src.bitmaps.Length
    reads src.bitmaps
  {
    forall k: nat | T.Size(src.max_level) <= k < n :: src.bitmaps[k] == 0
  }

  /** level_bitmap_cpy into a zeroed bitmap, every set bit being at most count, which is in the
      destination's range; the words read and written exist. */
  method Cpy(dst: LevelBitmap, src: LevelBitmap, count: nat)
    requires src.Valid() && dst.Shape() && dst.bitmaps != src.bitmaps
    requires forall k | 0 <= k < dst.bitmaps.Length :: dst.bitmaps[k] == 0
    requires count < T.Capacity(dst.max_level) && T.ShiftSum(count) + src.max_level < src.bitmaps.Length
    requires forall b | b in src.Set() :: b <= count
    modifies dst.bitmaps
    ensures dst.Valid() <==>
      dst.max_level <= src.max_level || (src.Set() != {} && ZeroPast(src, T.ShiftSum(count) + src.max_level + 1))
    ensures dst.Valid() ==> dst.Set() == src.Set()
  {
    var n := SumOfShifts(count);
    n := n + src.max_level + 1;
    CopyFits(dst.max_level, count);
    EmptyMembers(Contents(src.bitmaps[..]), src.max_level);
    MembersUpTo(Contents(src.bitmaps[..]), src.max_level, count);
    if dst.max_level > src.max_level {
      EmptyWords(src.bitmaps[..], T.Size(src.max_level), n);
      Grow(dst, src, n, count);
    } else {
      Shrink(dst, src, n, count);
    }
  }

  lemma GrownMembers(c: T.Words, l: nat, c': T.Words, l': nat, count: nat, n: nat)
    requires C.GrownCopy(c, l, c', l', count, n)
    ensures T.WellFormed(c', 0, l') <==> c[0] != {} && C.AllEmpty(c, T.Size(l), n)
    ensures T.WellFormed(c', 0, l') ==> Members(c', l') == Members(c, l)
  {
    C.Grown(c, l, c', l', count, n);
    if T.WellFormed(c', 0, l') {
      C.GrownSame(c, l, c', l', count, n);
      SameMembers(c, l, c', l');
    }
  }

  method GrowWords(to: array<Word>, src: array<Word>, diff: nat, n: nat, ghost size: nat)
    requires to != src && n <= src.Length && diff + n <= size <= to.Length
    requires forall k | 0 <= k < to.Length :: to[k] == 0
    modifies to
    ensures C.Spine(Contents(to[..]), 0, diff) && C.Copied(Contents(src[..]), 0, Contents(to[..]), diff, n, size)
  {
    CopyWords(to, diff, src, 0, n);
    WriteSpine(to, diff);
    CopiedContents(src[..], 0, to[..], diff, n, size);
    SpineContents(to[..], diff);
  }

  method Grow(dst: LevelBitmap, src: LevelBitmap, n: nat, ghost count: nat)
    requires src.Valid() && dst.Shape() && dst.bitmaps != src.bitmaps && dst.max_level > src.max_level
    requires forall k | 0 <= k < dst.bitmaps.Length :: dst.bitmaps[k] == 0
    requires C.UpTo(Contents(src.bitmaps[..]), 0, src.max_level, count)
    requires n == T.ShiftSum(count) + src.max_level + 1 <= src.bitmaps.Length
    requires n + (dst.max_level - src.max_level) <= T.Size(dst.max_level)
    modifies dst.bitmaps
    ensures T.WellFormed(Contents(dst.bitmaps[..]), 0, dst.max_level) <==>
      Contents(src.bitmaps[..])[0] != {} && C.AllEmpty(Contents(src.bitmaps[..]), T.Size(src.max_level), n)
    ensures T.WellFormed(Contents(dst.bitmaps[..]), 0, dst.max_level) ==> dst.Set() == src.Set()
  {
    GrowWords(dst.bitmaps, src.bitmaps, dst.max_level - src.max_level, n, T.Size(dst.max_level));
    GrownMembers(Contents(src.bitmaps[..]), src.max_level, Contents(dst.bitmaps[..]), dst.max_level, count, n);
  }

  method Shrink(dst: LevelBitmap, src: LevelBitmap, n: nat, ghost count: nat)
    requires src.Valid() && dst.Shape() && dst.bitmaps != src.bitmaps && dst.max_level <= src.max_level
    requires forall k | 0 <= k < dst.bitmaps.Length :: dst.bitmaps[k] == 0
    requires count < T.Capacity(dst.max_level) && C.UpTo(Contents(src.bitmaps[..]), 0, src.max_level, count)
    requires n == T.ShiftSum(count) + src.max_level + 1 <= src.bitmaps.Length
    requires n - (src.max_level - dst.max_level) <= T.Size(dst.max_level)
    modifies dst.bitmaps
    ensures T.WellFormed(Contents(dst.bitmaps[..]), 0, dst.max_level) && dst.Set() == src.Set()
  {
    var diff := src.max_level - dst.max_level;
    CopyWords(dst.bitmaps, 0, src.bitmaps, diff, n - diff);
    CopiedContents(src.bitmaps[..], diff, dst.bitmaps[..], 0, n - diff, T.Size(dst.max_level));
    C.Shrunk(Contents(src.bitmaps[..]), src.max_level, Contents(dst.bitmaps[..]), dst.max_level, count);
    SameMembers(Contents(src.bitmaps[..]), src.max_level, Contents(dst.bitmaps[..]), dst.max_level);
  }
}
