/** Finding the least and the greatest bit by descending the summary tree. */
module BitmapSearch {
  import opened BitmapTree

  lemma {:induction false} ScaleAdd(d: nat, e: nat, l: nat)
    ensures Scale(d + e, l) == Scale(d, l) + Scale(e, l)
  {
    if l > 0 {
      ScaleAdd(d, e, l - 1);
    }
  }

  lemma {:induction false} ScaleShift(d: nat, l: nat)
    requires l > 0
    ensures Scale(32 * d, l - 1) == Scale(d, l)
  {
    if l > 1 {
      ScaleShift(d, l - 1);
    }
  }

  lemma {:induction false} ScaleGrows(d: nat, l: nat)
    ensures d <= Scale(d, l)
  {
    if l > 0 {
      ScaleGrows(d, l - 1);
    }
  }

  // The subtree at p of level i holds exactly the bits v, v + 1, ... of the whole.
  ghost predicate Window(c: Words, l: nat, p: nat, i: nat, v: nat)
    requires InBounds(c, 0, l) && InBounds(c, p, i)
  {
    && (forall r: nat | r < Capacity(i) && Has(c, p, i, r) :: InWhole(c, l, v + r))
    && (forall b: nat | InWhole(c, l, b) && v <= b < v + Capacity(i) :: Has(c, p, i, b - v))
  }

  ghost predicate InWhole(c: Words, l: nat, b: nat)
    requires InBounds(c, 0, l)
  {
    b < Capacity(l) && Has(c, 0, l, b)
  }

  ghost predicate NoneBelow(c: Words, l: nat, v: nat)
    requires InBounds(c, 0, l)
  {
    forall b: nat | InWhole(c, l, b) :: v <= b
  }

  ghost predicate NoneFrom(c: Words, l: nat, v: nat)
    requires InBounds(c, 0, l)
  {
    forall b: nat | InWhole(c, l, b) :: b < v
  }

  // A set bit of a subtree shows in the word at its top.
  lemma DigitShows(c: Words, p: nat, i: nat, r: nat)
    requires InBounds(c, p, i) && WellFormed(c, p, i) && r < Capacity(i) && Has(c, p, i, r)
    ensures Digit(r, i) in c[p]
  {
    DigitSmall(r, i);
    if i > 0 {
      var d := Digit(r, i);
      ChildInside(p, i, d);
      assert DigitOk(c, p, i, d);
      if d !in c[p] {
        EmptyHasNone(c, Child(p, i, d), i - 1, Rest(r, i));
      }
    }
  }

  // Narrowing the window to one child.
  lemma ChildWindow(c: Words, l: nat, p: nat, i: nat, v: nat, d: nat)
    requires InBounds(c, 0, l) && InBounds(c, p, i) && WellFormed(c, p, i) && Window(c, l, p, i, v)
    requires i > 0 && d in c[p]
    ensures d < 32 && InBounds(c, Child(p, i, d), i - 1)
    ensures WellFormed(c, Child(p, i, d), i - 1) && c[Child(p, i, d)] != {}
    ensures Window(c, l, Child(p, i, d), i - 1, v + Scale(d, i))
  {
    ChildInside(p, i, d);
    assert DigitOk(c, p, i, d);
    var q, w, j := Child(p, i, d), v + Scale(d, i), i - 1;
    forall r: nat | r < Capacity(j) && Has(c, q, j, r) ensures InWhole(c, l, w + r) {
      ChildHas(c, p, i, d, r);
      assert w + r == v + (Scale(d, i) + r);
    }
    forall b: nat | InWhole(c, l, b) && w <= b < w + Capacity(j) ensures Has(c, q, j, b - w) {
      ChildHas(c, p, i, d, b - w);
      assert b - v == Scale(d, i) + (b - w);
    }
  }

  // Bit r of the child d is bit d * 32^i + r of its parent.
  lemma ChildHas(c: Words, p: nat, i: nat, d: nat, r: nat)
    requires InBounds(c, p, i) && i > 0 && d < 32 && r < Capacity(i - 1)
    ensures Scale(d, i) + r < Capacity(i) && InBounds(c, Child(p, i, d), i - 1)
    ensures Has(c, p, i, Scale(d, i) + r) == Has(c, Child(p, i, d), i - 1, r)
  {
    ChildInside(p, i, d);
    Composed(d, r, i);
    DigitSmall(Scale(d, i) + r, i);
  }

  lemma LeastChild(c: Words, l: nat, p: nat, i: nat, v: nat, d: nat)
    requires InBounds(c, 0, l) && InBounds(c, p, i) && WellFormed(c, p, i) && Window(c, l, p, i, v)
    requires NoneBelow(c, l, v)
    requires d in c[p] && forall e | e in c[p] :: d <= e
    ensures NoneBelow(c, l, v + Scale(d, i))
  {
    forall b: nat | InWhole(c, l, b) ensures v + Scale(d, i) <= b {
      if b < v + Capacity(i) {
        DigitShows(c, p, i, b - v);
        DigitSmall(b - v, i);
        ScaleAdd(d, Digit(b - v, i) - d, i);
      } else {
        DigitSmall(Scale(d, i), i);
        ScaleInside(d, i);
      }
    }
  }

  lemma GreatestChild(c: Words, l: nat, p: nat, i: nat, v: nat, d: nat)
    requires InBounds(c, 0, l) && InBounds(c, p, i) && WellFormed(c, p, i) && Window(c, l, p, i, v)
    requires NoneFrom(c, l, v + Capacity(i))
    requires d in c[p] && forall e | e in c[p] :: e <= d
    ensures NoneFrom(c, l, v + Scale(d, i) + Pow32(i))
  {
    forall b: nat | InWhole(c, l, b) ensures b < v + Scale(d, i) + Pow32(i) {
      if v <= b {
        var r := b - v;
        DigitShows(c, p, i, r);
        DigitSmall(r, i);
        ScaleAdd(Digit(r, i), d - Digit(r, i), i);
        RestSmall(r, i);
      }
    }
  }

  lemma {:induction false} RestSmall(b: nat, l: nat)
    ensures Rest(b, l) < Pow32(l)
  {
    if l > 0 {
      RestSmall(b / 32, l - 1);
    }
  }

  lemma ScaleInside(d: nat, l: nat)
    requires d < 32
    ensures Scale(d, l) < Capacity(l)
  {
    Composed(d, 0, l);
    DigitSmall(Scale(d, l), l);
  }
}
