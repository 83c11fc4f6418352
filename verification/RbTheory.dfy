/** Red-black trees as values: the shapes, colours and black heights that the
    pointer code keeps.  `Path` is the way from a subtree up to the
    root, so `Plug(p, t)` is the whole tree seen from the subtree `t`. */
module RbTheory {
  import opened Lists

  datatype Color = Red | Black

  datatype Tree<T> = Leaf | Branch(left: Tree<T>, elem: T, color: Color, right: Tree<T>)

  datatype Path<T> =
    | Top
    | InLeft(up: Path<T>, elem: T, color: Color, right: Tree<T>)
    | InRight(up: Path<T>, left: Tree<T>, elem: T, color: Color)

  function Lift<T>(p: Path<T>, t: Tree<T>): Tree<T>
    requires !p.Top?
  {
    if p.InLeft? then Branch(t, p.elem, p.color, p.right) else Branch(p.left, p.elem, p.color, t)
  }

  function Plug<T>(p: Path<T>, t: Tree<T>): Tree<T> {
    if p.Top? then t else Plug(p.up, Lift(p, t))
  }

  function Inorder<T>(t: Tree<T>): seq<T> {
    if t.Leaf? then [] else Inorder(t.left) + [t.elem] + Inorder(t.right)
  }

  // What comes before and after the hole of a path, in order.
  function Before<T>(p: Path<T>): seq<T> {
    match p
    case Top => []
    case InLeft(up, _, _, _) => Before(up)
    case InRight(up, l, x, _) => Before(up) + Inorder(l) + [x]
  }

  function After<T>(p: Path<T>): seq<T> {
    match p
    case Top => []
    case InLeft(up, x, _, r) => [x] + Inorder(r) + After(up)
    case InRight(up, _, _, _) => After(up)
  }

  function TreeColor<T>(t: Tree<T>): Color {
    if t.Leaf? then Black else t.color
  }

  function PathColor<T>(p: Path<T>): Color {
    if p.Top? then Black else p.color
  }

  function Weight(c: Color): nat { if c == Black then 1 else 0 }

  // Black nodes on the leftmost way down.
  function BlackHeight<T>(t: Tree<T>): nat {
    if t.Leaf? then 0 else BlackHeight(t.left) + Weight(t.color)
  }

  ghost predicate Balanced<T>(t: Tree<T>) {
    t.Branch? ==> Balanced(t.left) && Balanced(t.right) && BlackHeight(t.left) == BlackHeight(t.right)
  }

  ghost predicate NoRedRed<T>(t: Tree<T>) {
    t.Branch? ==>
      && NoRedRed(t.left) && NoRedRed(t.right)
      && (t.color == Red ==> TreeColor(t.left) == Black && TreeColor(t.right) == Black)
  }

  /** The red-black invariant. */
  ghost predicate RedBlack<T>(t: Tree<T>) {
    Balanced(t) && NoRedRed(t) && TreeColor(t) == Black
  }

  function Sibling<T>(p: Path<T>): Tree<T>
    requires !p.Top?
  {
    if p.InLeft? then p.right else p.left
  }

  // A hole in which any balanced tree of black height h gives a balanced whole.
  ghost predicate PathBalanced<T>(p: Path<T>, h: nat) {
    !p.Top? ==> Balanced(Sibling(p)) && BlackHeight(Sibling(p)) == h && PathBalanced(p.up, h + Weight(p.color))
  }

  // No red node above the hole has a red parent or a red child off the path, and the root is black.
  ghost predicate PathNoRedRed<T>(p: Path<T>) {
    !p.Top? ==>
      && NoRedRed(Sibling(p))
      && PathNoRedRed(p.up)
      && (p.color == Red ==> TreeColor(Sibling(p)) == Black && PathColor(p.up) == Black && !p.up.Top?)
  }

  lemma Regroup<T>(a: seq<T>, b: seq<T>, c: seq<T>, d: seq<T>, e: seq<T>)
    ensures a + (b + c + d) + e == a + b + (c + d + e) == (a + b + c) + d + e
  {
  }

  lemma {:induction false} PlugInorder<T>(p: Path<T>, t: Tree<T>)
    ensures Inorder(Plug(p, t)) == Before(p) + Inorder(t) + After(p)
  {
    if !p.Top? {
      PlugInorder(p.up, Lift(p, t));
      Regroup(Before(p.up), if p.InLeft? then Inorder(t) else Inorder(p.left), [p.elem],
              if p.InLeft? then Inorder(p.right) else Inorder(t), After(p.up));
    }
  }

  lemma {:induction false} PlugBalanced<T>(p: Path<T>, t: Tree<T>)
    ensures Balanced(Plug(p, t)) <==> Balanced(t) && PathBalanced(p, BlackHeight(t))
  {
    if !p.Top? {
      PlugBalanced(p.up, Lift(p, t));
    }
  }

  lemma {:induction false} PlugNoRedRed<T>(p: Path<T>, t: Tree<T>)
    ensures NoRedRed(Plug(p, t)) && TreeColor(Plug(p, t)) == Black
       <==> NoRedRed(t) && PathNoRedRed(p) && (TreeColor(t) == Red ==> PathColor(p) == Black && !p.Top?)
  {
    if !p.Top? {
      PlugNoRedRed(p.up, Lift(p, t));
    }
  }

  lemma PlugRedBlack<T>(p: Path<T>, t: Tree<T>)
    ensures RedBlack(Plug(p, t)) <==>
      && Balanced(t) && PathBalanced(p, BlackHeight(t))
      && NoRedRed(t) && PathNoRedRed(p) && (TreeColor(t) == Red ==> PathColor(p) == Black && !p.Top?)
  {
    PlugBalanced(p, t);
    PlugNoRedRed(p, t);
  }

  // ---------- insertion ----------

  function Blacken<T>(t: Tree<T>): Tree<T> {
    if t.Leaf? then t else t.(color := Black)
  }

  // The colour the code reads at the top of a subtree: a Leaf is the shared sentinel.
  function SeenColor<T>(t: Tree<T>, nil: Color): Color {
    if t.Leaf? then nil else t.color
  }

  // A rotation moves one middle subtree across and leaves the order alone.
  lemma RotationInorder<T>(a: Tree<T>, x: T, c: Color, b: Tree<T>, y: T, d: Color, e: Tree<T>, c': Color, d': Color)
    ensures Inorder(Branch(Branch(a, x, c, b), y, d, e)) == Inorder(Branch(a, x, c', Branch(b, y, d', e)))
  {
    assert (Inorder(a) + [x] + Inorder(b)) + [y] + Inorder(e) == Inorder(a) + [x] + (Inorder(b) + [y] + Inorder(e));
  }

  // The subtree an insertion puts in the grandparent's place by rotating.
  function InsertRotate<T>(p: Path<T>, t: Tree<T>): Tree<T>
    requires t.Branch? && !p.Top? && !p.up.Top?
  {
    var g := p.up;
    var uncle := Sibling(g);
    if g.InLeft? then
      if p.InLeft? then Branch(t, p.elem, Black, Branch(p.right, g.elem, Red, uncle))
      else Branch(Branch(p.left, p.elem, Red, t.left), t.elem, Black, Branch(t.right, g.elem, Red, uncle))
    else
      if p.InRight? then Branch(Branch(uncle, g.elem, Red, p.left), p.elem, Black, t)
      else Branch(Branch(uncle, g.elem, Red, t.left), t.elem, Black, Branch(t.right, p.elem, Red, p.right))
  }

  // The subtree it puts there by pushing the grandparent's black down.
  function InsertRecolor<T>(p: Path<T>, t: Tree<T>): Tree<T>
    requires !p.Top? && !p.up.Top?
  {
    var parent, g := Lift(p, t), p.up;
    if g.InLeft? then Branch(Blacken(parent), g.elem, Red, Blacken(g.right))
    else Branch(Blacken(g.left), g.elem, Red, Blacken(parent))
  }

  /** The tree `rb_tree_rebalance` leaves when its node is the red top of `t`.
      `nil` is the colour the sentinel has when the loop starts. */
  function InsertFix<T>(nil: Color, p: Path<T>, t: Tree<T>): Tree<T>
    requires t.Branch?
    decreases p
  {
    if p.Top? then Blacken(t)
    else if p.color == Black || p.up.Top? then Plug(p, t)
    else if SeenColor(Sibling(p.up), nil) == Red then
      InsertFix(if Sibling(p.up).Leaf? then Black else nil, p.up.up, InsertRecolor(p, t))
    else Plug(p.up.up, InsertRotate(p, t))
  }

  /** The sentinel's colour after that loop. */
  function NilAfterInsert<T>(nil: Color, p: Path<T>): Color
    decreases p
  {
    if p.Top? || p.color == Black || p.up.Top? then nil
    else if SeenColor(Sibling(p.up), nil) == Red then
      NilAfterInsert(if Sibling(p.up).Leaf? then Black else nil, p.up.up)
    else nil
  }

  lemma InsertRotateInorder<T>(p: Path<T>, t: Tree<T>)
    requires t.Branch? && !p.Top? && !p.up.Top?
    ensures Inorder(InsertRotate(p, t)) == Inorder(Lift(p.up, Lift(p, t)))
  {
    var g := p.up;
    var uncle := Sibling(g);
    if g.InLeft? {
      if p.InLeft? {
        RotationInorder(t, p.elem, p.color, p.right, g.elem, g.color, uncle, Black, Red);
      } else {
        var l := Branch(p.left, p.elem, Red, t.left);
        RotationInorder(p.left, p.elem, Red, t.left, t.elem, t.color, t.right, p.color, t.color);
        RotationInorder(l, t.elem, t.color, t.right, g.elem, g.color, uncle, Black, Red);
      }
    } else {
      if p.InRight? {
        RotationInorder(uncle, g.elem, Red, p.left, p.elem, Black, t, g.color, p.color);
      } else {
        var r := Branch(t.right, p.elem, Red, p.right);
        RotationInorder(t.left, t.elem, t.color, t.right, p.elem, p.color, p.right, t.color, Red);
        RotationInorder(uncle, g.elem, Red, t.left, t.elem, Black, r, g.color, t.color);
      }
    }
  }

  lemma {:induction false} InsertFixInorder<T>(nil: Color, p: Path<T>, t: Tree<T>)
    requires t.Branch?
    ensures Inorder(InsertFix(nil, p, t)) == Inorder(Plug(p, t))
    decreases p
  {
    if !p.Top? && p.color == Red && !p.up.Top? {
      var whole := Lift(p.up, Lift(p, t));
      PlugInorder(p.up.up, whole);
      if SeenColor(Sibling(p.up), nil) == Red {
        InsertFixInorder(if Sibling(p.up).Leaf? then Black else nil, p.up.up, InsertRecolor(p, t));
        PlugInorder(p.up.up, InsertRecolor(p, t));
      } else {
        InsertRotateInorder(p, t);
        PlugInorder(p.up.up, InsertRotate(p, t));
      }
    }
  }

  // A red top whose children fit a hole of black height h.
  ghost predicate FitsBelow<T>(t: Tree<T>, h: nat) {
    && t.Branch?
    && Balanced(t.left) && BlackHeight(t.left) == h
    && Balanced(t.right) && BlackHeight(t.right) == h
  }

  /** The node inserted hangs below a red parent whose sibling is the sentinel,
      and the sentinel is red: the one case the loop gets wrong. */
  predicate RedNilUncle<T>(nil: Color, p: Path<T>) {
    nil == Red && !p.Top? && p.color == Red && !p.up.Top? && Sibling(p.up).Leaf?
  }

  lemma HighUncleIsReal<T>(nil: Color, p: Path<T>, h: nat)
    requires PathBalanced(p, h) && h > 0
    ensures !RedNilUncle(nil, p)
  {
    if !p.Top? && p.color == Red {
      assert PathBalanced(p.up, h);
    }
  }

  // Once the children do not fit, no later step of the loop repairs it.
  lemma {:induction false} InsertFixBalanced<T>(nil: Color, p: Path<T>, t: Tree<T>, h: nat)
    requires t.Branch? && t.color == Red && PathBalanced(p, h) && PathNoRedRed(p)
    requires FitsBelow(t, h) || !Balanced(t)
    ensures Balanced(InsertFix(nil, p, t)) <==> FitsBelow(t, h) && !RedNilUncle(nil, p)
    decreases p
  {
    if p.Top? || p.color == Black {
      PlugBalanced(p, t);
    } else if SeenColor(Sibling(p.up), nil) == Red {
      var up, uncle := InsertRecolor(p, t), Sibling(p.up);
      assert Balanced(uncle) && BlackHeight(uncle) == h;
      assert Balanced(Blacken(uncle));
      assert Balanced(Blacken(Lift(p, t))) <==> Balanced(t) && BlackHeight(t) == h;
      InsertFixBalanced(if uncle.Leaf? then Black else nil, p.up.up, up, h + 1);
      HighUncleIsReal(if uncle.Leaf? then Black else nil, p.up.up, h + 1);
    } else {
      PlugBalanced(p.up.up, InsertRotate(p, t));
    }
  }

  lemma {:induction false} InsertFixNoRedRed<T>(nil: Color, p: Path<T>, t: Tree<T>)
    requires t.Branch? && t.color == Red && NoRedRed(t) && PathNoRedRed(p)
    ensures NoRedRed(InsertFix(nil, p, t)) && TreeColor(InsertFix(nil, p, t)) == Black
    decreases p
  {
    if p.Top? {
    } else if p.color == Black {
      PlugNoRedRed(p, t);
    } else if SeenColor(Sibling(p.up), nil) == Red {
      InsertFixNoRedRed(if Sibling(p.up).Leaf? then Black else nil, p.up.up, InsertRecolor(p, t));
    } else {
      InsertRotateNoRedRed(p, t);
      PlugNoRedRed(p.up.up, InsertRotate(p, t));
    }
  }

  lemma InsertRotateNoRedRed<T>(p: Path<T>, t: Tree<T>)
    requires t.Branch? && t.color == Red && NoRedRed(t) && PathNoRedRed(p) && !p.Top? && p.color == Red && !p.up.Top?
    requires TreeColor(Sibling(p.up)) == Black
    ensures NoRedRed(InsertRotate(p, t)) && TreeColor(InsertRotate(p, t)) == Black && PathNoRedRed(p.up.up)
  {
  }

  /** Linking a node into a red-black tree and rebalancing gives a red-black tree
      exactly when the sentinel is not a red uncle; colours never clash either way. */
  lemma InsertFixRedBlack<T>(nil: Color, p: Path<T>, x: T)
    requires RedBlack(Plug(p, Leaf))
    ensures RedBlack(InsertFix(nil, p, Branch(Leaf, x, Red, Leaf))) <==> !RedNilUncle(nil, p)
    ensures NoRedRed(InsertFix(nil, p, Branch(Leaf, x, Red, Leaf)))
    ensures TreeColor(InsertFix(nil, p, Branch(Leaf, x, Red, Leaf))) == Black
  {
    PlugRedBlack(p, Leaf);
    InsertFixBalanced(nil, p, Branch(Leaf, x, Red, Leaf), 0);
    InsertFixNoRedRed(nil, p, Branch(Leaf, x, Red, Leaf));
  }

  // The loop blackens the sentinel in that case and otherwise leaves it alone.
  lemma {:induction false} NilAfterInsertIs<T>(nil: Color, p: Path<T>, h: nat)
    requires PathBalanced(p, h) && PathNoRedRed(p)
    ensures NilAfterInsert(nil, p) == if RedNilUncle(nil, p) then Black else nil
    decreases p
  {
    if !p.Top? && p.color == Red && SeenColor(Sibling(p.up), nil) == Red {
      var nil', q := if Sibling(p.up).Leaf? then Black else nil, p.up.up;
      NilAfterInsertIs(nil', q, h + 1);
      HighUncleIsReal(nil', q, h + 1);
    }
  }

  lemma {:induction false} NilStaysBlack<T>(p: Path<T>)
    ensures NilAfterInsert(Black, p) == Black
    decreases p
  {
    if !p.Top? && p.color == Red && !p.up.Top? && SeenColor(Sibling(p.up), Black) == Red {
      NilStaysBlack(p.up.up);
    }
  }

  // ---------- removal ----------

  function Redden<T>(t: Tree<T>): Tree<T> {
    if t.Leaf? then t else t.(color := Red)
  }

  /** The tree `rb_rmfix` leaves when its node is the top of `t` and the sentinel is
      black: `t` is one black node short for the hole in `p`. */
  function RemoveFix<T>(p: Path<T>, t: Tree<T>): Tree<T>
    decreases p, if TreeColor(t) == Red then 0 else 1
  {
    if p.Top? || TreeColor(t) == Red then Plug(p, Blacken(t))
    else if TreeColor(Sibling(p)) == Red then
      RemoveStep(BrotherRaised(p), t)
    else if CanRecolor(p) then
      RemoveFix(p.up, RemoveRecolor(p, t))
    else
      Plug(p.up, RemoveRotate(p, t))
  }

  // The red brother is rotated above the parent, which turns red.
  function BrotherRaised<T>(p: Path<T>): Path<T>
    requires !p.Top? && TreeColor(Sibling(p)) == Red
  {
    var b := Sibling(p);
    if p.InLeft? then InLeft(InLeft(p.up, b.elem, Black, b.right), p.elem, Red, b.left)
    else InRight(InRight(p.up, b.left, b.elem, Black), b.right, p.elem, Red)
  }

  // The step below a red parent; recolouring here ends the loop at the red parent.
  function RemoveStep<T>(p: Path<T>, t: Tree<T>): Tree<T>
    requires !p.Top?
  {
    if CanRecolor(p) then Plug(p.up, Blacken(RemoveRecolor(p, t)))
    else Plug(p.up, RemoveRotate(p, t))
  }

  predicate CanRecolor<T>(p: Path<T>)
    requires !p.Top?
  {
    var b := Sibling(p);
    b.Branch? ==> TreeColor(b.left) == Black && TreeColor(b.right) == Black
  }

  function RemoveRecolor<T>(p: Path<T>, t: Tree<T>): Tree<T>
    requires !p.Top?
  {
    if p.InLeft? then Branch(t, p.elem, p.color, Redden(p.right))
    else Branch(Redden(p.left), p.elem, p.color, t)
  }

  function RemoveRotate<T>(p: Path<T>, t: Tree<T>): Tree<T>
    requires !p.Top? && !CanRecolor(p)
  {
    var b := Sibling(p);
    if p.InLeft? then
      if TreeColor(b.right) == Black then
        var c := b.left;
        Branch(Branch(t, p.elem, Black, c.left), c.elem, p.color, Branch(c.right, b.elem, Black, b.right))
      else
        Branch(Branch(t, p.elem, Black, b.left), b.elem, p.color, Blacken(b.right))
    else
      if TreeColor(b.left) == Black then
        var c := b.right;
        Branch(Branch(b.left, b.elem, Black, c.left), c.elem, p.color, Branch(c.right, p.elem, Black, t))
      else
        Branch(Blacken(b.left), b.elem, p.color, Branch(b.right, p.elem, Black, t))
  }

  lemma RemoveRotateInorder<T>(p: Path<T>, t: Tree<T>)
    requires !p.Top? && !CanRecolor(p)
    ensures Inorder(RemoveRotate(p, t)) == Inorder(Lift(p, t))
  {
    var b := Sibling(p);
    if p.InLeft? {
      if TreeColor(b.right) == Black {
        var c := b.left;
        var r := Branch(c.right, b.elem, Black, b.right);
        RotationInorder(c.left, c.elem, c.color, c.right, b.elem, b.color, b.right, c.color, Black);
        RotationInorder(t, p.elem, Black, c.left, c.elem, p.color, r, p.color, c.color);
      } else {
        RotationInorder(t, p.elem, Black, b.left, b.elem, p.color, b.right, p.color, b.color);
      }
    } else {
      if TreeColor(b.left) == Black {
        var c := b.right;
        var l := Branch(b.left, b.elem, Black, c.left);
        RotationInorder(b.left, b.elem, Black, c.left, c.elem, c.color, c.right, b.color, c.color);
        RotationInorder(l, c.elem, c.color, c.right, p.elem, p.color, t, p.color, Black);
      } else {
        RotationInorder(b.left, b.elem, b.color, b.right, p.elem, p.color, t, p.color, Black);
      }
    }
  }

  lemma RemoveStepInorder<T>(p: Path<T>, t: Tree<T>)
    requires !p.Top?
    ensures Inorder(RemoveStep(p, t)) == Inorder(Plug(p, t))
  {
    PlugInorder(p.up, Lift(p, t));
    if CanRecolor(p) {
      PlugInorder(p.up, Blacken(RemoveRecolor(p, t)));
    } else {
      RemoveRotateInorder(p, t);
      PlugInorder(p.up, RemoveRotate(p, t));
    }
  }

  lemma {:induction false} RemoveFixInorder<T>(p: Path<T>, t: Tree<T>)
    ensures Inorder(RemoveFix(p, t)) == Inorder(Plug(p, t))
    decreases p, if TreeColor(t) == Red then 0 else 1
  {
    if p.Top? || TreeColor(t) == Red {
      PlugInorder(p, t);
      PlugInorder(p, Blacken(t));
    } else {
      PlugInorder(p.up, Lift(p, t));
      var b := Sibling(p);
      if TreeColor(b) == Red {
        if p.InLeft? {
          RemoveStepInorder(BrotherRaised(p), t);
          PlugInorder(p.up, Branch(Branch(t, p.elem, Red, b.left), b.elem, Black, b.right));
          RotationInorder(t, p.elem, Red, b.left, b.elem, Black, b.right, p.color, b.color);
        } else {
          RemoveStepInorder(BrotherRaised(p), t);
          PlugInorder(p.up, Branch(b.left, b.elem, Black, Branch(b.right, p.elem, Red, t)));
          RotationInorder(b.left, b.elem, b.color, b.right, p.elem, p.color, t, Black, Red);
        }
      } else if CanRecolor(p) {
        RemoveFixInorder(p.up, RemoveRecolor(p, t));
        PlugInorder(p.up, RemoveRecolor(p, t));
      } else {
        RemoveRotateInorder(p, t);
        PlugInorder(p.up, RemoveRotate(p, t));
      }
    }
  }

  // No colours clash around the hole, whatever the black heights.
  ghost predicate ColorsFit<T>(p: Path<T>, t: Tree<T>) {
    NoRedRed(Blacken(t)) && PathNoRedRed(p)
  }

  // `t` fits the hole in `p` but for one missing black node.
  ghost predicate OneShort<T>(p: Path<T>, t: Tree<T>) {
    ColorsFit(p, t) && Balanced(t) && PathBalanced(p, BlackHeight(t) + 1)
  }

  // Rotating at the parent lends the missing black node to the side of `t`.
  lemma RemoveRotateFits<T>(p: Path<T>, t: Tree<T>)
    requires OneShort(p, t) && TreeColor(t) == Black && !p.Top? && TreeColor(Sibling(p)) == Black && !CanRecolor(p)
    ensures var r := RemoveRotate(p, t);
      Balanced(r) && NoRedRed(r) && TreeColor(r) == p.color && BlackHeight(r) == BlackHeight(t) + 1 + Weight(p.color)
  {
    var b := Sibling(p);
    assert Balanced(b.left) && Balanced(b.right) && NoRedRed(b.left) && NoRedRed(b.right);
    var near := if p.InLeft? then b.left else b.right;
    assert near.Branch? ==> Balanced(near.left) && Balanced(near.right) && NoRedRed(near.left) && NoRedRed(near.right);
  }

  lemma BrotherRaisedOneShort<T>(p: Path<T>, t: Tree<T>)
    requires OneShort(p, t) && !p.Top? && TreeColor(Sibling(p)) == Red
    ensures OneShort(BrotherRaised(p), t) && Sibling(BrotherRaised(p)).Branch?
  {
  }

  lemma BrotherRaisedFits<T>(p: Path<T>, t: Tree<T>)
    requires ColorsFit(p, t) && !p.Top? && TreeColor(Sibling(p)) == Red
    ensures ColorsFit(BrotherRaised(p), t) && TreeColor(Sibling(BrotherRaised(p))) == Black
  {
  }

  lemma RemoveRecolorFits<T>(p: Path<T>, t: Tree<T>)
    requires ColorsFit(p, t) && !p.Top? && TreeColor(t) == Black && TreeColor(Sibling(p)) == Black && CanRecolor(p)
    ensures ColorsFit(p.up, RemoveRecolor(p, t))
  {
  }

  lemma RemoveRotateColors<T>(p: Path<T>, t: Tree<T>)
    requires ColorsFit(p, t) && TreeColor(t) == Black && !p.Top? && TreeColor(Sibling(p)) == Black && !CanRecolor(p)
    ensures NoRedRed(RemoveRotate(p, t)) && TreeColor(RemoveRotate(p, t)) == p.color
  {
    var b := Sibling(p);
    assert NoRedRed(b.left) && NoRedRed(b.right);
    var near := if p.InLeft? then b.left else b.right;
    assert near.Branch? ==> NoRedRed(near.left) && NoRedRed(near.right);
  }

  // ---------- whose brothers are real ----------

  /** Every brother that the repair meets on its way up from the hole in `p`, below which the top
      has colour c, is a real node: the one by which a red brother is replaced as well. */
  predicate BrothersReal<T>(p: Path<T>, c: Color)
    decreases p
  {
    p.Top? || c == Red ||
    (Sibling(p).Branch? &&
     if TreeColor(Sibling(p)) == Red then Sibling(BrotherRaised(p)).Branch?
     else CanRecolor(p) ==> BrothersReal(p.up, p.color))
  }

  /** In a hole that lacks one black node they always are. */
  lemma {:induction false} OneShortBrothers<T>(p: Path<T>, t: Tree<T>)
    requires OneShort(p, t)
    ensures BrothersReal(p, TreeColor(t))
    decreases p
  {
    if !p.Top? && TreeColor(t) == Black {
      if TreeColor(Sibling(p)) == Red {
        BrotherRaisedOneShort(p, t);
      } else if CanRecolor(p) {
        RemoveRecolorOneShort(p, t);
        OneShortBrothers(p.up, RemoveRecolor(p, t));
      }
    }
  }

  // The repair of (q, s) is a later turn of the repair of (p, t), reached over real brothers only.
  ghost predicate Climbs<T>(p: Path<T>, t: Tree<T>, q: Path<T>, s: Tree<T>)
    decreases p
  {
    || (q == p && s == t)
    || (!p.Top? && TreeColor(t) == Black && Sibling(p).Branch? &&
        if TreeColor(Sibling(p)) == Red then q == BrotherRaised(p) && s == t
        else CanRecolor(p) && Climbs(p.up, RemoveRecolor(p, t), q, s))
  }

  /** Where they are not, the repair reaches a black top whose brother is the sentinel. */
  lemma {:induction false} StuckAt<T>(p: Path<T>, t: Tree<T>) returns (q: Path<T>, s: Tree<T>)
    requires !BrothersReal(p, TreeColor(t))
    ensures Climbs(p, t, q, s) && !q.Top? && TreeColor(s) == Black && Sibling(q).Leaf?
    decreases p
  {
    if Sibling(p).Leaf? {
      q, s := p, t;
    } else if TreeColor(Sibling(p)) == Red {
      q, s := BrotherRaised(p), t;
    } else {
      q, s := StuckAt(p.up, RemoveRecolor(p, t));
    }
  }

  /** Over real brothers the repair never lets colours clash, whatever the black heights. */
  lemma {:induction false} RemoveFixColors<T>(p: Path<T>, t: Tree<T>)
    requires ColorsFit(p, t) && BrothersReal(p, TreeColor(t))
    ensures NoRedRed(RemoveFix(p, t)) && TreeColor(RemoveFix(p, t)) == Black
    decreases p
  {
    if p.Top? || TreeColor(t) == Red {
      PlugNoRedRed(p, Blacken(t));
    } else if TreeColor(Sibling(p)) == Red {
      BrotherRaisedFits(p, t);
      RemoveStepColors(BrotherRaised(p), t);
    } else if CanRecolor(p) {
      RemoveRecolorFits(p, t);
      RemoveFixColors(p.up, RemoveRecolor(p, t));
    } else {
      RemoveRotateColors(p, t);
      PlugNoRedRed(p.up, RemoveRotate(p, t));
    }
  }

  lemma RemoveStepColors<T>(p: Path<T>, t: Tree<T>)
    requires ColorsFit(p, t) && TreeColor(t) == Black && !p.Top? && TreeColor(Sibling(p)) == Black
    ensures NoRedRed(RemoveStep(p, t)) && TreeColor(RemoveStep(p, t)) == Black
  {
    if CanRecolor(p) {
      RemoveRecolorFits(p, t);
      PlugNoRedRed(p.up, Blacken(RemoveRecolor(p, t)));
    } else {
      RemoveRotateColors(p, t);
      PlugNoRedRed(p.up, RemoveRotate(p, t));
    }
  }

  // ---------- black heights ----------

  lemma RemoveRecolorOneShort<T>(p: Path<T>, t: Tree<T>)
    requires OneShort(p, t) && !p.Top? && TreeColor(t) == Black && TreeColor(Sibling(p)) == Black && CanRecolor(p)
    ensures Sibling(p).Branch? && OneShort(p.up, RemoveRecolor(p, t))
  {
  }

  lemma RemoveStepRedBlack<T>(p: Path<T>, t: Tree<T>)
    requires OneShort(p, t) && TreeColor(t) == Black && !p.Top? && TreeColor(Sibling(p)) == Black
    requires CanRecolor(p) ==> p.color == Red
    ensures RedBlack(RemoveStep(p, t))
  {
    if CanRecolor(p) {
      PlugRedBlack(p.up, Blacken(RemoveRecolor(p, t)));
    } else {
      RemoveRotateFits(p, t);
      PlugRedBlack(p.up, RemoveRotate(p, t));
    }
  }

  /** The loop adds the missing black node: the whole is a red-black tree again. */
  lemma {:induction false} RemoveFixRedBlack<T>(p: Path<T>, t: Tree<T>)
    requires OneShort(p, t)
    ensures RedBlack(RemoveFix(p, t))
    decreases p, if TreeColor(t) == Red then 0 else 1
  {
    if p.Top? || TreeColor(t) == Red {
      PlugRedBlack(p, Blacken(t));
    } else if TreeColor(Sibling(p)) == Red {
      BrotherRaisedOneShort(p, t);
      RemoveStepRedBlack(BrotherRaised(p), t);
    } else if CanRecolor(p) {
      RemoveRecolorOneShort(p, t);
      RemoveFixRedBlack(p.up, RemoveRecolor(p, t));
    } else {
      RemoveRotateFits(p, t);
      PlugRedBlack(p.up, RemoveRotate(p, t));
    }
  }

  // ---------- two elements trading places ----------

  function Swap<T(==)>(x: T, a: T, b: T): T {
    if x == a then b else if x == b then a else x
  }

  function SwapSeq<T(==)>(s: seq<T>, a: T, b: T): seq<T> {
    seq(|s|, i requires 0 <= i < |s| => Swap(s[i], a, b))
  }

  function Rename<T(==)>(t: Tree<T>, a: T, b: T): Tree<T> {
    if t.Leaf? then Leaf else Branch(Rename(t.left, a, b), Swap(t.elem, a, b), t.color, Rename(t.right, a, b))
  }

  function RenamePath<T(==)>(p: Path<T>, a: T, b: T): Path<T> {
    match p
    case Top => Top
    case InLeft(up, x, c, r) => InLeft(RenamePath(up, a, b), Swap(x, a, b), c, Rename(r, a, b))
    case InRight(up, l, x, c) => InRight(RenamePath(up, a, b), Rename(l, a, b), Swap(x, a, b), c)
  }

  lemma {:induction false} RenameShape<T>(t: Tree<T>, a: T, b: T)
    ensures BlackHeight(Rename(t, a, b)) == BlackHeight(t) && TreeColor(Rename(t, a, b)) == TreeColor(t)
    ensures Balanced(Rename(t, a, b)) <==> Balanced(t)
    ensures NoRedRed(Rename(t, a, b)) <==> NoRedRed(t)
  {
    if t.Branch? {
      RenameShape(t.left, a, b);
      RenameShape(t.right, a, b);
    }
  }

  lemma {:induction false} RenamePathShape<T>(p: Path<T>, a: T, b: T, h: nat)
    ensures PathBalanced(RenamePath(p, a, b), h) <==> PathBalanced(p, h)
    ensures PathNoRedRed(RenamePath(p, a, b)) <==> PathNoRedRed(p)
    decreases p
  {
    if !p.Top? {
      RenameShape(Sibling(p), a, b);
      RenamePathShape(p.up, a, b, h + Weight(p.color));
    }
  }

  lemma SwapSeqConcat<T>(s: seq<T>, r: seq<T>, a: T, b: T)
    ensures SwapSeq(s + r, a, b) == SwapSeq(s, a, b) + SwapSeq(r, a, b)
  {
  }

  lemma {:induction false} RenameInorder<T>(t: Tree<T>, a: T, b: T)
    ensures Inorder(Rename(t, a, b)) == SwapSeq(Inorder(t), a, b)
  {
    if t.Branch? {
      RenameInorder(t.left, a, b);
      RenameInorder(t.right, a, b);
      SwapSeqConcat(Inorder(t.left), [t.elem], a, b);
      SwapSeqConcat(Inorder(t.left) + [t.elem], Inorder(t.right), a, b);
    }
  }

  lemma {:induction false} RenamePathInorder<T>(p: Path<T>, a: T, b: T)
    ensures Before(RenamePath(p, a, b)) == SwapSeq(Before(p), a, b)
    ensures After(RenamePath(p, a, b)) == SwapSeq(After(p), a, b)
    decreases p
  {
    match p
    case Top =>
    case InLeft(up, x, c, r) =>
      RenamePathInorder(up, a, b);
      RenameInorder(r, a, b);
      SwapSeqConcat([x], Inorder(r), a, b);
      SwapSeqConcat([x] + Inorder(r), After(up), a, b);
    case InRight(up, l, x, c) =>
      RenamePathInorder(up, a, b);
      RenameInorder(l, a, b);
      SwapSeqConcat(Before(up), Inorder(l), a, b);
      SwapSeqConcat(Before(up) + Inorder(l), [x], a, b);
  }

  // ---------- taking a node with at most one child out ----------

  function OnlyChild<T>(t: Tree<T>): Tree<T>
    requires t.Branch? && (t.left.Leaf? || t.right.Leaf?)
  {
    if t.right.Leaf? then t.left else t.right
  }

  /** The tree left when the top of `t`, which has at most one child, is unlinked. */
  function Spliced<T>(nil: Color, p: Path<T>, t: Tree<T>): Tree<T>
    requires t.Branch? && (t.left.Leaf? || t.right.Leaf?)
  {
    var c := OnlyChild(t);
    if t.color == Red || (c.Leaf? && nil == Red) then Plug(p, c) else RemoveFix(p, c)
  }

  /** A black childless node below the root goes while the sentinel is red: the loop
      takes the sentinel for a red child and stops at once. */
  predicate RedNilHole<T>(nil: Color, p: Path<T>, t: Tree<T>)
    requires t.Branch?
  {
    nil == Red && !p.Top? && t.color == Black && t.left.Leaf? && t.right.Leaf?
  }

  lemma SplicedInorder<T>(nil: Color, p: Path<T>, t: Tree<T>)
    requires t.Branch? && (t.left.Leaf? || t.right.Leaf?)
    ensures Inorder(Spliced(nil, p, t)) == Before(p) + Inorder(t.left) + Inorder(t.right) + After(p)
  {
    var c := OnlyChild(t);
    RemoveFixInorder(p, c);
    PlugInorder(p, c);
    assert Inorder(c) == Inorder(t.left) + Inorder(t.right);
    assert Before(p) + (Inorder(t.left) + Inorder(t.right)) == Before(p) + Inorder(t.left) + Inorder(t.right);
  }

  lemma SplicedRedBlack<T>(nil: Color, p: Path<T>, t: Tree<T>)
    requires t.Branch? && (t.left.Leaf? || t.right.Leaf?) && RedBlack(Plug(p, t))
    ensures RedBlack(Spliced(nil, p, t)) <==> !RedNilHole(nil, p, t)
    ensures t.color == Black ==> OneShort(p, OnlyChild(t)) && (OnlyChild(t).Branch? ==> OnlyChild(t).color == Red)
  {
    var c := OnlyChild(t);
    PlugRedBlack(p, t);
    PlugRedBlack(p, c);
    if t.color == Black {
      assert BlackHeight(c) == 0;
      RemoveFixRedBlack(p, c);
    }
  }

  /** The loop that follows the unlinking, if any, ends at once or meets real brothers only. */
  predicate Repairable<T>(nil: Color, p: Path<T>, t: Tree<T>)
    requires t.Branch? && (t.left.Leaf? || t.right.Leaf?)
  {
    var c := OnlyChild(t);
    t.color == Red || if nil == Red then c.Leaf? || c.color == Red else BrothersReal(p, TreeColor(c))
  }

  lemma RedBlackRepairable<T>(nil: Color, p: Path<T>, t: Tree<T>)
    requires t.Branch? && (t.left.Leaf? || t.right.Leaf?) && RedBlack(Plug(p, t))
    ensures Repairable(nil, p, t)
  {
    SplicedRedBlack(nil, p, t);
    if t.color == Black {
      OneShortBrothers(p, OnlyChild(t));
    }
  }

  lemma SplicedColors<T>(nil: Color, p: Path<T>, t: Tree<T>)
    requires t.Branch? && (t.left.Leaf? || t.right.Leaf?) && Repairable(nil, p, t)
    requires NoRedRed(Plug(p, t)) && TreeColor(Plug(p, t)) == Black
    ensures NoRedRed(Spliced(nil, p, t)) && TreeColor(Spliced(nil, p, t)) == Black
    ensures ColorsFit(p, OnlyChild(t))
  {
    var c := OnlyChild(t);
    PlugNoRedRed(p, t);
    PlugNoRedRed(p, c);
    if t.color == Black && !(c.Leaf? && nil == Red) {
      RemoveFixColors(p, c);
    }
  }

  // ---------- taking any node out ----------

  // The way from t down to its first node.
  function Leftmost<T>(p: Path<T>, t: Tree<T>): (r: (Path<T>, Tree<T>))
    requires t.Branch?
    ensures r.1.Branch? && r.1.left.Leaf?
    decreases t
  {
    if t.left.Leaf? then (p, t) else Leftmost(InLeft(p, t.elem, t.color, t.right), t.left)
  }

  /** The place that goes when the top of `t` is removed: its own, or its successor's. */
  function Vacated<T>(p: Path<T>, t: Tree<T>): (r: (Path<T>, Tree<T>))
    requires t.Branch?
    ensures r.1.Branch? && (r.1.left.Leaf? || r.1.right.Leaf?)
  {
    if t.left.Branch? && t.right.Branch? then Leftmost(InRight(p, t.left, t.elem, t.color), t.right) else (p, t)
  }

  lemma {:induction false} LeftmostIs<T>(p: Path<T>, t: Tree<T>)
    requires t.Branch?
    ensures var (q, s) := Leftmost(p, t);
      Plug(q, s) == Plug(p, t) && Before(q) == Before(p)
    decreases t
  {
    if t.left.Branch? {
      LeftmostIs(InLeft(p, t.elem, t.color, t.right), t.left);
    }
  }

  lemma VacatedIs<T>(p: Path<T>, t: Tree<T>)
    requires t.Branch?
    ensures Plug(Vacated(p, t).0, Vacated(p, t).1) == Plug(p, t)
  {
    if t.left.Branch? && t.right.Branch? {
      LeftmostIs(InRight(p, t.left, t.elem, t.color), t.right);
    }
  }

  /** The tree `rb_tree_remove` leaves when its node is the top of `t`: the node trades
      places with its successor when it has two children, and is then unlinked. */
  function Removed<T(==)>(nil: Color, p: Path<T>, t: Tree<T>): Tree<T>
    requires t.Branch?
  {
    var (q, s) := Vacated(p, t);
    assert Rename(s.left, t.elem, s.elem).Leaf? <==> s.left.Leaf?;
    assert Rename(s.right, t.elem, s.elem).Leaf? <==> s.right.Leaf?;
    Spliced(nil, RenamePath(q, t.elem, s.elem), Rename(s, t.elem, s.elem))
  }

  lemma {:induction false} RenameSame<T>(t: Tree<T>, a: T)
    ensures Rename(t, a, a) == t
  {
    if t.Branch? {
      RenameSame(t.left, a);
      RenameSame(t.right, a);
    }
  }

  lemma {:induction false} RenamePathSame<T>(p: Path<T>, a: T)
    ensures RenamePath(p, a, a) == p
    decreases p
  {
    if !p.Top? {
      RenamePathSame(p.up, a);
      RenameSame(Sibling(p), a);
    }
  }

  lemma {:induction false} RenamePlug<T>(p: Path<T>, t: Tree<T>, a: T, b: T)
    ensures Rename(Plug(p, t), a, b) == Plug(RenamePath(p, a, b), Rename(t, a, b))
    decreases p
  {
    if !p.Top? {
      RenamePlug(p.up, Lift(p, t), a, b);
    }
  }

  lemma SwapSeqSame<T>(s: seq<T>, a: T, b: T)
    requires a !in s && b !in s
    ensures SwapSeq(s, a, b) == s
  {
  }

  lemma NoRepeatsAround<T>(u: seq<T>, a: T, b: T, v: seq<T>)
    requires NoRepeats(u + [a] + [b] + v)
    ensures a !in u && b !in u && a !in v && b !in v
  {
    var w := u + [a] + [b] + v;
    assert w[|u|] == a && w[|u| + 1] == b;
    assert forall i | 0 <= i < |v| :: w[|u| + 2 + i] == v[i];
    assert forall i | 0 <= i < |u| :: w[i] == u[i];
  }

  lemma Reassociate<T>(a: seq<T>, b: seq<T>, c: seq<T>)
    ensures (a + b) + c == a + (b + c)
  {
  }

  lemma RenamedBefore<T>(q: Path<T>, a: T, b: T, u: seq<T>)
    requires Before(q) == u + [a] && a !in u && b !in u
    ensures Before(RenamePath(q, a, b)) == u + [b]
  {
    RenamePathInorder(q, a, b);
    SwapSeqConcat(u, [a], a, b);
    SwapSeqSame(u, a, b);
    assert SwapSeq([a], a, b) == [b];
  }

  lemma RenamedAfter<T>(q: Path<T>, r: Tree<T>, a: T, b: T, v: seq<T>)
    requires Inorder(r) + After(q) == v && a !in v && b !in v
    ensures Inorder(Rename(r, a, b)) + After(RenamePath(q, a, b)) == v
  {
    RenamePathInorder(q, a, b);
    RenameInorder(r, a, b);
    SwapSeqConcat(Inorder(r), After(q), a, b);
    SwapSeqSame(v, a, b);
  }

  lemma GlueTail<T>(x: seq<T>, before: seq<T>, r: seq<T>, after: seq<T>, v: seq<T>)
    requires x == before + [] + r + after && r + after == v
    ensures x == before + v
  {
  }

  lemma GlueHead<T>(x: seq<T>, u: seq<T>, a: T, w: seq<T>, b: T, r: seq<T>, after: seq<T>)
    requires x == u + [a] + w && x == (u + [a]) + ([] + [b] + r) + after
    ensures w == [b] + (r + after) && x == u + [a] + [b] + (r + after)
  {
    assert x[|u| + 1..] == w;
    assert x == (u + [a]) + ([b] + (r + after));
    assert x[|u| + 1..] == [b] + (r + after);
  }

  lemma SuccessorPromoted<T>(nil: Color, q: Path<T>, s: Tree<T>, a: T, u: seq<T>, v: seq<T>)
    requires s.Branch? && s.left.Leaf? && Before(q) == u + [a] && Inorder(s.right) + After(q) == v
    requires a !in u && s.elem !in u && a !in v && s.elem !in v
    ensures Rename(s, a, s.elem).left.Leaf?
    ensures Inorder(Spliced(nil, RenamePath(q, a, s.elem), Rename(s, a, s.elem))) == u + [s.elem] + v
  {
    var q', s' := RenamePath(q, a, s.elem), Rename(s, a, s.elem);
    assert s'.left == Rename(s.left, a, s.elem) == Leaf && s'.right == Rename(s.right, a, s.elem);
    var x := Inorder(Spliced(nil, q', s'));
    assert x == Before(q') + [] + Inorder(s'.right) + After(q') by {
      SplicedInorder(nil, q', s');
    }
    RenamedBefore(q, a, s.elem, u);
    RenamedAfter(q, s.right, a, s.elem, v);
    GlueTail(x, Before(q'), Inorder(s'.right), After(q'), v);
  }

  lemma RemovedInorderTwo<T>(nil: Color, p: Path<T>, t: Tree<T>, u: seq<T>, w: seq<T>)
    requires t.Branch? && t.left.Branch? && t.right.Branch?
    requires u == Before(p) + Inorder(t.left) && w == Inorder(t.right) + After(p)
    requires Inorder(Plug(p, t)) == u + [t.elem] + w && NoRepeats(u + [t.elem] + w)
    ensures Inorder(Removed(nil, p, t)) == u + w
  {
    var r := InRight(p, t.left, t.elem, t.color);
    var (q, s) := Leftmost(r, t.right);
    var v := Inorder(s.right) + After(q);
    LeftmostIs(r, t.right);
    assert Plug(r, t.right) == Plug(p, t);
    assert Before(q) == u + [t.elem];
    PlugInorder(q, s);
    assert Inorder(s) == [] + [s.elem] + Inorder(s.right);
    GlueHead(Inorder(Plug(p, t)), u, t.elem, w, s.elem, Inorder(s.right), After(q));
    NoRepeatsAround(u, t.elem, s.elem, v);
    SuccessorPromoted(nil, q, s, t.elem, u, v);
    Reassociate(u, [s.elem], v);
  }

  /** Exactly the removed element goes, and the order of the others stays. */
  lemma RemovedInorder<T>(nil: Color, p: Path<T>, t: Tree<T>)
    requires t.Branch? && NoRepeats(Inorder(Plug(p, t)))
    ensures Inorder(Plug(p, t)) == (Before(p) + Inorder(t.left)) + [t.elem] + (Inorder(t.right) + After(p))
    ensures Inorder(Removed(nil, p, t)) == (Before(p) + Inorder(t.left)) + (Inorder(t.right) + After(p))
  {
    var u, w := Before(p) + Inorder(t.left), Inorder(t.right) + After(p);
    PlugInorder(p, t);
    var l, r, x := Inorder(t.left), Inorder(t.right), t.elem;
    assert Before(p) + (l + [x] + r) + After(p) == u + [x] + w by {
      Regroup(Before(p), l, [x], r, After(p));
      Reassociate(u + [x], r, After(p));
      Reassociate(u, [x], r);
    }
    if t.left.Branch? && t.right.Branch? {
      RemovedInorderTwo(nil, p, t, u, w);
    } else {
      RemovedInorderOne(nil, p, t, u, w);
    }
  }

  lemma RemovedInorderOne<T>(nil: Color, p: Path<T>, t: Tree<T>, u: seq<T>, w: seq<T>)
    requires t.Branch? && (t.left.Leaf? || t.right.Leaf?)
    requires u == Before(p) + Inorder(t.left) && w == Inorder(t.right) + After(p)
    ensures Inorder(Removed(nil, p, t)) == u + w
  {
    RenameSame(t, t.elem);
    RenamePathSame(p, t.elem);
    SplicedInorder(nil, p, t);
    Reassociate(u, Inorder(t.right), After(p));
  }

  /** Removing keeps a red-black tree, but for the one hole a red sentinel hides. */
  lemma RemovedRedBlack<T>(nil: Color, p: Path<T>, t: Tree<T>)
    requires t.Branch? && RedBlack(Plug(p, t))
    ensures RedBlack(Removed(nil, p, t)) <==> !RedNilHole(nil, Vacated(p, t).0, Vacated(p, t).1)
  {
    VacatedIs(p, t);
    var (q, s) := Vacated(p, t);
    var a, b := t.elem, s.elem;
    var q', s' := RenamePath(q, a, b), Rename(s, a, b);
    RenamePlug(q, s, a, b);
    RenameShape(Plug(q, s), a, b);
    SplicedRedBlack(nil, q', s');
  }

  lemma {:induction false} RenameBrothers<T>(p: Path<T>, c: Color, a: T, b: T)
    ensures BrothersReal(RenamePath(p, a, b), c) <==> BrothersReal(p, c)
    decreases p
  {
    if !p.Top? {
      var w := Sibling(p);
      RenameShape(w, a, b);
      if w.Branch? {
        RenameShape(w.left, a, b);
        RenameShape(w.right, a, b);
      }
      RenameBrothers(p.up, p.color, a, b);
    }
  }

  lemma RenameRepairable<T>(nil: Color, p: Path<T>, t: Tree<T>, a: T, b: T)
    requires t.Branch? && (t.left.Leaf? || t.right.Leaf?)
    ensures Rename(t, a, b).left.Leaf? || Rename(t, a, b).right.Leaf?
    ensures Repairable(nil, RenamePath(p, a, b), Rename(t, a, b)) <==> Repairable(nil, p, t)
  {
    RenameShape(OnlyChild(t), a, b);
    assert Rename(t, a, b).left == Rename(t.left, a, b) && Rename(t, a, b).right == Rename(t.right, a, b);
    assert (Rename(t.left, a, b).Leaf? <==> t.left.Leaf?) && (Rename(t.right, a, b).Leaf? <==> t.right.Leaf?);
    assert OnlyChild(Rename(t, a, b)) == Rename(OnlyChild(t), a, b);
    RenameBrothers(p, TreeColor(OnlyChild(t)), a, b);
  }

  /** Removing keeps the colours right in any tree whose vacated place can be repaired. */
  lemma RemovedColors<T>(nil: Color, p: Path<T>, t: Tree<T>)
    requires t.Branch? && Repairable(nil, Vacated(p, t).0, Vacated(p, t).1)
    requires NoRedRed(Plug(p, t)) && TreeColor(Plug(p, t)) == Black
    ensures NoRedRed(Removed(nil, p, t)) && TreeColor(Removed(nil, p, t)) == Black
  {
    VacatedIs(p, t);
    var (q, s) := Vacated(p, t);
    RenamePlug(q, s, t.elem, s.elem);
    RenameShape(Plug(q, s), t.elem, s.elem);
    RenameRepairable(nil, q, s, t.elem, s.elem);
    SplicedColors(nil, RenamePath(q, t.elem, s.elem), Rename(s, t.elem, s.elem));
  }

  /** A red-black tree can lose any of its nodes. */
  lemma RedBlackRemovable<T>(nil: Color, p: Path<T>, t: Tree<T>)
    requires t.Branch? && RedBlack(Plug(p, t))
    ensures Repairable(nil, Vacated(p, t).0, Vacated(p, t).1)
  {
    VacatedIs(p, t);
    RedBlackRepairable(nil, Vacated(p, t).0, Vacated(p, t).1);
  }
}
