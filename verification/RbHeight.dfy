/** Why a search is short: the height of a red-black tree is logarithmic. */
module RbHeight {
  import opened Arithmetic
  import opened RbTheory

  function Height<T>(t: Tree<T>): nat {
    if t.Leaf? then 0
    else 1 + if Height(t.left) < Height(t.right) then Height(t.right) else Height(t.left)
  }

  lemma {:induction false} Pow2Monotone(m: nat, n: nat)
    requires m <= n
    ensures Pow2(m) <= Pow2(n)
  {
    if m < n {
      Pow2Monotone(m, n - 1);
    }
  }

  lemma {:induction false} Pow2Double(n: nat)
    ensures Pow2(2 * n) == Pow2(n) * Pow2(n)
  {
    if n > 0 {
      Pow2Double(n - 1);
      assert Pow2(2 * n) == 4 * Pow2(2 * (n - 1));
    }
  }

  // At most one red node between two black ones.
  lemma {:induction false} HeightAtMostTwiceBlack<T>(t: Tree<T>)
    requires Balanced(t) && NoRedRed(t)
    ensures Height(t) <= 2 * BlackHeight(t) + 1 - Weight(TreeColor(t))
  {
    if t.Branch? {
      HeightAtMostTwiceBlack(t.left);
      HeightAtMostTwiceBlack(t.right);
    }
  }

  lemma {:induction false} BlackHeightFills<T>(t: Tree<T>)
    requires Balanced(t)
    ensures Pow2(BlackHeight(t)) <= |Inorder(t)| + 1
  {
    if t.Branch? {
      BlackHeightFills(t.left);
      BlackHeightFills(t.right);
    }
  }

  lemma Squares(b: nat, n: nat)
    requires b <= n
    ensures b * b <= n * n
  {
    assert b * b <= n * b <= n * n;
  }

  /** 2^height <= (n + 1)^2: the height is at most 2 log2(n + 1). */
  lemma HeightLogarithmic<T>(t: Tree<T>)
    requires RedBlack(t)
    ensures Pow2(Height(t)) <= (|Inorder(t)| + 1) * (|Inorder(t)| + 1)
  {
    var n, b := |Inorder(t)| + 1, Pow2(BlackHeight(t));
    HeightAtMostTwiceBlack(t);
    Pow2Monotone(Height(t), 2 * BlackHeight(t));
    Pow2Double(BlackHeight(t));
    BlackHeightFills(t);
    Squares(b, n);
  }
}
