/** The bound tree.h states: the height of a red-black tree is at most 2 lg(n + 1). */
module RBHeight {
  import opened Powers
  import opened RBShape
  import opened RBBalance

  ghost function Height(t: Tree): nat {
    if t.Nil? then 0
    else 1 + if Height(t.l) > Height(t.r) then Height(t.l) else Height(t.r)
  }

  /** At most every other node on a path is red. */
  lemma {:induction false} HeightByBlacks(t: Tree)
    requires Balanced(t) && NoRedRed(t)
    ensures Height(t) <= 2 * BlackHeight(t) + if Black(t) then 0 else 1
  {
    if t.Bin? {
      HeightByBlacks(t.l);
      HeightByBlacks(t.r);
    }
  }

  lemma {:induction false} SizeByBlacks(t: Tree)
    requires Balanced(t)
    ensures Pow2(BlackHeight(t)) <= |Inorder(t)| + 1
  {
    if t.Bin? {
      SizeByBlacks(t.l);
      SizeByBlacks(t.r);
    }
  }

  lemma SquareMonotone(a: nat, b: nat)
    requires a <= b
    ensures a * a <= b * b
  {
  }

  /** 2 to the height is at most (n + 1) squared, n being the number of nodes. */
  lemma HeightBound(t: Tree)
    requires RedBlackTree(t)
    ensures Pow2(Height(t)) <= (|Inorder(t)| + 1) * (|Inorder(t)| + 1)
  {
    HeightByBlacks(t);
    SizeByBlacks(t);
    Pow2Monotone(Height(t), 2 * BlackHeight(t));
    Pow2Double(BlackHeight(t));
    SquareMonotone(Pow2(BlackHeight(t)), |Inorder(t)| + 1);
  }
}
