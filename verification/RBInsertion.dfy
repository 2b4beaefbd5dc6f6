/** The steps of RB_INSERT_COLOR, as changes to a tree split at the red node being raised. */
module RBInsertion {
  import opened RBShape
  import opened RBBalance

  /** The red node at the root of `t` may have a red parent; nothing else is wrong. */
  ghost predicate Inserting(c: Ctx, t: Tree) {
    && t.Bin? && t.red && NoRedRed(t) && Balanced(t)
    && CtxBalanced(c, BlackHeight(t)) && CtxColoured(c, false)
  }

  /** The loop runs while the parent is red. */
  ghost predicate RedParent(c: Ctx) {
    c.Frame? && c.red
  }

  ghost function Grand(c: Ctx): Ctx
    requires c.Frame? && c.up.Frame?
  {
    c.up.up
  }

  /** The split at the sibling of the hole. */
  ghost function Across(c: Ctx, t: Tree): Ctx
    requires c.Frame?
  {
    Frame(c.up, !c.onLeft, c.n, c.red, t)
  }

  lemma AcrossPlug(c: Ctx, t: Tree, s: Tree)
    requires c.Frame?
    ensures Plug(Across(c, t), s) == Plug(c.(sib := s), t)
  {
  }

  /** A red parent is not the root, and its own parent is black. */
  lemma Grandparent(c: Ctx, t: Tree)
    requires Inserting(c, t) && RedParent(c)
    ensures c.up.Frame? && !c.up.red && Black(c.sib)
  {
    assert CtxColoured(c.up, true);
  }

  /** Red uncle: parent and uncle turn black, the grandparent red. */
  ghost function Recoloured(c: Ctx, t: Tree): Tree
    requires c.Frame? && c.up.Frame? && c.up.sib.Bin?
  {
    Painted(Fill(c.up.(sib := Painted(c.up.sib, false)), Painted(Fill(c, t), false)), true)
  }

  lemma RecolouredInserting(c: Ctx, t: Tree)
    requires Inserting(c, t) && RedParent(c) && c.up.Frame? && !Black(c.up.sib)
    ensures Inserting(Grand(c), Recoloured(c, t))
  {
    assert CtxBalanced(c.up, BlackHeight(t)) && CtxColoured(c.up, true);
    assert CtxBalanced(c.up.up, BlackHeight(t) + 1) && CtxColoured(c.up.up, false);
  }

  /** Inner child: after the rotation at the parent, the old parent is the outer child. */
  ghost function StraightCtx(c: Ctx, t: Tree): Ctx
    requires c.Frame? && c.up.Frame? && t.Bin?
  {
    Frame(c.up, !c.onLeft, t.n, true, if c.onLeft then t.l else t.r)
  }

  ghost function StraightTree(c: Ctx, t: Tree): Tree
    requires c.Frame? && t.Bin?
  {
    if c.onLeft then Bin(t.r, c.n, true, c.sib) else Bin(c.sib, c.n, true, t.l)
  }

  lemma Straightened(c: Ctx, t: Tree)
    requires Inserting(c, t) && RedParent(c) && c.up.Frame?
    ensures Inserting(StraightCtx(c, t), StraightTree(c, t)) && RedParent(StraightCtx(c, t))
    ensures !c.onLeft ==> Fill(StraightCtx(c, t), StraightTree(c, t)) == RotatedLeft(Fill(c, t))
    ensures c.onLeft ==> Fill(StraightCtx(c, t), StraightTree(c, t)) == RotatedRight(Fill(c, t))
  {
  }

  /** Outer child, black uncle: parent turns black and rises over the now red grandparent. */
  ghost function Raised(c: Ctx): Ctx
    requires c.Frame? && c.up.Frame?
  {
    var g := c.up;
    Frame(g.up, c.onLeft, c.n, false, if c.onLeft then Bin(c.sib, g.n, true, g.sib) else Bin(g.sib, g.n, true, c.sib))
  }

  lemma RaisedInserting(c: Ctx, t: Tree)
    requires Inserting(c, t) && RedParent(c) && c.up.Frame? && c.onLeft == c.up.onLeft && Black(c.up.sib)
    ensures Inserting(Raised(c), t)
    ensures var gp := Painted(Fill(c.up, Painted(Fill(c, t), false)), true);
      Fill(Raised(c), t) == if c.onLeft then RotatedRight(gp) else RotatedLeft(gp)
  {
    assert CtxBalanced(c.up, BlackHeight(t)) && CtxColoured(c.up, true);
    assert CtxBalanced(c.up.up, BlackHeight(t) + 1) && CtxColoured(c.up.up, false);
  }

  /** When the loop stops, painting the root black leaves a red-black tree. */
  lemma InsertionDone(c: Ctx, t: Tree)
    requires Inserting(c, t) && !RedParent(c)
    ensures c.Top? ==> RedBlackTree(Painted(t, false))
    ensures c.Frame? ==> RedBlackTree(Plug(c, t))
  {
    PlugRedBlack(c, t);
  }
}
