/** The colour rules of tree.h's header comment, for whole trees and for trees with a hole. */
module RBBalance {
  import opened Sequences
  import opened RBShape

  ghost predicate Black(t: Tree) {
    t.Bin? ==> !t.red
  }

  /** Black nodes on the leftmost path. */
  ghost function BlackHeight(t: Tree): nat {
    if t.Nil? then 0 else BlackHeight(t.l) + if t.red then 0 else 1
  }

  /** Every path to a leaf has the same number of black nodes. */
  ghost predicate Balanced(t: Tree) {
    t.Bin? ==> Balanced(t.l) && Balanced(t.r) && BlackHeight(t.l) == BlackHeight(t.r)
  }

  ghost predicate NoRedRed(t: Tree) {
    t.Bin? ==> (t.red ==> Black(t.l) && Black(t.r)) && NoRedRed(t.l) && NoRedRed(t.r)
  }

  ghost predicate RedBlackTree(t: Tree) {
    Black(t) && Balanced(t) && NoRedRed(t)
  }

  /** `c` is balanced around a hole of black height `h`. */
  ghost predicate CtxBalanced(c: Ctx, h: nat) {
    c.Frame? ==>
      && Balanced(c.sib) && BlackHeight(c.sib) == h
      && CtxBalanced(c.up, if c.red then h else h + 1)
  }

  /** `c` has a black root and no two reds in a row, given the colour of what fills the hole. */
  ghost predicate CtxColoured(c: Ctx, red: bool) {
    if c.Top? then !red
    else (c.red ==> !red && Black(c.sib)) && NoRedRed(c.sib) && CtxColoured(c.up, c.red)
  }

  lemma {:induction false} PlugRedBlack(c: Ctx, t: Tree)
    ensures RedBlackTree(Plug(c, t)) <==>
            Balanced(t) && NoRedRed(t) && CtxBalanced(c, BlackHeight(t)) && CtxColoured(c, !Black(t))
  {
    if c.Frame? {
      PlugRedBlack(c.up, Fill(c, t));
    }
  }

  ghost function Painted(t: Tree, red: bool): Tree
    requires t.Bin?
  {
    Bin(t.l, t.n, red, t.r)
  }

  ghost function RotatedLeft(t: Tree): Tree
    requires t.Bin? && t.r.Bin?
  {
    Bin(Bin(t.l, t.n, t.red, t.r.l), t.r.n, t.r.red, t.r.r)
  }

  ghost function RotatedRight(t: Tree): Tree
    requires t.Bin? && t.l.Bin?
  {
    Bin(t.l.l, t.l.n, t.l.red, Bin(t.l.r, t.n, t.red, t.r))
  }

  /** A rotation moves no node in order. */
  lemma RotationInorder(t: Tree)
    requires t.Bin?
    ensures t.r.Bin? ==> Inorder(RotatedLeft(t)) == Inorder(t) && Nodes(RotatedLeft(t)) == Nodes(t)
    ensures t.l.Bin? ==> Inorder(RotatedRight(t)) == Inorder(t) && Nodes(RotatedRight(t)) == Nodes(t)
  {
    if t.r.Bin? {
      Regroup(Inorder(t.l), [t.n], Inorder(t.r.l), [t.r.n], Inorder(t.r.r));
    }
    if t.l.Bin? {
      Regroup(Inorder(t.l.l), [t.l.n], Inorder(t.l.r), [t.n], Inorder(t.r));
    }
  }

  /** Filling the hole with the same nodes in the same order keeps the whole tree's nodes and order. */
  lemma {:induction false} Refilled(c: Ctx, t: Tree, t': Tree)
    requires Inorder(t') == Inorder(t) && Nodes(t') == Nodes(t)
    ensures Inorder(Plug(c, t')) == Inorder(Plug(c, t)) && Nodes(Plug(c, t')) == Nodes(Plug(c, t))
    ensures Root(Plug(c, t')) == if c.Top? then Root(t') else Root(Plug(c, t))
  {
    if c.Frame? {
      Refilled(c.up, Fill(c, t), Fill(c, t'));
    }
  }
}
