/** The steps of RB_REMOVE_COLOR, as changes to a tree split where a black node is missing. */
module RBRemoval {
  import opened RBShape
  import opened RBBalance

  /** Paths through `t` are one black node short, and `t` may be red under a red parent; nothing else is wrong. */
  ghost predicate Removing(c: Ctx, t: Tree) {
    && Balanced(t) && (t.Bin? ==> NoRedRed(t.l) && NoRedRed(t.r))
    && CtxBalanced(c, BlackHeight(t) + 1) && CtxColoured(c, false)
  }

  /** The loop runs while `t` is black and not the whole tree. */
  ghost predicate Short(c: Ctx, t: Tree) {
    c.Frame? && Black(t)
  }

  // The child of the sibling on the hole's side, and the other one.
  ghost function Near(onLeft: bool, w: Tree): Tree
    requires w.Bin?
  {
    if onLeft then w.l else w.r
  }

  ghost function Far(onLeft: bool, w: Tree): Tree
    requires w.Bin?
  {
    if onLeft then w.r else w.l
  }

  ghost function Join(onLeft: bool, near: Tree, n: Node, red: bool, far: Tree): Tree {
    if onLeft then Bin(near, n, red, far) else Bin(far, n, red, near)
  }

  /** The sibling is always there: null is never dereferenced. */
  lemma SiblingExists(c: Ctx, t: Tree)
    requires Removing(c, t) && c.Frame?
    ensures c.sib.Bin?
    ensures !Black(c.sib) ==> c.sib.l.Bin? && c.sib.r.Bin? && !c.red
  {
  }

  /** Red sibling: it is raised over the parent, whose new sibling is black. */
  ghost function SiblingRaised(c: Ctx): Ctx
    requires c.Frame? && c.sib.Bin?
  {
    var w := c.sib;
    Frame(Frame(c.up, c.onLeft, w.n, false, Far(c.onLeft, w)), c.onLeft, c.n, true, Near(c.onLeft, w))
  }

  lemma SiblingRaisedRemoving(c: Ctx, t: Tree)
    requires Removing(c, t) && Short(c, t) && !Black(c.sib)
    ensures Removing(SiblingRaised(c), t) && SiblingRaised(c).sib.Bin? && Black(SiblingRaised(c).sib)
    ensures var p := Painted(Fill(c.(sib := Painted(c.sib, false)), t), true);
      Fill(SiblingRaised(c).up, Fill(SiblingRaised(c), t)) == if c.onLeft then RotatedLeft(p) else RotatedRight(p)
  {
    SiblingExists(c, t);
    assert CtxBalanced(c.up, BlackHeight(t) + 2) && CtxColoured(c.up, false);
    var f := SiblingRaised(c);
    assert CtxBalanced(f.up, BlackHeight(t) + 1) && CtxColoured(f.up, true);
  }

  /** Black sibling with black children: it turns red and the parent is short instead. */
  lemma ShortageRises(c: Ctx, t: Tree)
    requires Removing(c, t) && Short(c, t) && c.sib.Bin? && Black(c.sib) && Black(c.sib.l) && Black(c.sib.r)
    ensures Removing(c.up, Fill(c.(sib := Painted(c.sib, true)), t))
  {
    assert NoRedRed(c.sib) && NoRedRed(t);
    assert CtxColoured(c.up, c.red) && CtxColoured(c.up, false);
  }

  /** Only the near nephew is red: it is raised over the sibling. */
  ghost function NephewRaised(onLeft: bool, w: Tree): Tree
    requires w.Bin? && Near(onLeft, w).Bin?
  {
    var x := Near(onLeft, w);
    Join(onLeft, Near(onLeft, x), x.n, false, Join(onLeft, Far(onLeft, x), w.n, true, Far(onLeft, w)))
  }

  lemma NephewRaisedRemoving(c: Ctx, t: Tree)
    requires Removing(c, t) && Short(c, t) && c.sib.Bin? && Black(c.sib)
    requires !Black(Near(c.onLeft, c.sib)) && Black(Far(c.onLeft, c.sib))
    ensures var w := NephewRaised(c.onLeft, c.sib);
      Removing(c.(sib := w), t) && Black(w) && !Black(Far(c.onLeft, w))
    ensures c.onLeft ==>
              NephewRaised(true, c.sib) == RotatedRight(Painted(c.sib.(l := Painted(c.sib.l, false)), true))
    ensures !c.onLeft ==>
              NephewRaised(false, c.sib) == RotatedLeft(Painted(c.sib.(r := Painted(c.sib.r, false)), true))
  {
    var x, w := Near(c.onLeft, c.sib), NephewRaised(c.onLeft, c.sib);
    assert NoRedRed(x) && Balanced(x);
    var low := Join(c.onLeft, Far(c.onLeft, x), c.sib.n, true, Far(c.onLeft, c.sib));
    assert Balanced(c.sib.l) && Balanced(c.sib.r) && BlackHeight(x) == BlackHeight(Far(c.onLeft, x));
    assert Balanced(low) && NoRedRed(low) && BlackHeight(low) == BlackHeight(x);
    assert Balanced(w) && BlackHeight(w) == BlackHeight(c.sib) && NoRedRed(w);
  }

  /** The far nephew is red: one rotation makes up for the missing black node. */
  ghost function Settled(c: Ctx, t: Tree): Tree
    requires c.Frame? && c.sib.Bin? && Far(c.onLeft, c.sib).Bin?
  {
    var w := c.sib;
    Join(c.onLeft, Join(c.onLeft, t, c.n, false, Near(c.onLeft, w)), w.n, c.red, Painted(Far(c.onLeft, w), false))
  }

  lemma SettledRedBlack(c: Ctx, t: Tree)
    requires Removing(c, t) && Short(c, t) && c.sib.Bin? && Black(c.sib) && !Black(Far(c.onLeft, c.sib))
    ensures RedBlackTree(Plug(c.up, Settled(c, t)))
    ensures c.onLeft ==>
              Settled(c, t) == RotatedLeft(Bin(t, c.n, false, Bin(c.sib.l, c.sib.n, c.red, Painted(c.sib.r, false))))
    ensures !c.onLeft ==>
              Settled(c, t) == RotatedRight(Bin(Bin(Painted(c.sib.l, false), c.sib.n, c.red, c.sib.r), c.n, false, t))
  {
    var s := Settled(c, t);
    assert NoRedRed(t) && NoRedRed(c.sib) && Balanced(c.sib);
    assert NoRedRed(c.sib.l) && NoRedRed(c.sib.r) && Balanced(c.sib.l) && Balanced(c.sib.r);
    var low, far := Join(c.onLeft, t, c.n, false, Near(c.onLeft, c.sib)), Painted(Far(c.onLeft, c.sib), false);
    assert BlackHeight(c.sib) == BlackHeight(t) + 1 && BlackHeight(c.sib.l) == BlackHeight(t) == BlackHeight(c.sib.r);
    assert Balanced(low) && NoRedRed(low) && BlackHeight(low) == BlackHeight(t) + 1;
    assert Balanced(far) && NoRedRed(far) && BlackHeight(far) == BlackHeight(t) + 1;
    assert Balanced(s) && NoRedRed(s);
    assert CtxColoured(c.up, c.red) && CtxBalanced(c.up, BlackHeight(s));
    PlugRedBlack(c.up, s);
  }

  /** When the loop stops without settling, painting `t` black makes up for the missing node. */
  lemma RemovalDone(c: Ctx, t: Tree)
    requires Removing(c, t) && !Short(c, t)
    ensures t.Bin? ==> RedBlackTree(Plug(c, Painted(t, false)))
    ensures t.Nil? ==> RedBlackTree(Plug(c, t))
  {
    if t.Bin? {
      PlugRedBlack(c, Painted(t, false));
    } else {
      PlugRedBlack(c, t);
    }
  }

  // ---------- taking a node out ----------

  /** `inner` is a path inside the tree that fills `c`. */
  ghost function Over(inner: Ctx, c: Ctx): Ctx {
    if inner.Top? then c else inner.(up := Over(inner.up, c))
  }

  ghost predicate LeftSpine(c: Ctx) {
    c.Frame? ==> c.onLeft && LeftSpine(c.up)
  }

  lemma {:induction false} OverPlug(inner: Ctx, c: Ctx, t: Tree)
    ensures Plug(Over(inner, c), t) == Plug(c, Plug(inner, t))
  {
    if inner.Frame? {
      OverPlug(inner.up, c, Fill(inner, t));
    }
  }

  /** The successor's hole, `x` standing for the node whose right subtree is walked down. */
  ghost function SuccessorCtx(spine: Ctx, c: Ctx, t: Tree, x: Node): Ctx
    requires t.Bin?
  {
    Over(spine, Frame(c, false, x, t.red, t.l))
  }

  /** Colours and heights around the hole do not depend on which node stands in the place. */
  lemma {:induction false} SuccessorColours(spine: Ctx, c: Ctx, t: Tree, x: Node, y: Node, h: nat, red: bool)
    requires t.Bin? && LeftSpine(spine)
    ensures CtxBalanced(SuccessorCtx(spine, c, t, x), h) ==> CtxBalanced(SuccessorCtx(spine, c, t, y), h)
    ensures CtxColoured(SuccessorCtx(spine, c, t, x), red) ==> CtxColoured(SuccessorCtx(spine, c, t, y), red)
    ensures Before(SuccessorCtx(spine, c, t, x)) == Before(c) + Inorder(t.l) + [x]
    ensures After(SuccessorCtx(spine, c, t, x)) == After(SuccessorCtx(spine, c, t, y))
  {
    if spine.Frame? {
      SuccessorColours(spine.up, c, t, x, y, if spine.red then h else h + 1, spine.red);
    }
  }

  /** Taking a node with at most one child out of a red-black tree leaves it short exactly if that node was black. */
  lemma TakenOut(c: Ctx, t: Tree, k: Tree)
    requires t.Bin? && (t.l.Nil? || t.r.Nil?) && k == OnlyChild(t)
    requires Balanced(t) && NoRedRed(t) && CtxBalanced(c, BlackHeight(t)) && CtxColoured(c, t.red)
    ensures !t.red ==> Removing(c, k)
    ensures t.red ==> RedBlackTree(Plug(c, k))
  {
    if t.red {
      assert BlackHeight(k) == 0 && Black(k);
      assert CtxColoured(c, false);
      PlugRedBlack(c, k);
    }
  }
}
