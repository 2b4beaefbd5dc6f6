/** What the rotations and colour writes of tree.h do to a tree laid out in memory. */
module RBMemory {
  import opened RBShape
  import opened RBBalance

  /** The stores of RB_ROTATE_LEFT at `x`. */
  ghost predicate TurnsLeft(m: Memory, m': Memory, x: Node)
    requires CanTurnLeft(m, x)
  {
    var y := m[x].right;
    var b := m[y].left;
    var p := m[x].parent;
    && m'.Keys == m.Keys
    && (forall n :: n in m && n != x && n != y && n != b && n != p ==> m'[n] == m[n])
    && m'[x] == m[x].(right := b, parent := y)
    && m'[y] == m[y].(left := x, parent := p)
    && (b != null ==> b in m && m'[b] == m[b].(parent := x))
    && (p != null ==> p in m && m'[p] == if m[p].left == x then m[p].(left := y) else m[p].(right := y))
  }

  /** The stores of RB_ROTATE_RIGHT at `y`. */
  ghost predicate TurnsRight(m: Memory, m': Memory, y: Node)
    requires CanTurnRight(m, y)
  {
    var x := m[y].left;
    var b := m[x].right;
    var p := m[y].parent;
    && m'.Keys == m.Keys
    && (forall n :: n in m && n != x && n != y && n != b && n != p ==> m'[n] == m[n])
    && m'[y] == m[y].(left := b, parent := x)
    && m'[x] == m[x].(right := y, parent := p)
    && (b != null ==> b in m && m'[b] == m[b].(parent := y))
    && (p != null ==> p in m && m'[p] == if m[p].left == y then m[p].(left := x) else m[p].(right := x))
  }

  /** A left rotation at `x` finds the nodes it stores to, and they are different nodes. */
  ghost predicate CanTurnLeft(m: Memory, x: Node) {
    && x in m && m[x].right != null && m[x].right in m
    && var y := m[x].right;
    && var b := m[y].left;
    && var p := m[x].parent;
    && x != y && b != x && b != y && p != x && p != y
    && (b != null ==> b in m && b != p) && (p != null ==> p in m)
  }

  ghost predicate CanTurnRight(m: Memory, y: Node) {
    && y in m && m[y].left != null && m[y].left in m
    && var x := m[y].left;
    && var b := m[x].right;
    && var p := m[y].parent;
    && x != y && b != x && b != y && p != x && p != y
    && (b != null ==> b in m && b != p) && (p != null ==> p in m)
  }

  /** Two nodes and three subtrees inside `c`, all apart. */
  ghost predicate Apart(c: Ctx, a: Tree, x: Node, b: Tree, y: Node, d: Tree) {
    && x != y && x !in Nodes(a) && x !in Nodes(b) && x !in Nodes(d) && x !in CtxNodes(c)
    && y !in Nodes(a) && y !in Nodes(b) && y !in Nodes(d) && y !in CtxNodes(c)
    && Nodes(a) !! Nodes(b) && Nodes(a) !! Nodes(d) && Nodes(b) !! Nodes(d)
    && Nodes(a) !! CtxNodes(c) && Nodes(b) !! CtxNodes(c) && Nodes(d) !! CtxNodes(c)
    && Distinct(a) && Distinct(b) && Distinct(d) && DistinctCtx(c)
  }

  lemma ApartDistinct(c: Ctx, a: Tree, x: Node, xr: bool, b: Tree, y: Node, yr: bool, d: Tree)
    ensures
      var t := Bin(a, x, xr, Bin(b, y, yr, d));
      Apart(c, a, x, b, y, d) <==> DistinctCtx(c) && Distinct(t) && Nodes(t) !! CtxNodes(c)
    ensures
      var t := Bin(Bin(a, x, xr, b), y, yr, d);
      Apart(c, a, x, b, y, d) <==> DistinctCtx(c) && Distinct(t) && Nodes(t) !! CtxNodes(c)
  {
  }

  lemma {:induction false} TurnLeftRep(m: Memory, m': Memory, c: Ctx, a: Tree, x: Node, xr: bool, b: Tree,
                                       y: Node, yr: bool, d: Tree)
    requires RepCtx(m, c, x) && Rep(m, Bin(a, x, xr, Bin(b, y, yr, d)), Parent(c))
    requires Apart(c, a, x, b, y, d)
    requires Rep(m, Bin(b, y, yr, d), x) && CanTurnLeft(m, x) && TurnsLeft(m, m', x)
    ensures RepCtx(m', c, y) && Rep(m', Bin(Bin(a, x, xr, b), y, yr, d), Parent(c))
  {
    assert m[x] == Cell(Root(a), y, Parent(c), xr);
    assert m[y] == Cell(Root(b), Root(d), x, yr);
    FrameRep(m, m', a, x);
    FrameRep(m, m', d, y);
    Reparent(m, m', b, y, x);
    assert Rep(m', Bin(a, x, xr, b), y);
    Redirect(m, m', c, x, y);
  }

  lemma {:induction false} TurnRightRep(m: Memory, m': Memory, c: Ctx, a: Tree, x: Node, xr: bool, b: Tree,
                                        y: Node, yr: bool, d: Tree)
    requires RepCtx(m, c, y) && Rep(m, Bin(Bin(a, x, xr, b), y, yr, d), Parent(c))
    requires Apart(c, a, x, b, y, d)
    requires Rep(m, Bin(a, x, xr, b), y) && CanTurnRight(m, y) && TurnsRight(m, m', y)
    ensures RepCtx(m', c, x) && Rep(m', Bin(a, x, xr, Bin(b, y, yr, d)), Parent(c))
  {
    assert m[y] == Cell(x, Root(d), Parent(c), yr);
    assert m[x] == Cell(Root(a), Root(b), y, xr);
    FrameRep(m, m', a, x);
    FrameRep(m, m', d, y);
    Reparent(m, m', b, x, y);
    assert Rep(m', Bin(b, y, yr, d), x);
    Redirect(m, m', c, y, x);
  }

  /** The stores of RB_ROTATE_LEFT at the root of `t` make the tree rotated at `t`. */
  lemma {:induction false} TurnLeft(m: Memory, m': Memory, c: Ctx, t: Tree)
    requires t.Bin? && t.r.Bin? && Whole(m, Plug(c, t))
    requires CanTurnLeft(m, t.n) && m[t.n].right == t.r.n && TurnsLeft(m, m', t.n)
    ensures Whole(m', Plug(c, RotatedLeft(t)))
  {
    SplitWhole(m, c, t);
    ApartDistinct(c, t.l, t.n, t.red, t.r.l, t.r.n, t.r.red, t.r.r);
    TurnLeftRep(m, m', c, t.l, t.n, t.red, t.r.l, t.r.n, t.r.red, t.r.r);
    ApartDistinct(c, t.l, t.n, t.r.red, t.r.l, t.r.n, t.red, t.r.r);
    SplitWhole(m', c, RotatedLeft(t));
  }

  /** The stores of RB_ROTATE_RIGHT at the root of `t` make the tree rotated at `t`. */
  lemma {:induction false} TurnRight(m: Memory, m': Memory, c: Ctx, t: Tree)
    requires t.Bin? && t.l.Bin? && Whole(m, Plug(c, t))
    requires CanTurnRight(m, t.n) && m[t.n].left == t.l.n && TurnsRight(m, m', t.n)
    ensures Whole(m', Plug(c, RotatedRight(t)))
  {
    SplitWhole(m, c, t);
    ApartDistinct(c, t.l.l, t.l.n, t.l.red, t.l.r, t.n, t.red, t.r);
    TurnRightRep(m, m', c, t.l.l, t.l.n, t.l.red, t.l.r, t.n, t.red, t.r);
    SplitWhole(m', c, RotatedRight(t));
  }

  lemma {:induction false} CanTurn(m: Memory, c: Ctx, t: Tree)
    requires t.Bin? && Whole(m, Plug(c, t))
    ensures t.r.Bin? ==> CanTurnLeft(m, t.n) && m[t.n].right == t.r.n && m[t.n].parent == Parent(c)
    ensures t.l.Bin? ==> CanTurnRight(m, t.n) && m[t.n].left == t.l.n && m[t.n].parent == Parent(c)
  {
    SplitWhole(m, c, t);
    if t.r.Bin? {
      ApartDistinct(c, t.l, t.n, t.red, t.r.l, t.r.n, t.r.red, t.r.r);
      assert Rep(m, t.r, t.n) && Rep(m, t.r.l, t.r.n);
    }
    if t.l.Bin? {
      ApartDistinct(c, t.l.l, t.l.n, t.l.red, t.l.r, t.n, t.red, t.r);
      assert Rep(m, t.l, t.n) && Rep(m, t.l.r, t.l.n);
    }
  }

  /** Storing a colour in one node. */
  lemma {:induction false} Paint(m: Memory, m': Memory, c: Ctx, t: Tree, red: bool)
    requires t.Bin? && Whole(m, Plug(c, t))
    requires t.n in m && m'.Keys == m.Keys && m'[t.n] == m[t.n].(red := red)
    requires forall n :: n in m && n != t.n ==> m'[n] == m[n]
    ensures Whole(m', Plug(c, Painted(t, red)))
  {
    SplitWhole(m, c, t);
    FrameRep(m, m', t.l, t.n);
    FrameRep(m, m', t.r, t.n);
    FrameCtx(m, m', c, t.n);
    SplitWhole(m', c, Painted(t, red));
  }

  /** What the node at the root of `t`, and the one above it, hold. */
  lemma {:induction false} Cells(m: Memory, c: Ctx, t: Tree)
    requires Whole(m, Plug(c, t))
    ensures t.Bin? ==> t.n in m && m[t.n] == Cell(Root(t.l), Root(t.r), Parent(c), t.red)
    ensures c.Frame? ==>
              && c.n in m && Root(t) != c.n && Root(c.sib) != c.n
              && m[c.n] == (if c.onLeft then Cell(Root(t), Root(c.sib), Parent(c.up), c.red)
                            else Cell(Root(c.sib), Root(t), Parent(c.up), c.red))
    ensures c.Frame? && t.Bin? ==> Root(c.sib) != t.n
  {
    SplitWhole(m, c, t);
    if c.Frame? {
      SplitWhole(m, c.up, Fill(c, t));
    }
  }

  /** The stores of RB_SET and of the link from the parent `p`. */
  ghost predicate Links(m: Memory, m': Memory, x: Node, p: Node?, onLeft: bool) {
    && m'.Keys == m.Keys + {x} && m'[x] == Cell(null, null, p, true)
    && (forall n :: n in m && n != p && n != x ==> m'[n] == m[n])
    && (p != null ==> p in m && m'[p] == if onLeft then m[p].(left := x) else m[p].(right := x))
  }

  /** A new red leaf is stored at the empty hole of `c`. */
  lemma {:induction false} Link(m: Memory, m': Memory, c: Ctx, x: Node, onLeft: bool)
    requires Whole(m, Plug(c, Nil)) && x !in CtxNodes(c)
    requires Links(m, m', x, Parent(c), onLeft) && (c.Frame? ==> c.onLeft == onLeft)
    ensures Whole(m', Plug(c, Bin(Nil, x, true, Nil)))
    ensures Nodes(Plug(c, Bin(Nil, x, true, Nil))) == Nodes(Plug(c, Nil)) + {x}
    ensures Root(Plug(c, Bin(Nil, x, true, Nil))) == if c.Top? then x else Root(Plug(c, Nil))
    ensures c.Frame? <==> Plug(c, Nil).Bin?
  {
    SplitWhole(m, c, Nil);
    var t := Bin(Nil, x, true, Nil);
    Redirect(m, m', c, null, x);
    assert Nodes(t) == {x} && Distinct(t) && Rep(m', t, Parent(c));
    SplitWhole(m', c, t);
    PlugNodes(c, Nil);
    PlugNodes(c, t);
    PlugRoot(c, Nil);
    PlugRoot(c, t);
  }

  /** A node, the one above it and the ones below it are four different nodes. */
  lemma {:induction false} FourNodes(m: Memory, c: Ctx, t: Tree)
    requires t.Bin? && Whole(m, Plug(c, t))
    ensures Parent(c) != t.n
    ensures t.l.Bin? ==> t.l.n != t.n && t.l.n != Parent(c)
    ensures t.r.Bin? ==> t.r.n != t.n && t.r.n != Parent(c)
    ensures t.l.Bin? && t.r.Bin? ==> t.l.n != t.r.n
  {
    SplitWhole(m, c, t);
    assert t.l.Bin? ==> t.l.n in Nodes(t);
    assert t.r.Bin? ==> t.r.n in Nodes(t);
  }

  /** The stores of RB_REMOVE that put `child` in the place of `x`. */
  ghost predicate Splices(m: Memory, m': Memory, x: Node, child: Node?)
    requires x in m
  {
    var p := m[x].parent;
    && m'.Keys == m.Keys - {x}
    && (forall n :: n in m' && n != p && n != child ==> m'[n] == m[n])
    && (child != null ==> child in m && child in m' && child != p && m'[child] == m[child].(parent := p))
    && (p != null ==>
          && p in m && p in m'
          && m'[p] == if m[p].left == x then m[p].(left := child) else m[p].(right := child))
  }

  /** A node with at most one child is spliced out. */
  lemma {:induction false} Splice(m: Memory, m': Memory, c: Ctx, t: Tree)
    requires t.Bin? && (t.l.Nil? || t.r.Nil?) && Whole(m, Plug(c, t)) && t.n in m
    requires Splices(m, m', t.n, Root(OnlyChild(t)))
    ensures Whole(m', Plug(c, OnlyChild(t)))
    ensures Nodes(Plug(c, OnlyChild(t))) == Nodes(Plug(c, t)) - {t.n}
    ensures Root(Plug(c, OnlyChild(t))) == if c.Top? then Root(OnlyChild(t)) else Root(Plug(c, t))
  {
    var k := OnlyChild(t);
    SplitWhole(m, c, t);
    assert Nodes(t) == Nodes(k) + {t.n};
    Reparent(m, m', k, t.n, Parent(c));
    Redirect(m, m', c, t.n, Root(k));
    SplitWhole(m', c, k);
    PlugNodes(c, t);
    PlugNodes(c, k);
    PlugRoot(c, t);
    PlugRoot(c, k);
  }

  /** The stores of RB_REMOVE that put `x` in the place of `y`. */
  ghost predicate Replaces(m: Memory, m': Memory, y: Node, x: Node)
    requires y in m
  {
    var p, l, r := m[y].parent, m[y].left, m[y].right;
    && m'.Keys == m.Keys - {y} + {x} && m'[x] == m[y]
    && (forall n :: n in m && n != y && n != x && n != p && n != l && n != r ==> m'[n] == m[n])
    && (p != null ==> p in m && p in m' && m'[p] == if m[p].left == y then m[p].(left := x) else m[p].(right := x))
    && (l != null ==> l in m && l in m' && m'[l] == m[l].(parent := x))
    && (r != null ==> r in m && r in m' && m'[r] == m[r].(parent := x))
  }

  /** The nodes those stores go to are in memory, and different. */
  ghost predicate CanReplace(m: Memory, y: Node) {
    && y in m
    && var p, l, r := m[y].parent, m[y].left, m[y].right;
    && (p != null ==> p in m && p != y && p != l && p != r)
    && (l != null ==> l in m && l != y && l != r)
    && (r != null ==> r in m && r != y)
  }

  /** First the fields of `y` and the link from above it. */
  ghost predicate ReplacesAbove(m: Memory, m': Memory, y: Node, x: Node)
    requires y in m
  {
    var p := m[y].parent;
    && m'.Keys == m.Keys + {x} && m'[x] == m[y]
    && (forall n :: n in m && n != x && n != p ==> m'[n] == m[n])
    && (p != null ==> p in m && m'[p] == if m[p].left == y then m[p].(left := x) else m[p].(right := x))
  }

  /** Then the links from below. */
  ghost predicate ReplacesBelow(m: Memory, m': Memory, l: Node?, r: Node?, x: Node) {
    && m'.Keys == m.Keys
    && (forall n :: n in m && n != l && n != r ==> m'[n] == m[n])
    && (l != null ==> l in m && m'[l] == m[l].(parent := x))
    && (r != null ==> r in m && m'[r] == m[r].(parent := x))
  }

  lemma {:induction false} ReplacesBoth(m: Memory, m1: Memory, m2: Memory, m': Memory, y: Node, x: Node)
    requires CanReplace(m, y) && x !in m && m'.Keys == m.Keys - {y} + {x}
    requires ReplacesAbove(m, m1, y, x) && ReplacesBelow(m1, m2, m[y].left, m[y].right, x)
    requires forall n :: n in m' ==> n in m2 && m'[n] == m2[n]
    ensures Replaces(m, m', y, x)
  {
  }

  lemma {:induction false} CanReplaceRoot(m: Memory, c: Ctx, t: Tree)
    requires t.Bin? && Whole(m, Plug(c, t))
    ensures CanReplace(m, t.n) && m[t.n] == Cell(Root(t.l), Root(t.r), Parent(c), t.red)
  {
    FourNodes(m, c, t);
    SplitWhole(m, c, t);
    assert Rep(m, t.l, t.n) && Rep(m, t.r, t.n);
  }

  lemma {:induction false} ReplaceRep(m: Memory, m': Memory, c: Ctx, l: Tree, y: Node, red: bool, r: Tree, x: Node)
    requires Split(m, c, Bin(l, y, red, r)) && y in m && m[y] == Cell(Root(l), Root(r), Parent(c), red)
    requires x !in CtxNodes(c) && x !in Nodes(l) && x !in Nodes(r) && x != y && Replaces(m, m', y, x)
    ensures Split(m', c, Bin(l, x, red, r))
  {
    Reparent(m, m', l, y, x);
    Reparent(m, m', r, y, x);
    Redirect(m, m', c, y, x);
  }

  /** A node outside the tree takes over the links and the colour of one inside. */
  lemma {:induction false} Replace(m: Memory, m': Memory, c: Ctx, t: Tree, x: Node)
    requires t.Bin? && Whole(m, Plug(c, t)) && x !in Nodes(Plug(c, t)) && t.n in m && Replaces(m, m', t.n, x)
    ensures Whole(m', Plug(c, t.(n := x)))
    ensures Nodes(Plug(c, t.(n := x))) == Nodes(Plug(c, t)) - {t.n} + {x}
    ensures Root(Plug(c, t.(n := x))) == if c.Top? then x else Root(Plug(c, t))
  {
    SplitWhole(m, c, t);
    PlugNodes(c, t);
    PlugNodes(c, t.(n := x));
    PlugRoot(c, t);
    PlugRoot(c, t.(n := x));
    ReplaceRep(m, m', c, t.l, t.n, t.red, t.r, x);
    SplitWhole(m', c, t.(n := x));
  }
}
