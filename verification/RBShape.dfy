/**
 The nodes of a red-black tree, and the mathematical trees they lay out in memory.
 A `Tree` names its nodes, so equal trees mean the same nodes in the same places.
 A `Ctx` is a tree with one hole: the path from the hole up to the root.
 */
module RBShape {
  import opened Keys
  import opened Sequences

  /** `struct db_node` with its RB_ENTRY. */
  class Node {
    const key: Key
    var value: string
    var left: Node?
    var right: Node?
    var parent: Node?
    var red: bool

    constructor (key: Key)
      ensures this.key == key
    {
      this.key := key;
    }
  }

  /** The four link fields of one node. */
  datatype Cell = Cell(left: Node?, right: Node?, parent: Node?, red: bool)

  type Memory = map<Node, Cell>

  ghost function Mem(S: set<Node>): Memory
    reads S`left, S`right, S`parent, S`red
  {
    map n | n in S :: Cell(n.left, n.right, n.parent, n.red)
  }

  datatype Tree = Nil | Bin(l: Tree, n: Node, red: bool, r: Tree)

  /** `onLeft` says that the hole is the left child of `n`; `sib` is the other child. */
  datatype Ctx = Top | Frame(up: Ctx, onLeft: bool, n: Node, red: bool, sib: Tree)

  ghost function Root(t: Tree): Node? {
    if t.Nil? then null else t.n
  }

  ghost function Parent(c: Ctx): Node? {
    if c.Top? then null else c.n
  }

  ghost function Nodes(t: Tree): set<Node> {
    if t.Nil? then {} else Nodes(t.l) + {t.n} + Nodes(t.r)
  }

  ghost function CtxNodes(c: Ctx): set<Node> {
    if c.Top? then {} else CtxNodes(c.up) + {c.n} + Nodes(c.sib)
  }

  ghost function Inorder(t: Tree): seq<Node> {
    if t.Nil? then [] else Inorder(t.l) + [t.n] + Inorder(t.r)
  }

  ghost function OnlyChild(t: Tree): Tree
    requires t.Bin?
  {
    if t.l.Nil? then t.r else t.l
  }

  ghost function Fill(f: Ctx, t: Tree): Tree
    requires f.Frame?
  {
    if f.onLeft then Bin(t, f.n, f.red, f.sib) else Bin(f.sib, f.n, f.red, t)
  }

  ghost function Plug(c: Ctx, t: Tree): Tree {
    if c.Top? then t else Plug(c.up, Fill(c, t))
  }

  /** What stands in order before and after the hole. */
  ghost function Before(c: Ctx): seq<Node> {
    if c.Top? then [] else if c.onLeft then Before(c.up) else Before(c.up) + Inorder(c.sib) + [c.n]
  }

  ghost function After(c: Ctx): seq<Node> {
    if c.Top? then [] else if c.onLeft then [c.n] + Inorder(c.sib) + After(c.up) else After(c.up)
  }

  // ---------- layout in memory ----------

  /** `t` is laid out in `m`, its root having parent pointer `p`. */
  ghost predicate Rep(m: Memory, t: Tree, p: Node?) {
    t.Bin? ==>
      && t.n in m && m[t.n] == Cell(Root(t.l), Root(t.r), p, t.red)
      && Rep(m, t.l, t.n) && Rep(m, t.r, t.n)
  }

  /** `c` is laid out in `m`, with `hole` as the child pointer where the hole is. */
  ghost predicate RepCtx(m: Memory, c: Ctx, hole: Node?) {
    c.Frame? ==>
      && c.n in m
      && m[c.n] == (if c.onLeft then Cell(hole, Root(c.sib), Parent(c.up), c.red)
                    else Cell(Root(c.sib), hole, Parent(c.up), c.red))
      && Rep(m, c.sib, c.n) && RepCtx(m, c.up, c.n)
  }

  /** The root pointer of a tree whose hole is filled with `hole`. */
  ghost function RootPtr(c: Ctx, hole: Node?): Node? {
    if c.Top? then hole else RootPtr(c.up, c.n)
  }

  ghost predicate Distinct(t: Tree) {
    t.Bin? ==>
      && t.n !in Nodes(t.l) && t.n !in Nodes(t.r) && Nodes(t.l) !! Nodes(t.r)
      && Distinct(t.l) && Distinct(t.r)
  }

  ghost predicate DistinctCtx(c: Ctx) {
    c.Frame? ==>
      && c.n !in Nodes(c.sib) && c.n !in CtxNodes(c.up) && Nodes(c.sib) !! CtxNodes(c.up)
      && Distinct(c.sib) && DistinctCtx(c.up)
  }

  /** A tree split at a hole: `c` around `t`, laid out in `m` without sharing. */
  ghost predicate Split(m: Memory, c: Ctx, t: Tree) {
    && RepCtx(m, c, Root(t)) && Rep(m, t, Parent(c))
    && DistinctCtx(c) && Distinct(t) && Nodes(t) !! CtxNodes(c)
  }

  ghost predicate Whole(m: Memory, t: Tree) {
    Rep(m, t, null) && Distinct(t)
  }

  lemma {:induction false} PlugNodes(c: Ctx, t: Tree)
    ensures Nodes(Plug(c, t)) == CtxNodes(c) + Nodes(t)
  {
    if c.Frame? {
      PlugNodes(c.up, Fill(c, t));
    }
  }

  lemma {:induction false} PlugInorder(c: Ctx, t: Tree)
    ensures Inorder(Plug(c, t)) == Before(c) + Inorder(t) + After(c)
  {
    if c.Frame? {
      PlugInorder(c.up, Fill(c, t));
      if c.onLeft {
        Regroup(Before(c.up), Inorder(t), [c.n], Inorder(c.sib), After(c.up));
      } else {
        Regroup(Before(c.up), Inorder(c.sib), [c.n], Inorder(t), After(c.up));
      }
    }
  }

  lemma {:induction false} PlugRoot(c: Ctx, t: Tree)
    ensures Root(Plug(c, t)) == RootPtr(c, Root(t))
    ensures c.Frame? || t.Bin? ==> Plug(c, t).Bin?
  {
    if c.Frame? {
      PlugRoot(c.up, Fill(c, t));
    }
  }

  /** A tree laid out as a whole is laid out as any of its splits, and conversely. */
  lemma {:induction false} SplitWhole(m: Memory, c: Ctx, t: Tree)
    ensures Split(m, c, t) <==> Whole(m, Plug(c, t))
  {
    if c.Frame? {
      SplitWhole(m, c.up, Fill(c, t));
    }
  }

  // ---------- framing ----------

  ghost predicate Same(m: Memory, m': Memory, s: set<Node>) {
    forall n :: n in s && n in m ==> n in m' && m'[n] == m[n]
  }

  lemma {:induction false} FrameRep(m: Memory, m': Memory, t: Tree, p: Node?)
    requires Rep(m, t, p) && Same(m, m', Nodes(t))
    ensures Rep(m', t, p)
  {
    if t.Bin? {
      FrameRep(m, m', t.l, t.n);
      FrameRep(m, m', t.r, t.n);
    }
  }

  /** The root of `t` gets a new parent, nothing else in `t` changes. */
  lemma {:induction false} Reparent(m: Memory, m': Memory, t: Tree, p: Node?, p': Node?)
    requires Rep(m, t, p) && Distinct(t)
    requires forall n :: n in Nodes(t) && n in m && n != Root(t) ==> n in m' && m'[n] == m[n]
    requires t.Bin? ==> t.n in m' && m'[t.n] == m[t.n].(parent := p')
    ensures Rep(m', t, p')
  {
    if t.Bin? {
      FrameRep(m, m', t.l, t.n);
      FrameRep(m, m', t.r, t.n);
    }
  }

  ghost function WithHole(c: Ctx, cell: Cell, hole: Node?): Cell
    requires c.Frame?
  {
    if c.onLeft then cell.(left := hole) else cell.(right := hole)
  }

  lemma {:induction false} FrameCtx(m: Memory, m': Memory, c: Ctx, hole: Node?)
    requires RepCtx(m, c, hole) && Same(m, m', CtxNodes(c))
    ensures RepCtx(m', c, hole)
  {
    if c.Frame? {
      FrameRep(m, m', c.sib, c.n);
      FrameCtx(m, m', c.up, c.n);
    }
  }

  /** The pointer to the hole is redirected, nothing else in `c` changes. */
  lemma {:induction false} Redirect(m: Memory, m': Memory, c: Ctx, hole: Node?, hole': Node?)
    requires RepCtx(m, c, hole) && DistinctCtx(c)
    requires forall n :: n in CtxNodes(c) && n in m && n != Parent(c) ==> n in m' && m'[n] == m[n]
    requires c.Frame? ==> c.n in m' && m'[c.n] == WithHole(c, m[c.n], hole')
    ensures RepCtx(m', c, hole')
  {
    if c.Frame? {
      FrameRep(m, m', c.sib, c.n);
      FrameCtx(m, m', c.up, c.n);
    }
  }
}
