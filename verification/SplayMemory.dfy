/** What the stores of the splay macros do to a tree being splayed. */
module SplayMemory {
  import opened Sequences
  import opened SplayShape

  /** A splay in progress: the tree `t` between the side trees `l` and `r`. */
  ghost predicate Held(m: Memory, l: Side, t: Tree, r: Side, node: SNode) {
    && Apart(l, t, r, node) && node in m && Bottom(l, node) in m && Bottom(r, node) in m
    && Rep(m, t) && RepLeft(m, l, node) && RepRight(m, r, node)
  }

  /** All the nodes, in order. */
  ghost function All(l: Side, t: Tree, r: Side): seq<SNode> {
    LeftSeq(l) + Inorder(t) + RightSeq(r)
  }

  ghost function AllNodes(l: Side, t: Tree, r: Side): set<SNode> {
    SideNodes(l) + Nodes(t) + SideNodes(r)
  }

  ghost predicate Stores(m: Memory, m': Memory, x: SNode, cell: Cell) {
    m'.Keys == m.Keys && x in m && m'[x] == cell && forall n :: n in m && n != x ==> m'[n] == m[n]
  }

  // ---------- SPLAY_LINKLEFT, SPLAY_LINKRIGHT ----------

  lemma {:induction false} LinkLeftHeld(m: Memory, m': Memory, l: Side, t: Tree, r: Side, node: SNode)
    requires Held(m, l, t, r, node) && t.Bin?
    requires Stores(m, m', Bottom(r, node), m[Bottom(r, node)].(left := t.n))
    ensures Held(m', l, t.l, Below(r, t.n, t.r), node)
  {
    hide Inorder, LeftSeq, RightSeq;
    FrameRep(m, m', t.l);
    FrameRep(m, m', t.r);
    FrameLeft(m, m', l, node);
    FrameRight(m, m', r, node);
  }

  lemma {:induction false} LinkRightHeld(m: Memory, m': Memory, l: Side, t: Tree, r: Side, node: SNode)
    requires Held(m, l, t, r, node) && t.Bin?
    requires Stores(m, m', Bottom(l, node), m[Bottom(l, node)].(right := t.n))
    ensures Held(m', Below(l, t.n, t.l), t.r, r, node)
  {
    hide Inorder, LeftSeq, RightSeq;
    FrameRep(m, m', t.l);
    FrameRep(m, m', t.r);
    FrameLeft(m, m', l, node);
    FrameRight(m, m', r, node);
  }

  lemma {:induction false} LinksKeepAll(l: Side, t: Tree, r: Side)
    requires t.Bin?
    ensures All(l, t.l, Below(r, t.n, t.r)) == All(l, t, r) == All(Below(l, t.n, t.l), t.r, r)
    ensures AllNodes(l, t.l, Below(r, t.n, t.r)) == AllNodes(l, t, r) == AllNodes(Below(l, t.n, t.l), t.r, r)
  {
    Regroup(LeftSeq(l), Inorder(t.l), [t.n], Inorder(t.r), RightSeq(r));
  }

  // ---------- SPLAY_ROTATE_RIGHT, SPLAY_ROTATE_LEFT ----------

  ghost function RotatedRight(t: Tree): Tree
    requires t.Bin? && t.l.Bin?
  {
    Bin(t.l.l, t.l.n, Bin(t.l.r, t.n, t.r))
  }

  ghost function RotatedLeft(t: Tree): Tree
    requires t.Bin? && t.r.Bin?
  {
    Bin(Bin(t.l, t.n, t.r.l), t.r.n, t.r.r)
  }

  lemma {:induction false} RotationsKeepOrder(t: Tree)
    requires t.Bin? && Distinct(t)
    ensures t.l.Bin? ==>
              Inorder(RotatedRight(t)) == Inorder(t) && Nodes(RotatedRight(t)) == Nodes(t) && Distinct(RotatedRight(t))
    ensures t.r.Bin? ==>
              Inorder(RotatedLeft(t)) == Inorder(t) && Nodes(RotatedLeft(t)) == Nodes(t) && Distinct(RotatedLeft(t))
  {
    if t.l.Bin? {
      Regroup(Inorder(t.l.l), [t.l.n], Inorder(t.l.r), [t.n], Inorder(t.r));
    }
    if t.r.Bin? {
      Regroup(Inorder(t.l), [t.n], Inorder(t.r.l), [t.r.n], Inorder(t.r.r));
    }
  }

  ghost predicate TurnsRight(m: Memory, m': Memory, y: SNode)
    requires y in m && m[y].left != null && m[y].left in m
  {
    var x := m[y].left;
    && m'.Keys == m.Keys
    && m'[y] == m[y].(left := m[x].right) && m'[x] == m[x].(right := y)
    && forall n :: n in m && n != x && n != y ==> m'[n] == m[n]
  }

  ghost predicate TurnsLeft(m: Memory, m': Memory, x: SNode)
    requires x in m && m[x].right != null && m[x].right in m
  {
    var y := m[x].right;
    && m'.Keys == m.Keys
    && m'[x] == m[x].(right := m[y].left) && m'[y] == m[y].(left := x)
    && forall n :: n in m && n != x && n != y ==> m'[n] == m[n]
  }

  lemma {:induction false} TurnRightRep(m: Memory, m': Memory, t: Tree)
    requires t.Bin? && t.l.Bin? && Rep(m, t) && Distinct(t) && t.l.n in m && TurnsRight(m, m', t.n)
    ensures Rep(m', RotatedRight(t))
  {
    FrameRep(m, m', t.l.l);
    FrameRep(m, m', t.l.r);
    FrameRep(m, m', t.r);
    assert Rep(m', Bin(t.l.r, t.n, t.r));
  }

  lemma {:induction false} TurnLeftRep(m: Memory, m': Memory, t: Tree)
    requires t.Bin? && t.r.Bin? && Rep(m, t) && Distinct(t) && t.r.n in m && TurnsLeft(m, m', t.n)
    ensures Rep(m', RotatedLeft(t))
  {
    FrameRep(m, m', t.r.l);
    FrameRep(m, m', t.r.r);
    FrameRep(m, m', t.l);
    assert Rep(m', Bin(t.l, t.n, t.r.l));
  }

  lemma {:induction false} TurnRightHeld(m: Memory, m': Memory, l: Side, t: Tree, r: Side, node: SNode)
    requires Held(m, l, t, r, node) && t.Bin? && t.l.Bin? && t.l.n in m && TurnsRight(m, m', t.n)
    ensures Held(m', l, RotatedRight(t), r, node)
  {
    hide Inorder;
    RotationsKeepOrder(t);
    TurnRightRep(m, m', t);
    assert t.l.n in Nodes(t);
    FrameLeft(m, m', l, node);
    FrameRight(m, m', r, node);
  }

  lemma {:induction false} TurnLeftHeld(m: Memory, m': Memory, l: Side, t: Tree, r: Side, node: SNode)
    requires Held(m, l, t, r, node) && t.Bin? && t.r.Bin? && t.r.n in m && TurnsLeft(m, m', t.n)
    ensures Held(m', l, RotatedLeft(t), r, node)
  {
    hide Inorder;
    RotationsKeepOrder(t);
    TurnLeftRep(m, m', t);
    assert t.r.n in Nodes(t);
    FrameLeft(m, m', l, node);
    FrameRight(m, m', r, node);
  }

  // ---------- SPLAY_ASSEMBLE ----------

  ghost function Assembled(l: Side, t: Tree, r: Side): Tree
    requires t.Bin?
  {
    Bin(PlugLeft(l, t.l), t.n, PlugRight(r, t.r))
  }

  lemma {:induction false} AssembledFacts(l: Side, t: Tree, r: Side, node: SNode)
    requires t.Bin? && Apart(l, t, r, node)
    ensures Inorder(Assembled(l, t, r)) == All(l, t, r)
    ensures Nodes(Assembled(l, t, r)) == AllNodes(l, t, r) && Distinct(Assembled(l, t, r))
    ensures Inorder(PlugLeft(l, t.l)) == LeftSeq(l) + Inorder(t.l)
    ensures Inorder(PlugRight(r, t.r)) == Inorder(t.r) + RightSeq(r)
  {
    PlugLeftFacts(l, t.l);
    PlugRightFacts(r, t.r);
    Regroup(LeftSeq(l), Inorder(t.l), [t.n], Inorder(t.r), RightSeq(r));
  }

  /** The two holes are filled with the children of the root, then the root takes the side trees. */
  lemma {:induction false} AssembleRep(m: Memory, m1: Memory, m2: Memory, m3: Memory, l: Side, t: Tree,
                                       r: Side, node: SNode)
    requires Held(m, l, t, r, node) && t.Bin?
    requires Stores(m, m1, Bottom(l, node), m[Bottom(l, node)].(right := Root(t.l)))
    requires Stores(m1, m2, Bottom(r, node), m1[Bottom(r, node)].(left := Root(t.r)))
    requires Stores(m2, m3, t.n, Cell(m2[node].right, m2[node].left))
    ensures Rep(m3, Assembled(l, t, r))
  {
    FramePieces(m, m1, l, t, r, node);
    FramePieces(m1, m2, l, t, r, node);
    CloseLeft(m2, l, t.l, node);
    CloseRight(m2, r, t.r, node);
    PlugLeftFacts(l, t.l);
    PlugRightFacts(r, t.r);
    FrameRep(m2, m3, PlugLeft(l, t.l));
    FrameRep(m2, m3, PlugRight(r, t.r));
  }

  /** Assembling ends with the whole tree laid out in the nodes alone. */
  lemma {:induction false} AssembleDone(m: Memory, m1: Memory, m2: Memory, m3: Memory, m': Memory, l: Side, t: Tree,
                                        r: Side, node: SNode)
    requires Held(m, l, t, r, node) && t.Bin?
    requires Stores(m, m1, Bottom(l, node), m[Bottom(l, node)].(right := Root(t.l)))
    requires Stores(m1, m2, Bottom(r, node), m1[Bottom(r, node)].(left := Root(t.r)))
    requires Stores(m2, m3, t.n, Cell(m2[node].right, m2[node].left))
    requires forall n :: n in AllNodes(l, t, r) && n in m3 ==> n in m' && m'[n] == m3[n]
    ensures var whole := Assembled(l, t, r);
      Rep(m', whole) && Distinct(whole) && Nodes(whole) == AllNodes(l, t, r) && Root(whole) == t.n
  {
    AssembledFacts(l, t, r, node);
    AssembleRep(m, m1, m2, m3, l, t, r, node);
    FrameRep(m3, m', Assembled(l, t, r));
  }

  /** Filling a hole leaves all the pieces as they are. */
  lemma {:induction false} FramePieces(m: Memory, m': Memory, l: Side, t: Tree, r: Side, node: SNode)
    requires Held(m, l, t, r, node) && t.Bin? && m'.Keys == m.Keys
    requires (exists p :: Stores(m, m', Bottom(l, node), m[Bottom(l, node)].(right := p)))
             || (exists p :: Stores(m, m', Bottom(r, node), m[Bottom(r, node)].(left := p)))
    ensures Held(m', l, t, r, node)
  {
    FrameRep(m, m', t);
    FrameLeft(m, m', l, node);
    FrameRight(m, m', r, node);
  }
}
