/**
 Splay-tree nodes, the trees they lay out in memory, and the two side trees
 that a top-down splay takes apart and puts together again.
 */
module SplayShape {
  import opened Keys
  import opened Sequences

  /** A struct with a SPLAY_ENTRY. */
  class SNode {
    const key: Key
    var left: SNode?
    var right: SNode?

    constructor (key: Key)
      ensures this.key == key
    {
      this.key := key;
    }
  }

  datatype Cell = Cell(left: SNode?, right: SNode?)

  type Memory = map<SNode, Cell>

  ghost function Mem(S: set<SNode>): Memory
    reads S
  {
    map n | n in S :: Cell(n.left, n.right)
  }

  datatype Tree = Nil | Bin(l: Tree, n: SNode, r: Tree)

  /** A side tree with its hole at the bottom: each node was linked below the one before it,
      bringing along the subtree on its outer side. */
  datatype Side = Empty | Below(above: Side, n: SNode, outer: Tree)

  ghost function Root(t: Tree): SNode? {
    if t.Nil? then null else t.n
  }

  ghost function Nodes(t: Tree): set<SNode> {
    if t.Nil? then {} else Nodes(t.l) + {t.n} + Nodes(t.r)
  }

  ghost function SideNodes(s: Side): set<SNode> {
    if s.Empty? then {} else SideNodes(s.above) + {s.n} + Nodes(s.outer)
  }

  ghost function Inorder(t: Tree): seq<SNode> {
    if t.Nil? then [] else Inorder(t.l) + [t.n] + Inorder(t.r)
  }

  /** A left side tree, in order: its hole is on the right. */
  ghost function LeftSeq(s: Side): seq<SNode> {
    if s.Empty? then [] else LeftSeq(s.above) + Inorder(s.outer) + [s.n]
  }

  /** A right side tree, in order: its hole is on the left. */
  ghost function RightSeq(s: Side): seq<SNode> {
    if s.Empty? then [] else [s.n] + Inorder(s.outer) + RightSeq(s.above)
  }

  ghost function PlugLeft(s: Side, t: Tree): Tree {
    if s.Empty? then t else PlugLeft(s.above, Bin(s.outer, s.n, t))
  }

  ghost function PlugRight(s: Side, t: Tree): Tree {
    if s.Empty? then t else PlugRight(s.above, Bin(t, s.n, s.outer))
  }

  // ---------- layout in memory ----------

  ghost predicate Rep(m: Memory, t: Tree) {
    t.Bin? ==> t.n in m && m[t.n] == Cell(Root(t.l), Root(t.r)) && Rep(m, t.l) && Rep(m, t.r)
  }

  /** The node whose field is the hole; `node` is the stack frame's `__node`. */
  ghost function Bottom(s: Side, node: SNode): SNode {
    if s.Empty? then node else s.n
  }

  /** The hole itself is left open: its field still holds an old pointer. */
  ghost predicate RepLeft(m: Memory, s: Side, node: SNode) {
    s.Below? ==>
      && s.n in m && m[s.n].left == Root(s.outer) && Rep(m, s.outer)
      && Bottom(s.above, node) in m && m[Bottom(s.above, node)].right == s.n && RepLeft(m, s.above, node)
  }

  ghost predicate RepRight(m: Memory, s: Side, node: SNode) {
    s.Below? ==>
      && s.n in m && m[s.n].right == Root(s.outer) && Rep(m, s.outer)
      && Bottom(s.above, node) in m && m[Bottom(s.above, node)].left == s.n && RepRight(m, s.above, node)
  }

  ghost predicate Distinct(t: Tree) {
    t.Bin? ==>
      && t.n !in Nodes(t.l) && t.n !in Nodes(t.r) && Nodes(t.l) !! Nodes(t.r)
      && Distinct(t.l) && Distinct(t.r)
  }

  ghost predicate DistinctSide(s: Side) {
    s.Below? ==>
      && s.n !in Nodes(s.outer) && s.n !in SideNodes(s.above) && Nodes(s.outer) !! SideNodes(s.above)
      && Distinct(s.outer) && DistinctSide(s.above)
  }

  /** The tree being splayed, its two side trees and `__node`, all apart. */
  ghost predicate Apart(l: Side, t: Tree, r: Side, node: SNode) {
    && Distinct(t) && DistinctSide(l) && DistinctSide(r)
    && Nodes(t) !! SideNodes(l) && Nodes(t) !! SideNodes(r) && SideNodes(l) !! SideNodes(r)
    && node !in Nodes(t) && node !in SideNodes(l) && node !in SideNodes(r)
  }

  // ---------- framing ----------

  lemma {:induction false} FrameRep(m: Memory, m': Memory, t: Tree)
    requires Rep(m, t) && forall n :: n in Nodes(t) && n in m ==> n in m' && m'[n] == m[n]
    ensures Rep(m', t)
  {
    if t.Bin? {
      FrameRep(m, m', t.l);
      FrameRep(m, m', t.r);
    }
  }

  lemma {:induction false} FrameLeft(m: Memory, m': Memory, s: Side, node: SNode)
    requires RepLeft(m, s, node) && DistinctSide(s) && node !in SideNodes(s)
    requires forall n :: n in SideNodes(s) && n in m && n != Bottom(s, node) ==> n in m' && m'[n] == m[n]
    requires s.Below? ==>
               s.n in m' && m'[s.n].left == m[s.n].left && (node in m ==> node in m' && m'[node].right == m[node].right)
    ensures RepLeft(m', s, node)
  {
    if s.Below? {
      FrameRep(m, m', s.outer);
      FrameLeft(m, m', s.above, node);
    }
  }

  lemma {:induction false} FrameRight(m: Memory, m': Memory, s: Side, node: SNode)
    requires RepRight(m, s, node) && DistinctSide(s) && node !in SideNodes(s)
    requires forall n :: n in SideNodes(s) && n in m && n != Bottom(s, node) ==> n in m' && m'[n] == m[n]
    requires s.Below? ==>
               s.n in m' && m'[s.n].right == m[s.n].right && (node in m ==> node in m' && m'[node].left == m[node].left)
    ensures RepRight(m', s, node)
  {
    if s.Below? {
      FrameRep(m, m', s.outer);
      FrameRight(m, m', s.above, node);
    }
  }

  // ---------- putting the pieces together ----------

  /** Once its hole is filled with the root of `t`, a left side tree hangs from `__node`'s right field. */
  lemma {:induction false} CloseLeft(m: Memory, s: Side, t: Tree, node: SNode)
    requires RepLeft(m, s, node) && Rep(m, t) && Bottom(s, node) in m && m[Bottom(s, node)].right == Root(t)
    ensures Rep(m, PlugLeft(s, t)) && node in m && m[node].right == Root(PlugLeft(s, t))
  {
    if s.Below? {
      CloseLeft(m, s.above, Bin(s.outer, s.n, t), node);
    }
  }

  lemma {:induction false} CloseRight(m: Memory, s: Side, t: Tree, node: SNode)
    requires RepRight(m, s, node) && Rep(m, t) && Bottom(s, node) in m && m[Bottom(s, node)].left == Root(t)
    ensures Rep(m, PlugRight(s, t)) && node in m && m[node].left == Root(PlugRight(s, t))
  {
    if s.Below? {
      CloseRight(m, s.above, Bin(t, s.n, s.outer), node);
    }
  }

  lemma {:induction false} PlugLeftInorder(s: Side, t: Tree)
    ensures Inorder(PlugLeft(s, t)) == LeftSeq(s) + Inorder(t)
  {
    if s.Below? {
      PlugLeftInorder(s.above, Bin(s.outer, s.n, t));
      Regroup(LeftSeq(s.above), Inorder(s.outer), [s.n], Inorder(t), []);
    }
  }

  lemma {:induction false} PlugLeftFacts(s: Side, t: Tree)
    requires DistinctSide(s) && Distinct(t) && Nodes(t) !! SideNodes(s)
    ensures Inorder(PlugLeft(s, t)) == LeftSeq(s) + Inorder(t)
    ensures Nodes(PlugLeft(s, t)) == SideNodes(s) + Nodes(t) && Distinct(PlugLeft(s, t))
  {
    PlugLeftInorder(s, t);
    hide Inorder;
    if s.Below? {
      PlugLeftFacts(s.above, Bin(s.outer, s.n, t));
    }
  }

  lemma {:induction false} PlugRightInorder(s: Side, t: Tree)
    ensures Inorder(PlugRight(s, t)) == Inorder(t) + RightSeq(s)
  {
    if s.Below? {
      PlugRightInorder(s.above, Bin(t, s.n, s.outer));
      Regroup([], Inorder(t), [s.n], Inorder(s.outer), RightSeq(s.above));
    }
  }

  lemma {:induction false} PlugRightFacts(s: Side, t: Tree)
    requires DistinctSide(s) && Distinct(t) && Nodes(t) !! SideNodes(s)
    ensures Inorder(PlugRight(s, t)) == Inorder(t) + RightSeq(s)
    ensures Nodes(PlugRight(s, t)) == SideNodes(s) + Nodes(t) && Distinct(PlugRight(s, t))
  {
    PlugRightInorder(s, t);
    hide Inorder;
    if s.Below? {
      PlugRightFacts(s.above, Bin(t, s.n, s.outer));
    }
  }
}
