/** Search order: the in-order sequence of nodes, strictly increasing by key. */
module RBOrder {
  import opened Keys
  import opened Sequences
  import opened RBShape
  import opened RBBalance
  import opened RBRemoval

  ghost predicate Ordered(s: seq<Node>) {
    forall i, j :: 0 <= i < j < |s| ==> Less(s[i].key, s[j].key)
  }

  ghost predicate AllBelow(s: seq<Node>, k: Key) {
    forall i :: 0 <= i < |s| ==> Less(s[i].key, k)
  }

  ghost predicate AllAbove(s: seq<Node>, k: Key) {
    forall i :: 0 <= i < |s| ==> Less(k, s[i].key)
  }

  lemma {:induction false} OrderedParts(a: seq<Node>, x: Node, b: seq<Node>)
    ensures Ordered(a + [x] + b) <==> Ordered(a) && Ordered(b) && AllBelow(a, x.key) && AllAbove(b, x.key)
  {
    var s := a + [x] + b;
    if Ordered(s) {
      assert forall i :: 0 <= i < |a| ==> s[i] == a[i];
      assert forall i :: 0 <= i < |b| ==> s[|a| + 1 + i] == b[i];
      assert s[|a|] == x;
    }
    if Ordered(a) && Ordered(b) && AllBelow(a, x.key) && AllAbove(b, x.key) {
      forall i, j | 0 <= i < j < |s| ensures Less(s[i].key, s[j].key) {
        if i < |a| < j {
          StrcmpTransitive(a[i].key, x.key, b[j - |a| - 1].key);
        }
      }
    }
  }

  lemma {:induction false} BelowTransitive(s: seq<Node>, k: Key, k': Key)
    requires AllBelow(s, k) && Less(k, k')
    ensures AllBelow(s, k')
  {
    forall i | 0 <= i < |s| ensures Less(s[i].key, k') {
      StrcmpTransitive(s[i].key, k, k');
    }
  }

  lemma {:induction false} AboveTransitive(s: seq<Node>, k: Key, k': Key)
    requires AllAbove(s, k) && Less(k', k)
    ensures AllAbove(s, k')
  {
    forall i | 0 <= i < |s| ensures Less(k', s[i].key) {
      StrcmpTransitive(k', k, s[i].key);
    }
  }

  /** The hole of `c` is where `k` belongs. */
  ghost predicate Brackets(c: Ctx, k: Key) {
    AllBelow(Before(c), k) && AllAbove(After(c), k)
  }

  /** The step a search takes at the root of `t`. */
  ghost function Below(c: Ctx, t: Tree, goLeft: bool): Ctx
    requires t.Bin?
  {
    Frame(c, goLeft, t.n, t.red, if goLeft then t.r else t.l)
  }

  /** What stands around the root of `t`, in the order of the whole tree. */
  lemma {:induction false} Around(c: Ctx, t: Tree)
    requires t.Bin?
    ensures Inorder(Plug(c, t)) == (Before(c) + Inorder(t.l)) + [t.n] + (Inorder(t.r) + After(c))
  {
    PlugInorder(c, t);
    Regroup(Before(c), Inorder(t.l), [t.n], Inorder(t.r), After(c));
  }

  lemma {:induction false} Descend(c: Ctx, t: Tree, k: Key)
    requires t.Bin? && Ordered(Inorder(Plug(c, t))) && Brackets(c, k)
    ensures Less(k, t.n.key) ==> Brackets(Below(c, t, true), k)
    ensures Less(t.n.key, k) ==> Brackets(Below(c, t, false), k)
  {
    Around(c, t);
    var a, b := Before(c) + Inorder(t.l), Inorder(t.r) + After(c);
    OrderedParts(a, t.n, b);
    Assoc([t.n], Inorder(t.r), After(c));
    if Less(k, t.n.key) {
      AboveTransitive(b, t.n.key, k);
    }
    if Less(t.n.key, k) {
      BelowTransitive(a, t.n.key, k);
    }
  }

  lemma {:induction false} InorderNodes(t: Tree)
    ensures forall n :: n in Nodes(t) ==> n in Inorder(t)
    ensures forall n :: n in Inorder(t) ==> n in Nodes(t)
  {
    if t.Bin? {
      InorderNodes(t.l);
      InorderNodes(t.r);
    }
  }

  /** A key bracketed by an empty hole is nowhere in the tree. */
  lemma {:induction false} Absent(c: Ctx, k: Key)
    requires Brackets(c, k)
    ensures forall n :: n in Nodes(Plug(c, Nil)) ==> n.key != k
  {
    var t := Plug(c, Nil);
    InorderNodes(t);
    PlugInorder(c, Nil);
    assert Inorder(t) == Before(c) + After(c);
    StrcmpOrder(k, k);
    forall n | n in Nodes(t) ensures n.key != k {
      assert n in Before(c) + After(c);
    }
  }

  lemma {:induction false} InsertOrdered(c: Ctx, x: Node, red: bool)
    requires Ordered(Inorder(Plug(c, Nil))) && Brackets(c, x.key)
    ensures var pos := |Before(c)|;
      && pos <= |Inorder(Plug(c, Nil))|
      && Inorder(Plug(c, Bin(Nil, x, red, Nil))) == Inorder(Plug(c, Nil))[..pos] + [x] + Inorder(Plug(c, Nil))[pos..]
    ensures Ordered(Inorder(Plug(c, Bin(Nil, x, red, Nil))))
  {
    PlugInorder(c, Nil);
    PlugInorder(c, Bin(Nil, x, red, Nil));
    var s := Before(c) + After(c);
    assert Inorder(Plug(c, Nil)) == s;
    assert s[..|Before(c)|] == Before(c) && s[|Before(c)|..] == After(c);
    assert Ordered(Before(c)) by { assert forall i :: 0 <= i < |Before(c)| ==> s[i] == Before(c)[i]; }
    assert Ordered(After(c)) by { assert forall i :: 0 <= i < |After(c)| ==> s[|Before(c)| + i] == After(c)[i]; }
    OrderedParts(Before(c), x, After(c));
    assert Inorder(Bin(Nil, x, red, Nil)) == [x];
  }

  lemma {:induction false} WithoutOrdered(s: seq<Node>, s': seq<Node>, pos: nat)
    requires Ordered(s) && LeavesOut(s, s', pos)
    ensures Ordered(s')
  {
    assert forall i :: 0 <= i < |s'| ==> s'[i] == if i < pos then s[i] else s[i + 1];
  }

  /** A node with an empty side leaves; the rest stays in order. */
  lemma {:induction false} SplicedInorder(c: Ctx, t: Tree, k: Tree)
    requires t.Bin? && (t.l.Nil? || t.r.Nil?) && k == OnlyChild(t)
    ensures var pos := |Before(c)| + |Inorder(t.l)|;
      && LeavesOut(Inorder(Plug(c, t)), Inorder(Plug(c, k)), pos)
      && Inorder(Plug(c, t))[pos] == t.n
  {
    PlugInorder(c, t);
    PlugInorder(c, k);
    var a, b := Before(c) + Inorder(t.l), Inorder(t.r) + After(c);
    Regroup(Before(c), Inorder(t.l), [t.n], Inorder(t.r), After(c));
    Regroup(Before(c), Inorder(t.l), [], Inorder(t.r), After(c));
    assert Inorder(k) == Inorder(t.l) + [] + Inorder(t.r);
    CutOut(a, t.n, b);
    assert a + [] + b == a + b;
  }

  /** The place of `x` in `t`, itself standing in `c`. */
  ghost function Find(c: Ctx, t: Tree, x: Node): (r: (Ctx, Tree))
    requires x in Nodes(t)
    ensures Plug(r.0, r.1) == Plug(c, t) && r.1.Bin? && r.1.n == x
    decreases t
  {
    if t.n == x then (c, t)
    else if x in Nodes(t.l) then Find(Below(c, t, true), t.l, x)
    else Find(Below(c, t, false), t.r, x)
  }

  /** The successor's node, with an empty left side, takes the place of the node above its spine. */
  lemma {:induction false} SuccessorTakesPlace(spine: Ctx, c: Ctx, t: Tree, s: Tree)
    requires t.Bin? && s.Bin? && s.l.Nil? && LeftSpine(spine)
    requires RedBlackTree(Plug(SuccessorCtx(spine, c, t, t.n), s))
    ensures !s.red ==> Removing(SuccessorCtx(spine, c, t, s.n), s.r)
    ensures s.red ==> RedBlackTree(Plug(SuccessorCtx(spine, c, t, s.n), s.r))
  {
    var co, cn := SuccessorCtx(spine, c, t, t.n), SuccessorCtx(spine, c, t, s.n);
    PlugRedBlack(co, s);
    SuccessorColours(spine, c, t, t.n, s.n, BlackHeight(s), s.red);
    TakenOut(cn, s, s.r);
  }

  lemma {:induction false} SuccessorInorder(spine: Ctx, c: Ctx, t: Tree, s: Tree)
    requires t.Bin? && s.Bin? && s.l.Nil? && LeftSpine(spine)
    ensures
      var all := Inorder(Plug(SuccessorCtx(spine, c, t, t.n), s));
      var pos := |Before(c) + Inorder(t.l)|;
      && LeavesOut(all, Inorder(Plug(SuccessorCtx(spine, c, t, s.n), s.r)), pos)
      && all[pos] == t.n
  {
    var co, cn := SuccessorCtx(spine, c, t, t.n), SuccessorCtx(spine, c, t, s.n);
    PlugInorder(co, s);
    PlugInorder(cn, s.r);
    SuccessorColours(spine, c, t, t.n, s.n, 0, false);
    SuccessorColours(spine, c, t, s.n, t.n, 0, false);
    var a := Before(c) + Inorder(t.l);
    assert Inorder(s) == [] + [s.n] + Inorder(s.r);
    NextMovesUp(a, t.n, s.n, Inorder(s.r), After(co));
  }

  lemma {:induction false} NextMovesUp(a: seq<Node>, y: Node, x: Node, b: seq<Node>, d: seq<Node>)
    ensures LeavesOut((a + [y]) + ([] + [x] + b) + d, (a + [x]) + b + d, |a|)
    ensures ((a + [y]) + ([] + [x] + b) + d)[|a|] == y
  {
    var e := [x] + b + d;
    assert (a + [y]) + ([] + [x] + b) + d == a + [y] + e;
    assert (a + [x]) + b + d == a + e;
    CutOut(a, y, e);
  }

  /** The node above the successor's hole, once the successor has taken its new place. */
  lemma {:induction false} SuccessorParent(spine: Ctx, c: Ctx, t: Tree, k: Tree, y: Node, x: Node)
    requires t.Bin? && Distinct(Bin(t.l, y, t.red, Plug(spine, k)))
    ensures Parent(SuccessorCtx(spine, c, t, x)) ==
            if Parent(SuccessorCtx(spine, c, t, y)) == y then x else Parent(SuccessorCtx(spine, c, t, y))
  {
    PlugNodes(spine, k);
    assert spine.Frame? ==> spine.n in Nodes(Plug(spine, k));
  }
}
