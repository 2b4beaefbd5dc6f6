/** The searches and walks of tree.h, which only read the links. */
module RBQueries {
  import opened Keys
  import opened Sequences
  import opened RBShape
  import opened RBOrder
  import opened RedBlack

  // The nodes next to a gap in a sequence.
  ghost function First(s: seq<Node>): Node? {
    if s == [] then null else s[0]
  }

  ghost function Last(s: seq<Node>): Node? {
    if s == [] then null else s[|s| - 1]
  }

  lemma NodeOnce(s: seq<Node>, i: nat, j: nat)
    requires Ordered(s) && i < |s| && j < |s| && s[i] == s[j]
    ensures i == j
  {
    StrcmpOrder(s[i].key, s[j].key);
  }

  /** Taking out the first of an ordered sequence leaves the rest. */
  lemma WithoutFirst(s: seq<Node>, s': seq<Node>, pos: nat)
    requires Ordered(s) && LeavesOut(s, s', pos) && s[pos] == s[0]
    ensures s' == s[1..] && s == [s[0]] + s'
  {
    NodeOnce(s, 0, pos);
  }

  lemma Neighbours(c: Ctx, t: Tree, pos: nat)
    requires t.Bin? && Ordered(Inorder(Plug(c, t)))
    requires pos < |Inorder(Plug(c, t))| && Inorder(Plug(c, t))[pos] == t.n
    ensures Inorder(Plug(c, t))[..pos] == Before(c) + Inorder(t.l)
    ensures Inorder(Plug(c, t))[pos + 1..] == Inorder(t.r) + After(c)
  {
    Around(c, t);
    var a, b := Before(c) + Inorder(t.l), Inorder(t.r) + After(c);
    var s := a + [t.n] + b;
    assert s[|a|] == t.n;
    NodeOnce(s, pos, |a|);
    assert s[..|a|] == a && s[|a| + 1..] == b;
  }

  /** RB_FIND */
  method Find(h: Head, key: Key) returns (found: Node?)
    requires h.Searchable()
    ensures found != null ==> found in h.Repr && found.key == key
    ensures found == null ==> forall n :: n in h.Repr ==> n.key != key
  {
    var tmp := h.root;
    ghost var c, t := Top, h.tree;
    while tmp != null
      invariant h.At(c, t) && tmp == Root(t) && Brackets(c, key)
      decreases t
    {
      h.Look(c, t);
      Descend(c, t, key);
      StrcmpOrder(key, tmp.key);
      var comp := Strcmp(key, tmp.key);
      if comp < 0 {
        tmp := tmp.left;
        c, t := Below(c, t, true), t.l;
      } else if comp > 0 {
        tmp := tmp.right;
        c, t := Below(c, t, false), t.r;
      } else {
        return tmp;
      }
    }
    Absent(c, key);
    found := null;
  }

  /** No node of `S` with a key from `k` on comes before `x`; without `x` there is no such node. */
  ghost predicate FirstFrom(S: set<Node>, k: Key, x: Node?) {
    && (x == null ==> forall n :: n in S ==> Less(n.key, k))
    && (x != null ==> x in S && !Less(x.key, k) && forall n :: n in S && !Less(n.key, k) ==> !Less(n.key, x.key))
  }

  /** RB_NFIND: the first node whose key is not below `key`. */
  method NFind(h: Head, key: Key) returns (res: Node?)
    requires h.Searchable()
    ensures FirstFrom(h.Repr, key, res)
  {
    var tmp := h.root;
    res := null;
    ghost var c, t := Top, h.tree;
    while tmp != null
      invariant h.At(c, t) && tmp == Root(t) && Brackets(c, key) && res == First(After(c))
      decreases t
    {
      h.Look(c, t);
      Descend(c, t, key);
      StrcmpOrder(key, tmp.key);
      var comp := Strcmp(key, tmp.key);
      if comp < 0 {
        res := tmp;
        tmp := tmp.left;
        c, t := Below(c, t, true), t.l;
      } else if comp > 0 {
        tmp := tmp.right;
        c, t := Below(c, t, false), t.r;
      } else {
        FirstFromItself(h.Repr, tmp);
        return tmp;
      }
    }
    FirstFromGap(h.tree, c, key);
  }

  lemma FirstFromItself(S: set<Node>, x: Node)
    requires x in S
    ensures FirstFrom(S, x.key, x)
  {
    StrcmpOrder(x.key, x.key);
  }

  lemma FirstFromGap(t: Tree, c: Ctx, k: Key)
    requires t == Plug(c, Nil) && Ordered(Inorder(t)) && Brackets(c, k)
    ensures FirstFrom(Nodes(t), k, First(After(c)))
  {
    PlugInorder(c, Nil);
    InorderNodes(t);
    assert Inorder(t) == Before(c) + After(c);
    forall n | n in Nodes(t) && !Less(n.key, k) ensures n in After(c) && !Less(n.key, After(c)[0].key) {
      assert n in Before(c) + After(c) && n !in Before(c);
      FirstIsLeast(Inorder(t), |Before(c)|, n);
    }
    if After(c) != [] {
      StrcmpOrder(k, After(c)[0].key);
      assert After(c)[0] in Inorder(t);
    }
  }

  lemma FirstIsLeast(s: seq<Node>, i: nat, n: Node)
    requires Ordered(s) && i < |s| && n in s[i..]
    ensures !Less(n.key, s[i].key)
  {
    var j :| i <= j < |s| && s[j] == n;
    StrcmpOrder(s[i].key, n.key);
  }

  /** RB_MINMAX: the first node in order if `val` is negative, else the last. */
  method MinMax(h: Head, val: int) returns (parent: Node?)
    requires h.Valid()
    ensures parent == if val < 0 then First(Inorder(h.tree)) else Last(Inorder(h.tree))
  {
    var tmp := h.root;
    parent := null;
    ghost var c, t := Top, h.tree;
    while tmp != null
      invariant h.At(c, t) && tmp == Root(t)
      invariant if val < 0 then Before(c) == [] && parent == First(After(c))
                else After(c) == [] && parent == Last(Before(c))
      decreases t
    {
      h.Look(c, t);
      parent := tmp;
      if val < 0 {
        tmp := tmp.left;
        c, t := Below(c, t, true), t.l;
      } else {
        tmp := tmp.right;
        c, t := Below(c, t, false), t.r;
      }
    }
    PlugInorder(c, Nil);
    assert Before(c) + [] + After(c) == Before(c) + After(c);
  }

  /** RB_NEXT: the node after `elm0` in order, or null after the last one. */
  method Next(h: Head, elm0: Node, ghost pos: nat) returns (elm: Node?)
    requires h.Searchable() && pos < |Inorder(h.tree)| && Inorder(h.tree)[pos] == elm0
    ensures elm == First(Inorder(h.tree)[pos + 1..])
  {
    InorderNodes(h.tree);
    ghost var c, t := RBOrder.Find(Top, h.tree, elm0).0, RBOrder.Find(Top, h.tree, elm0).1;
    Neighbours(c, t, pos);
    h.Look(c, t);
    elm := elm0;
    if elm.right != null {
      elm := Leftmost(h, elm.right, Below(c, t, false), t.r);
    } else {
      if elm.parent != null && elm == elm.parent.left {
        elm := elm.parent;
      } else {
        elm := Climb(h, elm, c, t);
      }
    }
  }

  method Leftmost(h: Head, elm0: Node, ghost c0: Ctx, ghost t0: Tree) returns (elm: Node)
    requires h.At(c0, t0) && t0.Bin? && elm0 == t0.n
    ensures [elm] <= Inorder(t0)
  {
    elm := elm0;
    ghost var c, t := c0, t0;
    h.Look(c, t);
    while elm.left != null
      invariant h.At(c, t) && t.Bin? && elm == t.n && elm in h.Repr && elm.left == Root(t.l)
      invariant Inorder(t) <= Inorder(t0)
      decreases t
    {
      elm := elm.left;
      c, t := Below(c, t, true), t.l;
      h.Look(c, t);
    }
  }

  /** Up from a node with nothing on its right, until the way up came from the left. */
  method Climb(h: Head, elm0: Node, ghost c0: Ctx, ghost t0: Tree) returns (elm: Node?)
    requires h.At(c0, t0) && t0.Bin? && elm0 == t0.n
    ensures elm == First(After(c0))
  {
    elm := elm0;
    ghost var c, t := c0, t0;
    h.Look(c, t);
    while elm.parent != null && elm == elm.parent.right
      invariant h.At(c, t) && t.Bin? && elm == t.n && elm in h.Repr && elm.parent == Parent(c)
      invariant c.Frame? ==> c.n in h.Repr && (elm == c.n.right <==> !c.onLeft)
      invariant After(c) == After(c0)
      decreases c
    {
      elm := elm.parent;
      c, t := c.up, Fill(c, t);
      h.Look(c, t);
    }
    elm := elm.parent;
  }
}
