/** The splay macros of tree.h on real nodes: every link is rewritten in place. */
module Splay {
  import opened Keys
  import opened Sequences
  import opened SplayShape
  import opened SplayMemory

  ghost predicate Ordered(s: seq<SNode>) {
    forall i, j :: 0 <= i < j < |s| ==> Less(s[i].key, s[j].key)
  }

  ghost predicate AllBelow(s: seq<SNode>, k: Key) {
    forall i :: 0 <= i < |s| ==> Less(s[i].key, k)
  }

  ghost predicate AllAbove(s: seq<SNode>, k: Key) {
    forall i :: 0 <= i < |s| ==> Less(k, s[i].key)
  }

  lemma OrderedParts(a: seq<SNode>, x: SNode, b: seq<SNode>)
    ensures Ordered(a + [x] + b) <==> Ordered(a) && Ordered(b) && AllBelow(a, x.key) && AllAbove(b, x.key)
  {
    var s := a + [x] + b;
    if Ordered(s) {
      assert forall i :: 0 <= i < |a| ==> s[i] == a[i];
      assert forall i :: 0 <= i < |b| ==> s[|a| + 1 + i] == b[i];
      assert s[|a|] == x;
    }
    if Ordered(a) && Ordered(b) && AllBelow(a, x.key) && AllAbove(b, x.key) {
      forall i, j | 0 <= i < j < |s| ensures Less(s[i].key, s[j].key) {
        if i < |a| < j {
          StrcmpTransitive(a[i].key, x.key, b[j - |a| - 1].key);
        }
      }
    }
  }

  lemma AboveTransitive(s: seq<SNode>, k: Key, k': Key)
    requires AllAbove(s, k) && Less(k', k)
    ensures AllAbove(s, k')
  {
    forall i | 0 <= i < |s| ensures Less(k', s[i].key) {
      StrcmpTransitive(k', k, s[i].key);
    }
  }

  lemma BelowTransitive(s: seq<SNode>, k: Key, k': Key)
    requires AllBelow(s, k) && Less(k, k')
    ensures AllBelow(s, k')
  {
    forall i | 0 <= i < |s| ensures Less(s[i].key, k') {
      StrcmpTransitive(s[i].key, k, k');
    }
  }

  /** `k` lies between the two side trees. */
  ghost predicate Between(l: Side, r: Side, k: Key) {
    AllBelow(LeftSeq(l), k) && AllAbove(RightSeq(r), k)
  }

  /** What stands on the two sides of the root of `t`. */
  lemma AroundRoot(l: Side, t: Tree, r: Side)
    requires t.Bin? && Ordered(All(l, t, r))
    ensures AllBelow(LeftSeq(l) + Inorder(t.l), t.n.key) && AllAbove(Inorder(t.r) + RightSeq(r), t.n.key)
  {
    Regroup(LeftSeq(l), Inorder(t.l), [t.n], Inorder(t.r), RightSeq(r));
    OrderedParts(LeftSeq(l) + Inorder(t.l), t.n, Inorder(t.r) + RightSeq(r));
  }

  /** Linking a root above the key into the right side tree, or one below it into the left. */
  lemma LinkBetween(l: Side, t: Tree, r: Side, k: Key)
    requires t.Bin? && Ordered(All(l, t, r)) && Between(l, r, k)
    ensures Less(k, t.n.key) ==> Between(l, Below(r, t.n, t.r), k)
    ensures Less(t.n.key, k) ==> Between(Below(l, t.n, t.l), r, k)
  {
    AroundRoot(l, t, r);
    if Less(k, t.n.key) {
      AboveTransitive(Inorder(t.r) + RightSeq(r), t.n.key, k);
      assert RightSeq(Below(r, t.n, t.r)) == [t.n] + (Inorder(t.r) + RightSeq(r));
    }
    if Less(t.n.key, k) {
      BelowTransitive(LeftSeq(l) + Inorder(t.l), t.n.key, k);
      assert LeftSeq(Below(l, t.n, t.l)) == (LeftSeq(l) + Inorder(t.l)) + [t.n];
    }
  }

  /** Everything left of the root is below the key and everything right of it above:
      the root has the key, or is a neighbour of where the key would stand. */
  ghost predicate Splayed(t: Tree, k: Key) {
    t.Bin? && AllBelow(Inorder(t.l), k) && AllAbove(Inorder(t.r), k)
  }

  /** The loop stops at the key, or where the way on is empty. */
  lemma StopSplayed(l: Side, t: Tree, r: Side, node: SNode, k: Key)
    requires t.Bin? && Apart(l, t, r, node) && Ordered(All(l, t, r)) && Between(l, r, k)
    requires t.n.key == k || (Less(k, t.n.key) && t.l.Nil?) || (Less(t.n.key, k) && t.r.Nil?)
    ensures Splayed(Assembled(l, t, r), k)
  {
    AssembledFacts(l, t, r, node);
    AroundRoot(l, t, r);
    if Less(k, t.n.key) {
      AboveTransitive(Inorder(t.r) + RightSeq(r), t.n.key, k);
    }
    if Less(t.n.key, k) {
      BelowTransitive(LeftSeq(l) + Inorder(t.l), t.n.key, k);
    }
  }

  /** `struct name` of SPLAY_HEAD. */
  class Head {
    var root: SNode?
    ghost var tree: Tree
    ghost var Repr: set<SNode>

    ghost predicate Valid()
      reads this, Repr
    {
      root == Root(tree) && Nodes(tree) == Repr && Rep(Mem(Repr), tree) && Distinct(tree)
    }

    /** A splay is under way: `l` and `r` are the side trees hanging from `node`. */
    ghost predicate Splaying(l: Side, t: Tree, r: Side, node: SNode)
      reads this, Repr, node
    {
      && root == Root(t) && t.Bin? && node !in Repr && AllNodes(l, t, r) == Repr
      && Held(Mem(Repr + {node}), l, t, r, node)
    }

    lemma Look(l: Side, t: Tree, r: Side, node: SNode)
      requires Splaying(l, t, r, node)
      ensures root == t.n && root in Repr && root.left == Root(t.l) && root.right == Root(t.r)
      ensures t.l.Bin? ==> t.l.n in Repr
      ensures t.r.Bin? ==> t.r.n in Repr
      ensures Apart(l, t, r, node)
    {
    }

    lemma Ends(l: Side, t: Tree, r: Side, node: SNode)
      requires Splaying(l, t, r, node)
      ensures Bottom(l, node) in Repr + {node} && Bottom(r, node) in Repr + {node}
      ensures t.n != node && Bottom(l, node) != t.n && Bottom(r, node) != t.n
    {
      hide Rep, RepLeft, RepRight, Distinct, DistinctSide;
    }

    lemma StartSplay(node: SNode, key: Key)
      requires Valid() && root != null && node !in Repr
      ensures Splaying(Empty, tree, Empty, node) && All(Empty, tree, Empty) == Inorder(tree)
      ensures Between(Empty, Empty, key)
    {
      FrameRep(Mem(Repr), Mem(Repr + {node}), tree);
    }

    /** SPLAY_ROTATE_RIGHT; `tmp` holds the left child of the root. */
    method RotateRight(tmp: SNode, ghost l: Side, ghost t: Tree, ghost r: Side, ghost node: SNode)
      requires Splaying(l, t, r, node) && t.l.Bin? && tmp == t.l.n
      modifies this`root, Repr
      ensures Splaying(l, RotatedRight(t), r, node) && All(l, RotatedRight(t), r) == All(l, t, r)
    {
      ghost var m := Mem(Repr + {node});
      assert Rep(m, t.l);
      root.left := tmp.right;
      tmp.right := root;
      root := tmp;
      TurnRightHeld(m, Mem(Repr + {node}), l, t, r, node);
      RotationsKeepOrder(t);
    }

    /** SPLAY_ROTATE_LEFT; `tmp` holds the right child of the root. */
    method RotateLeft(tmp: SNode, ghost l: Side, ghost t: Tree, ghost r: Side, ghost node: SNode)
      requires Splaying(l, t, r, node) && t.r.Bin? && tmp == t.r.n
      modifies this`root, Repr
      ensures Splaying(l, RotatedLeft(t), r, node) && All(l, RotatedLeft(t), r) == All(l, t, r)
    {
      ghost var m := Mem(Repr + {node});
      assert Rep(m, t.r);
      root.right := tmp.left;
      tmp.left := root;
      root := tmp;
      TurnLeftHeld(m, Mem(Repr + {node}), l, t, r, node);
      RotationsKeepOrder(t);
    }

    /** SPLAY_LINKLEFT; the root joins the right side tree. */
    method LinkLeft(tmp0: SNode, ghost l: Side, ghost t: Tree, ghost r: Side, ghost node: SNode) returns (tmp: SNode)
      requires Splaying(l, t, r, node) && t.l.Bin? && tmp0 == Bottom(r, node)
      modifies this`root, Repr, node
      ensures Splaying(l, t.l, Below(r, t.n, t.r), node) && All(l, t.l, Below(r, t.n, t.r)) == All(l, t, r)
      ensures tmp == t.n
    {
      ghost var m := Mem(Repr + {node});
      tmp := tmp0;
      tmp.left := root;
      tmp := root;
      root := root.left;
      LinkLeftHeld(m, Mem(Repr + {node}), l, t, r, node);
      LinksKeepAll(l, t, r);
    }

    /** SPLAY_LINKRIGHT; the root joins the left side tree. */
    method LinkRight(tmp0: SNode, ghost l: Side, ghost t: Tree, ghost r: Side, ghost node: SNode) returns (tmp: SNode)
      requires Splaying(l, t, r, node) && t.r.Bin? && tmp0 == Bottom(l, node)
      modifies this`root, Repr, node
      ensures Splaying(Below(l, t.n, t.l), t.r, r, node) && All(Below(l, t.n, t.l), t.r, r) == All(l, t, r)
      ensures tmp == t.n
    {
      ghost var m := Mem(Repr + {node});
      tmp := tmp0;
      tmp.right := root;
      tmp := root;
      root := root.right;
      LinkRightHeld(m, Mem(Repr + {node}), l, t, r, node);
      LinksKeepAll(l, t, r);
    }

    /** The holes of the side trees are filled with the children of the root. */
    method FillHoles(node: SNode, left: SNode, right: SNode, ghost l: Side, ghost t: Tree, ghost r: Side)
      returns (ghost m1: Memory)
      requires Splaying(l, t, r, node) && left == Bottom(l, node) && right == Bottom(r, node)
      modifies Repr, node
      ensures Stores(old(Mem(Repr + {node})), m1, left, old(Mem(Repr + {node}))[left].(right := Root(t.l)))
      ensures Stores(m1, Mem(Repr + {node}), right, m1[right].(left := Root(t.r)))
    {
      hide Rep, RepLeft, RepRight, Distinct, DistinctSide, Nodes, SideNodes, Apart;
      Look(l, t, r, node);
      Ends(l, t, r, node);
      left.right := root.left;
      m1 := Mem(Repr + {node});
      right.left := root.right;
    }

    /** SPLAY_ASSEMBLE */
    method Assemble(node: SNode, left: SNode, right: SNode, ghost l: Side, ghost t: Tree, ghost r: Side)
      requires Splaying(l, t, r, node) && left == Bottom(l, node) && right == Bottom(r, node)
      modifies this`root, this`tree, Repr, node
      ensures Valid() && tree == Assembled(l, t, r)
    {
      hide Rep, RepLeft, RepRight, Distinct, DistinctSide, Nodes, SideNodes, Apart, Assembled;
      ghost var m := Mem(Repr + {node});
      Look(l, t, r, node);
      Ends(l, t, r, node);
      ghost var m1 := FillHoles(node, left, right, l, t, r);
      ghost var m2 := Mem(Repr + {node});
      root.left, root.right := node.right, node.left;
      ghost var m3 := Mem(Repr + {node});
      AssembleDone(m, m1, m2, m3, Mem(Repr), l, t, r, node);
      tree := Assembled(l, t, r);
    }

    /** SPLAY: moves a node with the key, or one next to its place, to the root. */
    method Splay(key: Key)
      requires Valid() && root != null && Ordered(Inorder(tree))
      modifies this`root, this`tree, Repr
      ensures Valid() && Inorder(tree) == old(Inorder(tree)) && Splayed(tree, key)
    {
      hide Rep, RepLeft, RepRight, Apart, Distinct, Held, Strcmp, Ordered, Between, All, Inorder;
      var node := new SNode("");
      node.left, node.right := null, null;
      var left, right := node, node;
      ghost var l, t, r := Empty, tree, Empty;
      StartSplay(node, key);
      var comp := Strcmp(key, root.key);
      while comp != 0
        invariant Splaying(l, t, r, node) && left == Bottom(l, node) && right == Bottom(r, node)
        invariant All(l, t, r) == old(Inorder(tree)) && Between(l, r, key)
        invariant comp == Strcmp(key, root.key)
        modifies this`root, Repr, node
        decreases t
      {
        Look(l, t, r, node);
        StrcmpOrder(key, root.key);
        if comp < 0 {
          var tmp := root.left;
          if tmp == null {
            break;
          }
          StrcmpOrder(key, tmp.key);
          if Strcmp(key, tmp.key) < 0 {
            RotateRight(tmp, l, t, r, node);
            t := RotatedRight(t);
            Look(l, t, r, node);
            if root.left == null {
              break;
            }
          }
          LinkBetween(l, t, r, key);
          right := LinkLeft(right, l, t, r, node);
          t, r := t.l, Below(r, t.n, t.r);
        } else if comp > 0 {
          var tmp := root.right;
          if tmp == null {
            break;
          }
          StrcmpOrder(key, tmp.key);
          if Strcmp(key, tmp.key) > 0 {
            RotateLeft(tmp, l, t, r, node);
            t := RotatedLeft(t);
            Look(l, t, r, node);
            if root.right == null {
              break;
            }
          }
          LinkBetween(l, t, r, key);
          left := LinkRight(left, l, t, r, node);
          l, t := Below(l, t.n, t.l), t.r;
        }
        comp := Strcmp(key, root.key);
      }
      StrcmpOrder(key, root.key);
      Look(l, t, r, node);
      StopSplayed(l, t, r, node, key);
      AssembledFacts(l, t, r, node);
      Assemble(node, left, right, l, t, r);
    }

    /** A search tree. */
    ghost predicate Searchable()
      reads this, Repr
    {
      Valid() && Ordered(Inorder(tree))
    }

    constructor ()
      ensures Searchable() && Repr == {}
    {
      root, tree, Repr := null, Nil, {};
    }

    /** SPLAY_FIND */
    method Find(key: Key) returns (found: SNode?)
      requires Searchable()
      modifies this`root, this`tree, Repr
      ensures Searchable() && Inorder(tree) == old(Inorder(tree))
      ensures found != null ==> found in Repr && found.key == key && root == found
      ensures found == null ==> forall n :: n in Repr ==> n.key != key
    {
      if root == null {
        return null;
      }
      Splay(key);
      StrcmpOrder(key, root.key);
      if Strcmp(key, root.key) == 0 {
        return root;
      }
      SplayedAbsent(tree, key);
      return null;
    }

    /** SPLAY_MINMAX: brings the first node in order to the root if `comp` is negative, else the last. */
    method SplayMinMax(comp: int)
      requires Valid() && root != null && comp != 0
      modifies this`root, this`tree, Repr
      ensures Valid() && Inorder(tree) == old(Inorder(tree)) && tree.Bin?
      ensures if comp < 0 then tree.l.Nil? else tree.r.Nil?
    {
      hide Rep, RepLeft, RepRight, Apart, Distinct, Held, All, Inorder;
      var node := new SNode("");
      node.left, node.right := null, null;
      var left, right := node, node;
      ghost var l, t, r := Empty, tree, Empty;
      StartSplay(node, "");
      while true
        invariant Splaying(l, t, r, node) && left == Bottom(l, node) && right == Bottom(r, node)
        invariant All(l, t, r) == old(Inorder(tree)) && if comp < 0 then l.Empty? else r.Empty?
        modifies this`root, Repr, node
        decreases t
      {
        Look(l, t, r, node);
        if comp < 0 {
          var tmp := root.left;
          if tmp == null {
            break;
          }
          RotateRight(tmp, l, t, r, node);
          t := RotatedRight(t);
          Look(l, t, r, node);
          if root.left == null {
            break;
          }
          right := LinkLeft(right, l, t, r, node);
          t, r := t.l, Below(r, t.n, t.r);
        } else if comp > 0 {
          var tmp := root.right;
          if tmp == null {
            break;
          }
          RotateLeft(tmp, l, t, r, node);
          t := RotatedLeft(t);
          Look(l, t, r, node);
          if root.right == null {
            break;
          }
          left := LinkRight(left, l, t, r, node);
          l, t := Below(l, t.n, t.l), t.r;
        }
      }
      Look(l, t, r, node);
      AssembledFacts(l, t, r, node);
      Assemble(node, left, right, l, t, r);
    }

    /** SPLAY_NEXT: the node after `elm0` in order, or null after the last one. */
    method Next(elm0: SNode, ghost pos: nat) returns (elm: SNode?)
      requires Searchable() && pos < |Inorder(tree)| && Inorder(tree)[pos] == elm0
      modifies this`root, this`tree, Repr
      ensures Searchable() && Inorder(tree) == old(Inorder(tree))
      ensures elm == if pos + 1 < |Inorder(tree)| then Inorder(tree)[pos + 1] else null
    {
      Splay(elm0.key);
      elm := elm0;
      RootIs(tree, elm, pos);
      ghost var t := tree.r;
      assert Rep(Mem(Repr), tree) && Rep(Mem(Repr), t);
      assert t.Bin? ==> Rep(Mem(Repr), t.l);
      if elm.right != null {
        elm := elm.right;
        while elm.left != null
          invariant t.Bin? && elm == t.n && elm in Repr && elm.left == Root(t.l) && Rep(Mem(Repr), t)
          invariant Inorder(t)[0] == Inorder(tree.r)[0]
          modifies {}
          decreases t
        {
          elm := elm.left;
          t := t.l;
          assert t.Bin? && Rep(Mem(Repr), t.l);
        }
      } else {
        elm := null;
      }
    }

    /** SPLAY_INSERT: the node already holding the key, or null once `elm` is at the root. */
    method Insert(elm: SNode) returns (found: SNode?)
      requires Searchable() && elm !in Repr
      modifies this, Repr, elm
      ensures Searchable()
      ensures found != null ==>
                found in Repr && found.key == elm.key && Repr == old(Repr) && Inorder(tree) == old(Inorder(tree))
      ensures found == null ==>
                && root == elm && Repr == old(Repr) + {elm}
                && old(Inorder(tree)) == Inorder(tree.l) + Inorder(tree.r)
                && Inorder(tree) == Inorder(tree.l) + [elm] + Inorder(tree.r)
      ensures found == null <==> forall n :: n in old(Repr) ==> n.key != elm.key
    {
      if root == null {
        elm.left, elm.right := null, null;
        tree := Bin(Nil, elm, Nil);
        root := elm;
        Repr := Repr + {elm};
        return null;
      }
      Splay(elm.key);
      StrcmpOrder(elm.key, root.key);
      var comp := Strcmp(elm.key, root.key);
      if comp == 0 {
        return root;
      }
      SplayedAbsent(tree, elm.key);
      InsertAtRoot(tree, elm, comp < 0);
      PutAtRoot(elm, comp < 0);
      return null;
    }

    /** SPLAY_REMOVE: `elm` itself if a node with its key was there and is gone, else null. */
    method Remove(elm: SNode) returns (removed: SNode?, ghost pos: nat)
      requires Searchable()
      modifies this, Repr
      ensures Searchable() && Repr <= old(Repr)
      ensures removed == null ==> Inorder(tree) == old(Inorder(tree)) && forall n :: n in old(Repr) ==> n.key != elm.key
      ensures removed != null ==>
                && removed == elm && LeavesOut(old(Inorder(tree)), Inorder(tree), pos)
                && old(Inorder(tree))[pos].key == elm.key
    {
      pos := 0;
      if root == null {
        return null, 0;
      }
      Splay(elm.key);
      StrcmpOrder(elm.key, root.key);
      if Strcmp(elm.key, root.key) == 0 {
        pos := |Inorder(tree.l)|;
        RemoveRoot(elm.key);
        return elm, pos;
      }
      SplayedAbsent(tree, elm.key);
      return null, 0;
    }

    /** SPLAY_REMOVE: the left subtree is splayed for the key and takes the right one. */
    method RemoveRoot(key: Key)
      requires Searchable() && root != null && root.key == key
      modifies this, Repr
      ensures Searchable() && Repr <= old(Repr)
      ensures var s := old(Inorder(tree.l)); LeavesOut(old(Inorder(tree)), Inorder(tree), |s|)
      ensures old(Inorder(tree))[|old(Inorder(tree.l))|] == old(root)
    {
      ghost var t, m := tree, Mem(Repr);
      hide Ordered, AllBelow, Splayed, Strcmp;
      RootCut(t);
      if root.left == null {
        root := root.right;
        tree, Repr := t.r, Nodes(t.r);
        FrameRep(m, Mem(Repr), tree);
        assert Inorder(t.l) + Inorder(t.r) == Inorder(t.r);
      } else {
        var tmp := root.right;
        root := root.left;
        tree, Repr := t.l, Nodes(t.l);
        FrameRep(m, Mem(Repr), tree);
        OrderedParts(Inorder(t.l), t.n, Inorder(t.r));
        Splay(key);
        LastOnTop(tree, key);
        Join(tmp, m, t.r);
      }
    }

    /** The root, with nothing on its right, takes the tree `r` there. */
    method Join(tmp: SNode?, ghost m: Memory, ghost r: Tree)
      requires Valid() && tree.Bin? && tree.r.Nil? && tmp == Root(r)
      requires Rep(m, r) && Distinct(r) && Nodes(r) !! Repr
      requires forall n :: n in Nodes(r) && n in m ==> m[n] == Cell(n.left, n.right)
      modifies this, Repr
      ensures Valid() && Repr == old(Repr) + Nodes(r) && Inorder(tree) == old(Inorder(tree)) + Inorder(r)
    {
      ghost var m0, t := Mem(Repr), tree;
      root.right := tmp;
      Repr := Repr + Nodes(r);
      tree := Bin(t.l, t.n, r);
      FrameRep(m, Mem(Repr), r);
      FrameRep(m0, Mem(Repr), t.l);
      assert Inorder(t) == Inorder(t.l) + [t.n];
    }

    /** SPLAY_INSERT: the old root goes to one side of `elm`, leaving one of its children on the other. */
    method PutAtRoot(elm: SNode, above: bool)
      requires Valid() && root != null && elm !in Repr
      modifies this, Repr, elm
      ensures Valid() && tree == InsertedAtRoot(old(tree), elm, above) && root == elm && Repr == old(Repr) + {elm}
    {
      ghost var m, t := Mem(Repr), tree;
      if above {
        elm.left := root.left;
        elm.right := root;
        root.left := null;
      } else {
        elm.right := root.right;
        elm.left := root;
        root.right := null;
      }
      root := elm;
      Repr := Repr + {elm};
      tree := InsertedAtRoot(t, elm, above);
      InsertedRep(m, Mem(Repr), t, elm, above);
    }
  }

  /** A splay for the key of a node in the tree brings that node up. */
  lemma RootIs(t: Tree, x: SNode, pos: nat)
    requires Splayed(t, x.key) && Ordered(Inorder(t)) && pos < |Inorder(t)| && Inorder(t)[pos] == x
    ensures t.n == x && pos == |Inorder(t.l)|
  {
    var a, b := Inorder(t.l), Inorder(t.r);
    assert Inorder(t) == a + [t.n] + b;
    hide Strcmp, Inorder, Ordered;
    StrcmpOrder(x.key, x.key);
    JoinedAt(a, t.n, b, pos);
  }

  /** Taking the root away leaves an ordered sequence. */
  lemma RootCut(t: Tree)
    requires t.Bin? && Ordered(Inorder(t))
    ensures LeavesOut(Inorder(t), Inorder(t.l) + Inorder(t.r), |Inorder(t.l)|) && Inorder(t)[|Inorder(t.l)|] == t.n
    ensures Ordered(Inorder(t.l)) && Ordered(Inorder(t.r)) && Ordered(Inorder(t.l) + Inorder(t.r))
  {
    CutOut(Inorder(t.l), t.n, Inorder(t.r));
    OrderedParts(Inorder(t.l), t.n, Inorder(t.r));
    CutOrdered(Inorder(t.l), t.n, Inorder(t.r));
  }

  lemma CutOrdered(a: seq<SNode>, x: SNode, b: seq<SNode>)
    requires Ordered(a + [x] + b)
    ensures Ordered(a + b)
  {
    var s, s' := a + [x] + b, a + b;
    forall i, j | 0 <= i < j < |s'| ensures Less(s'[i].key, s'[j].key) {
      var i0, j0 := if i < |a| then i else i + 1, if j < |a| then j else j + 1;
      assert s'[i] == s[i0] && s'[j] == s[j0];
    }
  }

  /** Splaying for a key above every node brings the last node up, with nothing on its right. */
  lemma LastOnTop(t: Tree, k: Key)
    requires Splayed(t, k) && AllBelow(Inorder(t), k)
    ensures t.r.Nil?
  {
    if t.r.Bin? {
      var n := Inorder(t.r)[|Inorder(t.r.l)|];
      assert Inorder(t)[|Inorder(t.l)| + 1 + |Inorder(t.r.l)|] == n;
      StrcmpOrder(n.key, k);
    }
  }

  lemma {:induction false} InorderNodes(t: Tree)
    ensures forall n :: n in Nodes(t) ==> n in Inorder(t)
    ensures forall n :: n in Inorder(t) ==> n in Nodes(t)
  {
    if t.Bin? {
      InorderNodes(t.l);
      InorderNodes(t.r);
    }
  }

  /** If the splayed root does not have the key, no node does. */
  lemma SplayedAbsent(t: Tree, k: Key)
    requires Splayed(t, k) && t.n.key != k
    ensures forall n :: n in Nodes(t) ==> n.key != k
  {
    StrcmpOrder(k, k);
    InorderNodes(t.l);
    InorderNodes(t.r);
  }

  ghost function InsertedAtRoot(t: Tree, x: SNode, above: bool): Tree
    requires t.Bin?
  {
    if above then Bin(t.l, x, Bin(Nil, t.n, t.r)) else Bin(Bin(t.l, t.n, Nil), x, t.r)
  }

  lemma SplitAbove(a: seq<SNode>, y: SNode, b: seq<SNode>, x: SNode)
    requires Ordered(a + [y] + b) && AllBelow(a, x.key) && Less(x.key, y.key)
    ensures Ordered(a + [x] + ([] + [y] + b)) && a + [y] + b == a + ([] + [y] + b)
  {
    OrderedParts(a, y, b);
    AboveTransitive(b, y.key, x.key);
    OrderedParts([], y, b);
    OrderedParts(a, x, [] + [y] + b);
  }

  lemma SplitBelow(a: seq<SNode>, y: SNode, b: seq<SNode>, x: SNode)
    requires Ordered(a + [y] + b) && AllAbove(b, x.key) && Less(y.key, x.key)
    ensures Ordered((a + [y] + []) + [x] + b) && a + [y] + b == (a + [y] + []) + b
  {
    OrderedParts(a, y, b);
    BelowTransitive(a, y.key, x.key);
    OrderedParts(a, y, []);
    OrderedParts(a + [y] + [], x, b);
  }

  /** The new root splits the order where its key belongs. */
  lemma InsertAtRoot(t: Tree, x: SNode, above: bool)
    requires Splayed(t, x.key) && Ordered(Inorder(t)) && (if above then Less(x.key, t.n.key) else Less(t.n.key, x.key))
    ensures var t' := InsertedAtRoot(t, x, above);
      Inorder(t) == Inorder(t'.l) + Inorder(t'.r) && Ordered(Inorder(t'))
  {
    hide Ordered, AllBelow, AllAbove;
    if above {
      SplitAbove(Inorder(t.l), t.n, Inorder(t.r), x);
      assert Inorder(Bin(Nil, t.n, t.r)) == [] + [t.n] + Inorder(t.r);
    } else {
      SplitBelow(Inorder(t.l), t.n, Inorder(t.r), x);
      assert Inorder(Bin(t.l, t.n, Nil)) == Inorder(t.l) + [t.n] + [];
    }
  }

  lemma InsertedRep(m: Memory, m': Memory, t: Tree, x: SNode, above: bool)
    requires t.Bin? && Rep(m, t) && Distinct(t) && x !in Nodes(t)
    requires forall n :: n in m && n != t.n && n != x ==> n in m' && m'[n] == m[n]
    requires t.n in m' && x in m' && m'[t.n] == (if above then Cell(null, Root(t.r)) else Cell(Root(t.l), null))
    requires m'[x] == (if above then Cell(Root(t.l), t.n) else Cell(t.n, Root(t.r)))
    ensures var t' := InsertedAtRoot(t, x, above); Rep(m', t') && Distinct(t') && Nodes(t') == Nodes(t) + {x}
  {
    FrameRep(m, m', t.l);
    FrameRep(m, m', t.r);
    var side := if above then Bin(Nil, t.n, t.r) else Bin(t.l, t.n, Nil);
    assert Rep(m', side) && Distinct(side);
    if above {
      assert Nodes(side) == {t.n} + Nodes(t.r);
    } else {
      assert Nodes(side) == Nodes(t.l) + {t.n};
    }
  }
}
