/** The red-black macros of tree.h on real nodes: every link and colour is rewritten in place. */
module RedBlack {
  import opened Keys
  import opened Sequences
  import opened RBShape
  import opened RBBalance
  import opened RBInsertion
  import opened RBRemoval
  import opened RBOrder
  import RBMemory

  /** `struct db_head`. */
  class Head {
    var root: Node?
    ghost var tree: Tree
    ghost var Repr: set<Node>

    /** The nodes of `Repr` are exactly those of `tree`, and their fields lay it out. */
    ghost predicate Valid()
      reads this, Repr`left, Repr`right, Repr`parent, Repr`red
    {
      root == Root(tree) && Nodes(tree) == Repr && Whole(Mem(Repr), tree)
    }

    ghost predicate At(c: Ctx, t: Tree)
      reads this, Repr`left, Repr`right, Repr`parent, Repr`red
    {
      Valid() && tree == Plug(c, t)
    }

    lemma Look(c: Ctx, t: Tree)
      requires At(c, t)
      ensures t.Bin? ==> t.n in Repr && t.n.left == Root(t.l) && t.n.right == Root(t.r)
                         && t.n.parent == Parent(c) && t.n.red == t.red
      ensures c.Frame? ==>
                && c.n in Repr && c.n.red == c.red && c.n.parent == Parent(c.up)
                && c.n.left == Root(if c.onLeft then t else c.sib)
                && c.n.right == Root(if c.onLeft then c.sib else t)
                && (t.Bin? ==> Root(c.sib) != t.n && t.n != c.n)
      ensures c.Top? ==> root == Root(t)
    {
      RBMemory.Cells(Mem(Repr), c, t);
    }

    /** RB_ROTATE_LEFT */
    method RotateLeft(elm: Node)
      requires RBMemory.CanTurnLeft(Mem(Repr), elm)
      modifies this`root, Repr`left, Repr`right, Repr`parent
      ensures RBMemory.TurnsLeft(old(Mem(Repr)), Mem(Repr), elm)
      ensures root == if old(elm.parent) == null then old(elm.right) else old(root)
    {
      var tmp := elm.right;
      elm.right := tmp.left;
      if elm.right != null {
        tmp.left.parent := elm;
      }
      tmp.parent := elm.parent;
      if tmp.parent != null {
        if elm == elm.parent.left {
          elm.parent.left := tmp;
        } else {
          elm.parent.right := tmp;
        }
      } else {
        root := tmp;
      }
      tmp.left := elm;
      elm.parent := tmp;
    }

    /** RB_ROTATE_RIGHT */
    method RotateRight(elm: Node)
      requires RBMemory.CanTurnRight(Mem(Repr), elm)
      modifies this`root, Repr`left, Repr`right, Repr`parent
      ensures RBMemory.TurnsRight(old(Mem(Repr)), Mem(Repr), elm)
      ensures root == if old(elm.parent) == null then old(elm.left) else old(root)
    {
      var tmp := elm.left;
      elm.left := tmp.right;
      if elm.left != null {
        tmp.right.parent := elm;
      }
      tmp.parent := elm.parent;
      if tmp.parent != null {
        if elm == elm.parent.left {
          elm.parent.left := tmp;
        } else {
          elm.parent.right := tmp;
        }
      } else {
        root := tmp;
      }
      tmp.right := elm;
      elm.parent := tmp;
    }

    method RotateLeftAt(elm: Node, ghost c: Ctx, ghost t: Tree)
      requires At(c, t) && t.Bin? && t.r.Bin? && elm == t.n
      modifies this`root, this`tree, Repr`left, Repr`right, Repr`parent
      ensures At(c, RotatedLeft(t)) && Inorder(tree) == old(Inorder(tree))
    {
      hide RBMemory.TurnsLeft, Distinct, Rep, Nodes, Inorder;
      ghost var m := Mem(Repr);
      RBMemory.CanTurn(m, c, t);
      RotateLeft(elm);
      tree := Plug(c, RotatedLeft(t));
      RBMemory.TurnLeft(m, Mem(Repr), c, t);
      RotationInorder(t);
      Refilled(c, t, RotatedLeft(t));
    }

    method RotateRightAt(elm: Node, ghost c: Ctx, ghost t: Tree)
      requires At(c, t) && t.Bin? && t.l.Bin? && elm == t.n
      modifies this`root, this`tree, Repr`left, Repr`right, Repr`parent
      ensures At(c, RotatedRight(t)) && Inorder(tree) == old(Inorder(tree))
    {
      hide RBMemory.TurnsRight, Distinct, Rep, Nodes, Inorder;
      ghost var m := Mem(Repr);
      RBMemory.CanTurn(m, c, t);
      RotateRight(elm);
      tree := Plug(c, RotatedRight(t));
      RBMemory.TurnRight(m, Mem(Repr), c, t);
      RotationInorder(t);
      Refilled(c, t, RotatedRight(t));
    }

    /** RB_COLOR(elm) = ... */
    method SetColor(elm: Node, red: bool, ghost c: Ctx, ghost t: Tree)
      requires At(c, t) && t.Bin? && elm == t.n
      modifies this`tree, elm`red
      ensures At(c, Painted(t, red)) && Inorder(tree) == old(Inorder(tree))
    {
      ghost var m := Mem(Repr);
      Look(c, t);
      elm.red := red;
      tree := Plug(c, Painted(t, red));
      RBMemory.Paint(m, Mem(Repr), c, t, red);
      Refilled(c, t, Painted(t, red));
    }

    /** RB_SET_BLACKRED, for a node and the one above it. */
    method SetBlackRed(black: Node, red: Node, ghost c: Ctx, ghost t: Tree)
      requires c.Frame? && At(c, t) && t.Bin? && black == t.n && red == c.n
      modifies this`tree, black`red, red`red
      ensures At(c.up, Painted(Fill(c, Painted(t, false)), true)) && Inorder(tree) == old(Inorder(tree))
    {
      SetColor(black, false, c, t);
      SetColor(red, true, c.up, Fill(c, Painted(t, false)));
    }

    /** The body of RB_INSERT_COLOR's loop when the parent is a left child. */
    method InsertColorLeft(elm0: Node, parent0: Node, gparent: Node, ghost c0: Ctx, ghost t0: Tree)
        returns (elm: Node, ghost c: Ctx, ghost t: Tree)
      requires At(c0, t0) && Inserting(c0, t0) && RedParent(c0) && c0.up.Frame? && c0.up.onLeft
      requires elm0 == t0.n && parent0 == c0.n && gparent == c0.up.n
      modifies this`root, this`tree, Repr`left, Repr`right, Repr`parent, Repr`red
      ensures At(c, t) && Inserting(c, t) && elm == t.n
      ensures RedParent(c) ==> c == Grand(c0)
      ensures Inorder(tree) == old(Inorder(tree))
    {
      elm, c, t := elm0, c0, t0;
      var parent := parent0;
      Grandparent(c, t);
      Look(c, t);
      Look(c.up, Fill(c, t));
      AcrossPlug(c.up, Fill(c, t), c.up.sib);
      Look(Across(c.up, Fill(c, t)), c.up.sib);
      var tmp := gparent.right;
      if tmp != null && tmp.red {
        SetColor(tmp, false, Across(c.up, Fill(c, t)), c.up.sib);
        AcrossPlug(c.up, Fill(c, t), Painted(c.up.sib, false));
        SetBlackRed(parent, gparent, c.up.(sib := Painted(c.up.sib, false)), Fill(c, t));
        RecolouredInserting(c, t);
        elm, c, t := gparent, Grand(c), Recoloured(c, t);
        return;
      }
      if parent.right == elm {
        RotateLeftAt(parent, c.up, Fill(c, t));
        Straightened(c, t);
        elm, parent := parent, elm;
        c, t := StraightCtx(c, t), StraightTree(c, t);
      }
      SetBlackRed(parent, gparent, c.up, Fill(c, t));
      RaisedInserting(c, t);
      RotateRightAt(gparent, c.up.up, Painted(Fill(c.up, Painted(Fill(c, t), false)), true));
      c := Raised(c);
    }

    /** The body of RB_INSERT_COLOR's loop when the parent is a right child. */
    method InsertColorRight(elm0: Node, parent0: Node, gparent: Node, ghost c0: Ctx, ghost t0: Tree)
        returns (elm: Node, ghost c: Ctx, ghost t: Tree)
      requires At(c0, t0) && Inserting(c0, t0) && RedParent(c0) && c0.up.Frame? && !c0.up.onLeft
      requires elm0 == t0.n && parent0 == c0.n && gparent == c0.up.n
      modifies this`root, this`tree, Repr`left, Repr`right, Repr`parent, Repr`red
      ensures At(c, t) && Inserting(c, t) && elm == t.n
      ensures RedParent(c) ==> c == Grand(c0)
      ensures Inorder(tree) == old(Inorder(tree))
    {
      elm, c, t := elm0, c0, t0;
      var parent := parent0;
      Grandparent(c, t);
      Look(c, t);
      Look(c.up, Fill(c, t));
      AcrossPlug(c.up, Fill(c, t), c.up.sib);
      Look(Across(c.up, Fill(c, t)), c.up.sib);
      var tmp := gparent.left;
      if tmp != null && tmp.red {
        SetColor(tmp, false, Across(c.up, Fill(c, t)), c.up.sib);
        AcrossPlug(c.up, Fill(c, t), Painted(c.up.sib, false));
        SetBlackRed(parent, gparent, c.up.(sib := Painted(c.up.sib, false)), Fill(c, t));
        RecolouredInserting(c, t);
        elm, c, t := gparent, Grand(c), Recoloured(c, t);
        return;
      }
      if parent.left == elm {
        RotateRightAt(parent, c.up, Fill(c, t));
        Straightened(c, t);
        elm, parent := parent, elm;
        c, t := StraightCtx(c, t), StraightTree(c, t);
      }
      SetBlackRed(parent, gparent, c.up, Fill(c, t));
      RaisedInserting(c, t);
      RotateLeftAt(gparent, c.up.up, Painted(Fill(c.up, Painted(Fill(c, t), false)), true));
      c := Raised(c);
    }

    /** RB_INSERT_COLOR */
    method InsertColor(elm0: Node, ghost c0: Ctx, ghost t0: Tree)
      requires At(c0, t0) && Inserting(c0, t0) && elm0 == t0.n
      modifies this`root, this`tree, Repr`left, Repr`right, Repr`parent, Repr`red
      ensures Valid() && RedBlackTree(tree) && Inorder(tree) == old(Inorder(tree))
    {
      var elm := elm0;
      ghost var c, t := c0, t0;
      Look(c, t);
      var parent := elm.parent;
      while parent != null && parent.red
        invariant At(c, t) && Inserting(c, t) && elm == t.n && parent == Parent(c)
        invariant parent != null ==> parent in Repr && parent.red == c.red
        invariant Inorder(tree) == old(Inorder(tree))
        decreases if RedParent(c) then 1 else 0, c
      {
        var gparent := parent.parent;
        Grandparent(c, t);
        Look(c.up, Fill(c, t));
        if parent == gparent.left {
          elm, c, t := InsertColorLeft(elm, parent, gparent, c, t);
        } else {
          elm, c, t := InsertColorRight(elm, parent, gparent, c, t);
        }
        Look(c, t);
        parent := elm.parent;
      }
      PaintRoot(c, t);
    }

    /** RB_COLOR(head->rbh_root, field) = RB_BLACK */
    method PaintRoot(ghost c: Ctx, ghost t: Tree)
      requires At(c, t) && Inserting(c, t) && !RedParent(c)
      modifies this`tree, Repr`red
      ensures Valid() && RedBlackTree(tree) && Inorder(tree) == old(Inorder(tree))
    {
      InsertionDone(c, t);
      PlugRoot(c, t);
      SetColor(root, false, Top, tree);
      assert c.Frame? ==> tree == old(tree);
    }

    /** A red-black search tree. */
    ghost predicate Searchable()
      reads this, Repr`left, Repr`right, Repr`parent, Repr`red
    {
      Valid() && RedBlackTree(tree) && Ordered(Inorder(tree))
    }

    constructor ()
      ensures Searchable() && Repr == {}
    {
      root, tree, Repr := null, Nil, {};
    }

    /** RB_SET and the link from the parent. */
    method Link(elm: Node, parent: Node?, comp: int)
      requires elm !in Repr && (parent != null ==> parent in Repr)
      modifies this`root, this`Repr, Repr`left, Repr`right, elm`left, elm`right, elm`parent, elm`red
      ensures Repr == old(Repr) + {elm}
      ensures RBMemory.Links(old(Mem(Repr)), Mem(Repr), elm, parent, comp < 0)
      ensures root == if parent == null then elm else old(root)
    {
      elm.parent := parent;
      elm.left, elm.right := null, null;
      elm.red := true;
      if parent != null {
        if comp < 0 {
          parent.left := elm;
        } else {
          parent.right := elm;
        }
      } else {
        root := elm;
      }
      Repr := Repr + {elm};
    }

    /** RB_INSERT: the node already holding the key, or null once `elm` is in. */
    method Insert(elm: Node) returns (found: Node?, ghost pos: nat)
      requires Searchable() && elm !in Repr
      modifies this, Repr`left, Repr`right, Repr`parent, Repr`red, elm`left, elm`right, elm`parent, elm`red
      ensures Searchable()
      ensures found != null ==> found in Repr && found.key == elm.key && unchanged(this, old(Repr), elm)
      ensures found == null ==>
                && Repr == old(Repr) + {elm} && pos <= |old(Inorder(tree))|
                && Inorder(tree) == old(Inorder(tree))[..pos] + [elm] + old(Inorder(tree))[pos..]
      ensures found == null <==> forall n :: n in old(Repr) ==> n.key != elm.key
    {
      var tmp, parent, comp := root, null, 0;
      ghost var c, t := Top, tree;
      while tmp != null
        invariant At(c, t) && tmp == Root(t) && parent == Parent(c) && Brackets(c, elm.key)
        invariant c.Frame? ==> c.onLeft == (comp < 0)
        modifies {}
        decreases t
      {
        Look(c, t);
        Descend(c, t, elm.key);
        StrcmpOrder(elm.key, tmp.key);
        parent := tmp;
        comp := Strcmp(elm.key, parent.key);
        if comp < 0 {
          tmp := tmp.left;
          c, t := Below(c, t, true), t.l;
        } else if comp > 0 {
          tmp := tmp.right;
          c, t := Below(c, t, false), t.r;
        } else {
          return tmp, 0;
        }
      }
      Absent(c, elm.key);
      pos := |Before(c)|;
      LinkAndColor(elm, parent, comp, c);
      return null, pos;
    }

    method LinkAndColor(elm: Node, parent: Node?, comp: int, ghost c: Ctx)
      requires Searchable() && tree == Plug(c, Nil) && elm !in Repr
      requires parent == Parent(c) && (c.Frame? ==> c.onLeft == (comp < 0)) && Brackets(c, elm.key)
      modifies this, Repr`left, Repr`right, Repr`parent, Repr`red, elm`left, elm`right, elm`parent, elm`red
      ensures Searchable() && Repr == old(Repr) + {elm}
      ensures var pos := |Before(c)|;
        && pos <= |old(Inorder(tree))|
        && Inorder(tree) == old(Inorder(tree))[..pos] + [elm] + old(Inorder(tree))[pos..]
    {
      hide Ordered, Rep, RepCtx;
      ghost var m := Mem(Repr);
      Look(c, Nil);
      PlugNodes(c, Nil);
      Link(elm, parent, comp);
      RBMemory.Link(m, Mem(Repr), c, elm, comp < 0);
      InsertOrdered(c, elm, true);
      PlugRedBlack(c, Nil);
      tree := Plug(c, Bin(Nil, elm, true, Nil));
      InsertColor(elm, c, Bin(Nil, elm, true, Nil));
    }

    /** RB_REMOVE_COLOR, the hole being a left child: a red sibling is raised over the parent. */
    method RaiseRedSiblingLeft(parent: Node, tmp0: Node, ghost c: Ctx, ghost t: Tree) returns (tmp: Node)
      requires At(c, t) && Removing(c, t) && Short(c, t) && c.onLeft && parent == c.n
      requires !Black(c.sib) && tmp0 == c.sib.n
      modifies this`root, this`tree, Repr`left, Repr`right, Repr`parent, Repr`red
      ensures At(SiblingRaised(c), t) && Removing(SiblingRaised(c), t) && Inorder(tree) == old(Inorder(tree))
      ensures SiblingRaised(c).sib.Bin? && Black(SiblingRaised(c).sib) && tmp == SiblingRaised(c).sib.n
    {
      tmp := tmp0;
      AcrossPlug(c, t, c.sib);
      Look(Across(c, t), c.sib);
      SetBlackRed(tmp, parent, Across(c, t), c.sib);
      SiblingRaisedRemoving(c, t);
      RotateLeftAt(parent, c.up, Painted(Fill(c.(sib := Painted(c.sib, false)), t), true));
      Look(SiblingRaised(c), t);
      tmp := parent.right;
    }

    /** RB_REMOVE_COLOR, the hole being a left child: the red near nephew is raised over the sibling. */
    method RaiseNearNephewLeft(parent: Node, tmp0: Node, ghost c: Ctx, ghost t: Tree) returns (tmp: Node)
      requires At(c, t) && Removing(c, t) && Short(c, t) && c.onLeft && parent == c.n
      requires c.sib.Bin? && Black(c.sib) && tmp0 == c.sib.n && !Black(c.sib.l) && Black(c.sib.r)
      modifies this`root, this`tree, Repr`left, Repr`right, Repr`parent, Repr`red
      ensures var c' := c.(sib := NephewRaised(true, c.sib));
        At(c', t) && Removing(c', t) && Black(c'.sib) && !Black(c'.sib.r) && tmp == c'.sib.n
      ensures Inorder(tree) == old(Inorder(tree))
    {
      tmp := tmp0;
      ghost var a, w := Across(c, t), c.sib;
      AcrossPlug(c, t, w);
      Look(a, w);
      Look(Below(a, w, true), w.l);
      var oleft := tmp.left;
      if oleft != null {
        SetColor(oleft, false, Below(a, w, true), w.l);
      }
      SetColor(tmp, true, a, w.(l := Painted(w.l, false)));
      RotateRightAt(tmp, a, Painted(w.(l := Painted(w.l, false)), true));
      NephewRaisedRemoving(c, t);
      AcrossPlug(c, t, NephewRaised(true, w));
      Look(c.(sib := NephewRaised(true, w)), t);
      tmp := parent.right;
    }

    /** RB_REMOVE_COLOR, the hole being a left child: the last rotation. */
    method SettleLeft(parent: Node, tmp: Node, ghost c: Ctx, ghost t: Tree)
      requires At(c, t) && Removing(c, t) && Short(c, t) && c.onLeft && parent == c.n
      requires c.sib.Bin? && Black(c.sib) && tmp == c.sib.n && !Black(c.sib.r)
      modifies this`root, this`tree, Repr`left, Repr`right, Repr`parent, Repr`red
      ensures Valid() && RedBlackTree(tree) && Inorder(tree) == old(Inorder(tree))
    {
      ghost var a, w := Across(c, t), c.sib;
      AcrossPlug(c, t, w);
      Look(c, t);
      Look(a, w);
      SetColor(tmp, parent.red, a, w);
      w := Painted(w, c.red);
      AcrossPlug(c, t, w);
      SetColor(parent, false, c.up, Fill(c.(sib := w), t));
      a := Frame(c.up, false, c.n, false, t);
      Look(a, w);
      Look(Below(a, w, false), w.r);
      if tmp.right != null {
        SetColor(tmp.right, false, Below(a, w, false), w.r);
      }
      w := w.(r := Painted(w.r, false));
      assert tree == Plug(a, w);
      RotateLeftAt(parent, c.up, Bin(t, c.n, false, w));
      SettledRedBlack(c, t);
    }

    /** The body of RB_REMOVE_COLOR's loop when the hole is a left child; `settled` is its `break`. */
    method RemoveColorLeft(elm0: Node?, parent0: Node, ghost c0: Ctx, ghost t0: Tree)
        returns (elm: Node?, parent: Node?, settled: bool, ghost c: Ctx, ghost t: Tree)
      requires At(c0, t0) && Removing(c0, t0) && Short(c0, t0) && c0.onLeft && elm0 == Root(t0) && parent0 == c0.n
      modifies this`root, this`tree, Repr`left, Repr`right, Repr`parent, Repr`red
      ensures Valid() && Inorder(tree) == old(Inorder(tree))
      ensures settled ==> RedBlackTree(tree) && elm == root
      ensures !settled ==> At(c, t) && Removing(c, t) && elm == Root(t) && parent == Parent(c)
      ensures !settled ==> !Black(t) || c == c0.up
    {
      elm, parent, settled, c, t := elm0, parent0, false, c0, t0;
      SiblingExists(c, t);
      Look(c, t);
      AcrossPlug(c, t, c.sib);
      Look(Across(c, t), c.sib);
      var tmp := parent.right;
      if tmp.red {
        tmp := RaiseRedSiblingLeft(parent, tmp, c, t);
        c := SiblingRaised(c);
      }
      ghost var a, w := Across(c, t), c.sib;
      AcrossPlug(c, t, w);
      Look(a, w);
      Look(Below(a, w, true), w.l);
      Look(Below(a, w, false), w.r);
      if (tmp.left == null || !tmp.left.red) && (tmp.right == null || !tmp.right.red) {
        SetColor(tmp, true, a, w);
        AcrossPlug(c, t, Painted(w, true));
        ShortageRises(c, t);
        c, t := c.up, Fill(c.(sib := Painted(w, true)), t);
        Look(c, t);
        elm := parent;
        parent := elm.parent;
      } else {
        if tmp.right == null || !tmp.right.red {
          tmp := RaiseNearNephewLeft(parent, tmp, c, t);
          c := c.(sib := NephewRaised(true, w));
        }
        SettleLeft(parent, tmp, c, t);
        elm, settled := root, true;
      }
    }

    /** RB_REMOVE_COLOR, the hole being a right child: a red sibling is raised over the parent. */
    method RaiseRedSiblingRight(parent: Node, tmp0: Node, ghost c: Ctx, ghost t: Tree) returns (tmp: Node)
      requires At(c, t) && Removing(c, t) && Short(c, t) && !c.onLeft && parent == c.n
      requires !Black(c.sib) && tmp0 == c.sib.n
      modifies this`root, this`tree, Repr`left, Repr`right, Repr`parent, Repr`red
      ensures At(SiblingRaised(c), t) && Removing(SiblingRaised(c), t) && Inorder(tree) == old(Inorder(tree))
      ensures SiblingRaised(c).sib.Bin? && Black(SiblingRaised(c).sib) && tmp == SiblingRaised(c).sib.n
    {
      tmp := tmp0;
      AcrossPlug(c, t, c.sib);
      Look(Across(c, t), c.sib);
      SetBlackRed(tmp, parent, Across(c, t), c.sib);
      SiblingRaisedRemoving(c, t);
      RotateRightAt(parent, c.up, Painted(Fill(c.(sib := Painted(c.sib, false)), t), true));
      Look(SiblingRaised(c), t);
      tmp := parent.left;
    }

    /** RB_REMOVE_COLOR, the hole being a right child: the red near nephew is raised over the sibling. */
    method RaiseNearNephewRight(parent: Node, tmp0: Node, ghost c: Ctx, ghost t: Tree) returns (tmp: Node)
      requires At(c, t) && Removing(c, t) && Short(c, t) && !c.onLeft && parent == c.n
      requires c.sib.Bin? && Black(c.sib) && tmp0 == c.sib.n && !Black(c.sib.r) && Black(c.sib.l)
      modifies this`root, this`tree, Repr`left, Repr`right, Repr`parent, Repr`red
      ensures var c' := c.(sib := NephewRaised(false, c.sib));
        At(c', t) && Removing(c', t) && Black(c'.sib) && !Black(c'.sib.l) && tmp == c'.sib.n
      ensures Inorder(tree) == old(Inorder(tree))
    {
      tmp := tmp0;
      ghost var a, w := Across(c, t), c.sib;
      AcrossPlug(c, t, w);
      Look(a, w);
      Look(Below(a, w, false), w.r);
      var oright := tmp.right;
      if oright != null {
        SetColor(oright, false, Below(a, w, false), w.r);
      }
      SetColor(tmp, true, a, w.(r := Painted(w.r, false)));
      RotateLeftAt(tmp, a, Painted(w.(r := Painted(w.r, false)), true));
      NephewRaisedRemoving(c, t);
      AcrossPlug(c, t, NephewRaised(false, w));
      Look(c.(sib := NephewRaised(false, w)), t);
      tmp := parent.left;
    }

    /** RB_REMOVE_COLOR, the hole being a right child: the last rotation. */
    method SettleRight(parent: Node, tmp: Node, ghost c: Ctx, ghost t: Tree)
      requires At(c, t) && Removing(c, t) && Short(c, t) && !c.onLeft && parent == c.n
      requires c.sib.Bin? && Black(c.sib) && tmp == c.sib.n && !Black(c.sib.l)
      modifies this`root, this`tree, Repr`left, Repr`right, Repr`parent, Repr`red
      ensures Valid() && RedBlackTree(tree) && Inorder(tree) == old(Inorder(tree))
    {
      ghost var a, w := Across(c, t), c.sib;
      AcrossPlug(c, t, w);
      Look(c, t);
      Look(a, w);
      SetColor(tmp, parent.red, a, w);
      w := Painted(w, c.red);
      AcrossPlug(c, t, w);
      SetColor(parent, false, c.up, Fill(c.(sib := w), t));
      a := Frame(c.up, true, c.n, false, t);
      Look(a, w);
      Look(Below(a, w, true), w.l);
      if tmp.left != null {
        SetColor(tmp.left, false, Below(a, w, true), w.l);
      }
      w := w.(l := Painted(w.l, false));
      assert tree == Plug(a, w);
      RotateRightAt(parent, c.up, Bin(w, c.n, false, t));
      SettledRedBlack(c, t);
    }

    /** The body of RB_REMOVE_COLOR's loop when the hole is a right child; `settled` is its `break`. */
    method RemoveColorRight(elm0: Node?, parent0: Node, ghost c0: Ctx, ghost t0: Tree)
        returns (elm: Node?, parent: Node?, settled: bool, ghost c: Ctx, ghost t: Tree)
      requires At(c0, t0) && Removing(c0, t0) && Short(c0, t0) && !c0.onLeft && elm0 == Root(t0) && parent0 == c0.n
      modifies this`root, this`tree, Repr`left, Repr`right, Repr`parent, Repr`red
      ensures Valid() && Inorder(tree) == old(Inorder(tree))
      ensures settled ==> RedBlackTree(tree) && elm == root
      ensures !settled ==> At(c, t) && Removing(c, t) && elm == Root(t) && parent == Parent(c)
      ensures !settled ==> !Black(t) || c == c0.up
    {
      elm, parent, settled, c, t := elm0, parent0, false, c0, t0;
      SiblingExists(c, t);
      Look(c, t);
      AcrossPlug(c, t, c.sib);
      Look(Across(c, t), c.sib);
      var tmp := parent.left;
      if tmp.red {
        tmp := RaiseRedSiblingRight(parent, tmp, c, t);
        c := SiblingRaised(c);
      }
      ghost var a, w := Across(c, t), c.sib;
      AcrossPlug(c, t, w);
      Look(a, w);
      Look(Below(a, w, false), w.r);
      Look(Below(a, w, true), w.l);
      if (tmp.left == null || !tmp.left.red) && (tmp.right == null || !tmp.right.red) {
        SetColor(tmp, true, a, w);
        AcrossPlug(c, t, Painted(w, true));
        ShortageRises(c, t);
        c, t := c.up, Fill(c.(sib := Painted(w, true)), t);
        Look(c, t);
        elm := parent;
        parent := elm.parent;
      } else {
        if tmp.left == null || !tmp.left.red {
          tmp := RaiseNearNephewRight(parent, tmp, c, t);
          c := c.(sib := NephewRaised(false, w));
        }
        SettleRight(parent, tmp, c, t);
        elm, settled := root, true;
      }
    }

    /** RB_REMOVE_COLOR */
    method RemoveColor(parent0: Node?, elm0: Node?, ghost c0: Ctx, ghost t0: Tree)
      requires At(c0, t0) && Removing(c0, t0) && elm0 == Root(t0) && parent0 == Parent(c0)
      modifies this`root, this`tree, Repr`left, Repr`right, Repr`parent, Repr`red
      ensures Valid() && RedBlackTree(tree) && Inorder(tree) == old(Inorder(tree))
    {
      var elm, parent, settled := elm0, parent0, false;
      ghost var c, t := c0, t0;
      HoleAtRoot(c, t);
      while !settled && (elm == null || !elm.red) && elm != root
        invariant Valid() && Inorder(tree) == old(Inorder(tree))
        invariant settled ==> RedBlackTree(tree) && elm == root
        invariant !settled ==> At(c, t) && Removing(c, t) && elm == Root(t) && parent == Parent(c)
        invariant !settled ==> (c.Top? <==> elm == root) && (elm != null ==> elm in Repr && elm.red == t.red)
        decreases if settled then 0 else if Black(t) then 2 else 1, c
      {
        SiblingExists(c, t);
        Look(c, t);
        if parent.left == elm {
          elm, parent, settled, c, t := RemoveColorLeft(elm, parent, c, t);
        } else {
          elm, parent, settled, c, t := RemoveColorRight(elm, parent, c, t);
        }
        if !settled {
          HoleAtRoot(c, t);
        }
      }
      if settled {
        c, t := Top, tree;
      }
      if !settled {
        RemovalDone(c, t);
      }
      if elm != null {
        SetColor(elm, false, c, t);
      }
    }

    /** The hole is filled by the root exactly when nothing is above it. */
    lemma HoleAtRoot(c: Ctx, t: Tree)
      requires At(c, t) && Removing(c, t)
      ensures c.Top? <==> Root(t) == root
      ensures t.Bin? ==> t.n in Repr && t.n.red == t.red
    {
      Look(c, t);
      Look(Top, tree);
      PlugRoot(c, t);
    }

    /** The stores of RB_REMOVE that put `child` in the place of `elm`. */
    method Splice(elm: Node, child: Node?, parent: Node?)
      requires elm in Repr && parent == elm.parent
      requires child != null ==> child in Repr && child != elm && child != parent
      requires parent != null ==> parent in Repr && parent != elm
      modifies this`root, this`Repr, (Repr - {elm})`left, (Repr - {elm})`right, (Repr - {elm})`parent
      ensures Repr == old(Repr) - {elm}
      ensures RBMemory.Splices(old(Mem(Repr)), Mem(Repr), elm, child)
      ensures root == if parent == null then child else old(root)
    {
      if child != null {
        child.parent := parent;
      }
      if parent != null {
        if parent.left == elm {
          parent.left := child;
        } else {
          parent.right := child;
        }
      } else {
        root := child;
      }
      Repr := Repr - {elm};
    }

    /** A node with at most one child leaves the tree; its own fields stay as they were. */
    method Detach(elm: Node, child: Node?, ghost c: Ctx, ghost t: Tree) returns (parent: Node?, red: bool)
      requires At(c, t) && t.Bin? && elm == t.n && (t.l.Nil? || t.r.Nil?) && child == Root(OnlyChild(t))
      modifies this, (Repr - {elm})`left, (Repr - {elm})`right, (Repr - {elm})`parent
      ensures At(c, OnlyChild(t)) && Repr == old(Repr) - {elm}
      ensures parent == Parent(c) && red == t.red
    {
      ghost var m := Mem(Repr);
      Look(c, t);
      ghost var k := OnlyChild(t);
      Look(Below(c, t, !t.l.Nil?), k);
      RBMemory.FourNodes(m, c, t);
      parent := elm.parent;
      red := elm.red;
      Splice(elm, child, parent);
      tree := Plug(c, k);
      RBMemory.Splice(m, Mem(Repr), c, t);
    }

    /** The fields of `y`, and the link from above it. */
    method TakeFields(elm: Node, y: Node)
      requires RBMemory.CanReplace(Mem(Repr), y) && elm !in Repr
      modifies this`root, Repr`left, Repr`right, elm`left, elm`right, elm`parent, elm`red
      ensures RBMemory.ReplacesAbove(old(Mem(Repr)), Mem(Repr + {elm}), y, elm)
      ensures root == if old(y.parent) == null then elm else old(root)
    {
      elm.left, elm.right, elm.parent, elm.red := y.left, y.right, y.parent, y.red;
      if y.parent != null {
        if y.parent.left == y {
          y.parent.left := elm;
        } else {
          y.parent.right := elm;
        }
      } else {
        root := elm;
      }
    }

    /** The links from below `y`. */
    method TakeChildren(elm: Node, left: Node, right: Node?)
      requires left in Repr && (right != null ==> right in Repr) && left != right
      modifies Repr`parent
      ensures RBMemory.ReplacesBelow(old(Mem(Repr + {elm})), Mem(Repr + {elm}), left, right, elm)
    {
      left.parent := elm;
      if right != null {
        right.parent := elm;
      }
    }

    /** The stores of RB_REMOVE that put `elm` in the place of `y`. */
    method TakePlace(elm: Node, y: Node)
      requires RBMemory.CanReplace(Mem(Repr), y) && y.left != null && elm !in Repr
      modifies this`root, this`Repr, Repr`left, Repr`right, Repr`parent, elm`left, elm`right, elm`parent, elm`red
      ensures Repr == old(Repr) - {y} + {elm}
      ensures RBMemory.Replaces(old(Mem(Repr)), Mem(Repr), y, elm)
      ensures root == if old(y.parent) == null then elm else old(root)
    {
      hide RBMemory.ReplacesAbove, RBMemory.ReplacesBelow, RBMemory.Replaces;
      ghost var m := Mem(Repr);
      var left, right := y.left, y.right;
      TakeFields(elm, y);
      ghost var m1 := Mem(Repr + {elm});
      TakeChildren(elm, left, right);
      ghost var m2 := Mem(Repr + {elm});
      Repr := Repr - {y} + {elm};
      RBMemory.ReplacesBoth(m, m1, m2, Mem(Repr), y, elm);
    }

    method Substitute(elm: Node, y: Node, ghost c: Ctx, ghost t: Tree)
      requires At(c, t) && t.Bin? && t.l.Bin? && y == t.n && elm !in Repr
      modifies this, Repr`left, Repr`right, Repr`parent, elm`left, elm`right, elm`parent, elm`red
      ensures At(c, t.(n := elm)) && Repr == old(Repr) - {y} + {elm}
    {
      ghost var m := Mem(Repr);
      RBMemory.CanReplaceRoot(m, c, t);
      TakePlace(elm, y);
      tree := Plug(c, t.(n := elm));
      RBMemory.Replace(m, Mem(Repr), c, t, elm);
    }

    /** The walk of RB_REMOVE to the successor of `y`: right once, then left to the end. */
    method Successor(y: Node, ghost c: Ctx, ghost t: Tree) returns (elm: Node, ghost spine: Ctx, ghost s: Tree)
      requires At(c, t) && t.Bin? && t.r.Bin? && y == t.n
      ensures At(SuccessorCtx(spine, c, t, y), s) && LeftSpine(spine)
      ensures s.Bin? && s.l.Nil? && elm == s.n && elm in Repr && elm != y
      ensures elm.right == Root(s.r) && elm.red == s.red && elm.parent == Parent(SuccessorCtx(spine, c, t, y))
    {
      Look(c, t);
      elm := y.right;
      spine, s := Top, t.r;
      Look(SuccessorCtx(spine, c, t, y), s);
      var left := elm.left;
      while left != null
        invariant At(SuccessorCtx(spine, c, t, y), s) && LeftSpine(spine)
        invariant s.Bin? && elm == s.n && elm in Repr && elm.left == left == Root(s.l)
        decreases s
      {
        elm := left;
        spine, s := Below(spine, s, true), s.l;
        Look(SuccessorCtx(spine, c, t, y), s);
        left := elm.left;
      }
      Look(SuccessorCtx(spine, c, t, y), s);
      OtherThanSuccessor(spine, c, t, s);
    }

    lemma OtherThanSuccessor(spine: Ctx, c: Ctx, t: Tree, s: Tree)
      requires t.Bin? && s.Bin? && At(SuccessorCtx(spine, c, t, t.n), s)
      ensures s.n != t.n
    {
      ghost var f := Frame(c, false, t.n, t.red, t.l);
      OverPlug(spine, f, s);
      SplitWhole(Mem(Repr), f, Plug(spine, s));
      PlugNodes(spine, s);
      assert s.n in Nodes(Plug(spine, s)) && t.n in CtxNodes(f);
    }

    /** The inner case of RB_REMOVE: the successor `elm` of `y` is detached and takes its place. */
    method RemoveInner(y: Node, ghost c: Ctx, ghost t: Tree)
        returns (parent: Node?, child: Node?, red: bool, ghost c': Ctx, ghost t': Tree)
      requires At(c, t) && t.Bin? && t.l.Bin? && t.r.Bin? && y == t.n && RedBlackTree(tree)
      modifies this, Repr`left, Repr`right, Repr`parent, Repr`red
      ensures At(c', t') && Repr == old(Repr) - {y}
      ensures parent == Parent(c') && child == Root(t')
      ensures if red then RedBlackTree(tree) else Removing(c', t')
      ensures var pos := |Before(c) + Inorder(t.l)|;
        LeavesOut(old(Inorder(tree)), Inorder(tree), pos) && old(Inorder(tree))[pos] == y
    {
      hide Ordered, Whole, Inorder;
      var elm;
      ghost var spine, s;
      elm, spine, s := Successor(y, c, t);
      child := elm.right;
      SuccessorTakesPlace(spine, c, t, s);
      SuccessorInorder(spine, c, t, s);
      parent, red := Detach(elm, child, SuccessorCtx(spine, c, t, y), s);
      parent := TakeOver(elm, y, parent, spine, c, t, s.r);
      c', t' := SuccessorCtx(spine, c, t, elm), s.r;
    }

    method TakeOver(elm: Node, y: Node, parent0: Node?, ghost spine: Ctx, ghost c: Ctx, ghost t: Tree, ghost k: Tree)
        returns (parent: Node?)
      requires t.Bin? && t.l.Bin? && y == t.n && elm !in Repr
      requires At(SuccessorCtx(spine, c, t, y), k) && parent0 == elm.parent == Parent(SuccessorCtx(spine, c, t, y))
      modifies this, Repr`left, Repr`right, Repr`parent, elm`left, elm`right, elm`parent, elm`red
      ensures At(SuccessorCtx(spine, c, t, elm), k) && parent == Parent(SuccessorCtx(spine, c, t, elm))
      ensures Repr == old(Repr) - {y} + {elm}
    {
      ghost var t2 := Bin(t.l, y, t.red, Plug(spine, k));
      OverPlug(spine, Frame(c, false, y, t.red, t.l), k);
      OverPlug(spine, Frame(c, false, elm, t.red, t.l), k);
      SplitWhole(Mem(Repr), c, t2);
      SuccessorParent(spine, c, t, k, y, elm);
      parent := parent0;
      if elm.parent == y {
        parent := elm;
      }
      Substitute(elm, y, c, t2);
    }

    /** RB_REMOVE */
    method Remove(elm: Node) returns (removed: Node, ghost pos: nat)
      requires Searchable() && elm in Repr
      modifies this, Repr`left, Repr`right, Repr`parent, Repr`red
      ensures Searchable() && removed == elm && Repr == old(Repr) - {elm}
      ensures LeavesOut(old(Inorder(tree)), Inorder(tree), pos) && old(Inorder(tree))[pos] == elm
    {
      ghost var c, t := Find(Top, tree, elm).0, Find(Top, tree, elm).1;
      ghost var all := Inorder(tree);
      var child, parent, red;
      ghost var c', t';
      Look(c, t);
      pos := |Before(c) + Inorder(t.l)|;
      if elm.left == null || elm.right == null {
        child := if elm.left == null then elm.right else elm.left;
        PlugRedBlack(c, t);
        SplicedInorder(c, t, OnlyChild(t));
        TakenOut(c, t, OnlyChild(t));
        parent, red := Detach(elm, child, c, t);
        c', t' := c, OnlyChild(t);
      } else {
        parent, child, red, c', t' := RemoveInner(elm, c, t);
      }
      WithoutOrdered(all, Inorder(tree), pos);
      if !red {
        RemoveColor(parent, child, c', t');
      }
      removed := elm;
    }
  }
}
