/** mtemplate.c: how appending, opening, switching and closing a block changes the node pool. */
module TemplateLayout {
  import opened Options
  import opened TemplateTree
  import opened TemplatePool

  lemma {:induction false} Snoc(nodes: seq<PNode>, start: nat, ts: seq<Node>, t: Node, parent: nat)
    ensures Sizes(ts + [t]) == Sizes(ts) + Size(t)
    ensures Places(start, ts + [t]) == Places(start, ts) + [start + Sizes(ts)]
    ensures RepNodes(nodes, start, ts + [t], parent)
            <==> RepNodes(nodes, start, ts, parent) && RepNode(nodes, start + Sizes(ts), t, parent)
  {
    assert (ts + [t])[..|ts|] == ts;
  }

  /** TAILQ_INSERT_TAIL on the list being filled. */
  function Linked(nodes: seq<PNode>, p: nat, n: PNode): seq<PNode>
    requires p < |nodes|
  {
    nodes[p := WithActive(nodes[p], Active(nodes[p]) + [|nodes|])] + [n]
  }

  /** The open blocks survive, and the list being filled keeps its nodes and gains a place. */
  lemma {:induction false} LinkKeeps(nodes: seq<PNode>, b: Builder, n: PNode)
    requires Rep(nodes, b)
    ensures var p := OpenAt(b.stack);
      var nodes' := Linked(nodes, p, n);
      && p < Start(b.stack)
      && RepStack(nodes', b.stack) && RepNodes(nodes', Start(b.stack), b.cur, p)
      && Active(nodes'[p]) == Places(Start(b.stack), b.cur) + [|nodes|]
  {
    hide RepNodes, RepStack, RepNode;
    var p := OpenAt(b.stack);
    var nodes' := Linked(nodes, p, n);
    KeepStack(nodes, nodes', b.stack, Active(nodes[p]) + [|nodes|]);
    KeepNodes(nodes, nodes', Start(b.stack), b.cur, p);
  }

  lemma {:induction false} AppendLeaf(nodes: seq<PNode>, b: Builder, t: Node, n: PNode)
    requires Rep(nodes, b) && Size(t) == 1
    requires RepNode(Linked(nodes, OpenAt(b.stack), n), |nodes|, t, OpenAt(b.stack))
    ensures Rep(Linked(nodes, OpenAt(b.stack), n), Add(b, t))
  {
    hide RepNodes, RepStack, RepNode;
    LinkKeeps(nodes, b, n);
    Snoc(Linked(nodes, OpenAt(b.stack), n), Start(b.stack), b.cur, t, OpenAt(b.stack));
  }

  ghost predicate FreshBlock(n: PNode, f: Frame, cur: seq<Node>) {
    && n.children == [] && n.childrenElse == [] && !n.inElse && f.before == cur
    && ((f.InIf? && n.kind == NIf && n.text == Some(f.cond) && n.localvar == "")
        || (f.InFor? && n.kind == NFor && n.text == Some(f.expr) && n.localvar == f.localvar))
  }

  lemma {:induction false} StackIs(nodes: seq<PNode>, init: seq<Frame>, f: Frame, p: nat)
    requires p == OpenAt(init + [f]) == Start(init) + Sizes(f.before) && p < |nodes|
    requires RepStack(nodes, init) && RepFrame(nodes, p, f, OpenAt(init))
    requires Active(nodes[OpenAt(init)]) == Places(Start(init), f.before) + [p]
    requires RepNodes(nodes, Start(init), f.before, OpenAt(init))
    ensures RepStack(nodes, init + [f])
  {
    var stack := init + [f];
    assert stack[..|init|] == init && stack[|stack| - 1] == f;
    hide RepFrame, RepNodes, Sizes, Places, Start, OpenAt;
  }

  lemma {:induction false} OpenStarts(stack: seq<Frame>, f: Frame)
    requires !f.InElse?
    ensures OpenAt(stack + [f]) == Start(stack) + Sizes(f.before) && Start(stack + [f]) == OpenAt(stack + [f]) + 1
  {
    assert (stack + [f])[..|stack|] == stack;
  }

  lemma {:induction false} OpenBlock(nodes: seq<PNode>, b: Builder, f: Frame, n: PNode)
    requires Rep(nodes, b) && FreshBlock(n, f, b.cur) && n.parent == OpenAt(b.stack)
    ensures Rep(Linked(nodes, OpenAt(b.stack), n), Open(b, f))
    ensures OpenAt(Open(b, f).stack) == |nodes|
  {
    var nodes' := Linked(nodes, OpenAt(b.stack), n);
    hide RepNodes, RepNode, RepStack, Sizes, Places, Start, OpenAt;
    OpenStarts(b.stack, f);
    LinkKeeps(nodes, b, n);
    StackIs(nodes', b.stack, f, |nodes|);
    EmptyList(nodes', |nodes| + 1, |nodes|);
  }

  lemma {:induction false} EmptyList(nodes: seq<PNode>, start: nat, parent: nat)
    ensures Sizes([]) == 0 && Places(start, []) == [] && RepNodes(nodes, start, [], parent)
  {
  }

  /** The innermost open block and the list around it, spelled out. */
  lemma {:induction false} Innermost(nodes: seq<PNode>, b: Builder)
    requires Rep(nodes, b) && b.stack != []
    ensures var p, f, init := OpenAt(b.stack), Top(b), b.stack[..|b.stack| - 1];
      && p == Start(init) + Sizes(f.before) && OpenAt(init) < Start(init) <= p < |nodes|
      && Start(b.stack) == (p + 1 + if f.InElse? then Sizes(f.thn) else 0)
      && RepFrame(nodes, p, f, OpenAt(init)) && RepStack(nodes, init)
      && Active(nodes[OpenAt(init)]) == Places(Start(init), f.before) + [p]
      && RepNodes(nodes, Start(init), f.before, OpenAt(init))
      && Active(nodes[p]) == Places(Start(b.stack), b.cur) && RepNodes(nodes, Start(b.stack), b.cur, p)
      && |nodes| == Start(b.stack) + Sizes(b.cur)
  {
    var p, f, init := OpenAt(b.stack), Top(b), b.stack[..|b.stack| - 1];
    OpenBefore(b.stack);
    assert p == Start(init) + Sizes(f.before);
    assert Start(b.stack) == (p + 1 + if f.InElse? then Sizes(f.thn) else 0);
    hide RepNodes, Sizes, Places, RepFrame, Start, OpenAt;
  }

  lemma {:induction false} ElseStarts(b: Builder, g: Frame)
    requires b.stack != [] && Top(b).InIf? && g == InElse(Top(b).before, Top(b).cond, b.cur)
    ensures var stack' := b.stack[..|b.stack| - 1] + [g];
      OpenAt(stack') == OpenAt(b.stack) && Start(stack') == OpenAt(b.stack) + 1 + Sizes(b.cur)
  {
    hide Sizes;
    assert (b.stack[..|b.stack| - 1] + [g])[..|b.stack| - 1] == b.stack[..|b.stack| - 1];
  }

  /** Only the flag of the node at `p` differs. */
  ghost predicate Flagged(nodes: seq<PNode>, nodes': seq<PNode>, p: nat) {
    && p < |nodes| == |nodes'| && nodes'[p] == nodes[p].(inElse := true)
    && SameOn(nodes, nodes', 0, p) && SameOn(nodes, nodes', p + 1, |nodes|)
  }

  lemma {:induction false} KeptBelow(nodes: seq<PNode>, nodes': seq<PNode>, b: Builder, p: nat)
    requires Rep(nodes, b) && b.stack != [] && Top(b).InIf? && p == OpenAt(b.stack) && Flagged(nodes, nodes', p)
    ensures RepNodes(nodes', p + 1, b.cur, p)
  {
    assert Start(b.stack) == p + 1;
    hide RepStack, RepNodes, Sizes;
    KeepNodes(nodes, nodes', p + 1, b.cur, p);
  }

  lemma {:induction false} KeptAbove(nodes: seq<PNode>, nodes': seq<PNode>, b: Builder, p: nat)
    requires Rep(nodes, b) && b.stack != [] && p == OpenAt(b.stack) && Flagged(nodes, nodes', p)
    ensures var init := b.stack[..|b.stack| - 1];
      && RepStack(nodes', init)
      && Active(nodes'[OpenAt(init)]) == Places(Start(init), Top(b).before) + [p]
      && RepNodes(nodes', Start(init), Top(b).before, OpenAt(init))
  {
    hide RepNodes, RepStack, RepFrame, Sizes, Places, Start, OpenAt, Rep;
    Innermost(nodes, b);
    KeepRest(nodes, nodes', b.stack);
  }

  /** The open block, now filling its else list. */
  lemma {:induction false} ElseFrame(nodes: seq<PNode>, nodes': seq<PNode>, b: Builder, p: nat)
    requires Rep(nodes, b) && b.stack != [] && Top(b).InIf? && p == OpenAt(b.stack) && Flagged(nodes, nodes', p)
    ensures RepFrame(nodes', p, InElse(Top(b).before, Top(b).cond, b.cur), OpenAt(b.stack[..|b.stack| - 1]))
    ensures Active(nodes'[p]) == []
  {
    hide RepNodes, RepStack, Sizes, Places, Start, OpenAt, Rep;
    Innermost(nodes, b);
    KeptBelow(nodes, nodes', b, p);
  }

  lemma {:induction false} ElseBranch(nodes: seq<PNode>, nodes': seq<PNode>, b: Builder, p: nat, b': Builder)
    requires Rep(nodes, b) && b.stack != [] && Top(b).InIf? && p == OpenAt(b.stack)
    requires Fed(b, TElse) == Some(b') && Flagged(nodes, nodes', p)
    ensures Rep(nodes', b') && OpenAt(b'.stack) == p
  {
    var init, f := b.stack[..|b.stack| - 1], Top(b);
    var g := InElse(f.before, f.cond, b.cur);
    assert b'.stack == init + [g] && b'.cur == [] && |nodes'| == |nodes|;
    hide RepNodes, RepNode, RepStack, RepFrame, Sizes, Places, Start, OpenAt, Fed, Flagged;
    Innermost(nodes, b);
    ElseStarts(b, g);
    KeptAbove(nodes, nodes', b, p);
    ElseFrame(nodes, nodes', b, p);
    StackIs(nodes', init, g, p);
    EmptyList(nodes', p + 1 + Sizes(b.cur), p);
  }

  /** The tree of a block that ends here. */
  function BlockTree(b: Builder): Node
    requires b.stack != []
  {
    match Top(b)
    case InIf(_, cond) => If(cond, false, b.cur, [])
    case InElse(_, cond, thn) => If(cond, true, thn, b.cur)
    case InFor(_, v, e) => For(v, e, b.cur)
  }

  lemma {:induction false} ClosedNode(nodes: seq<PNode>, b: Builder)
    requires Rep(nodes, b) && b.stack != []
    ensures var init := b.stack[..|b.stack| - 1];
      && RepNode(nodes, OpenAt(b.stack), BlockTree(b), OpenAt(init))
      && |nodes| == OpenAt(b.stack) + Size(BlockTree(b))
  {
    hide RepNodes, RepStack, Sizes, Places, Start, OpenAt, Rep;
    Innermost(nodes, b);
    EmptyList(nodes, OpenAt(b.stack) + 1 + Sizes(b.cur), OpenAt(b.stack));
  }

  lemma {:induction false} CloseBlock(nodes: seq<PNode>, b: Builder)
    requires Rep(nodes, b) && b.stack != []
    ensures Rep(nodes, Close(b, BlockTree(b))) && OpenAt(b.stack[..|b.stack| - 1]) == nodes[OpenAt(b.stack)].parent
  {
    hide RepNodes, RepStack, RepNode, Sizes, BlockTree, Places, Start, OpenAt, Rep;
    Innermost(nodes, b);
    ClosedNode(nodes, b);
    CloseInto(nodes, b.stack[..|b.stack| - 1], Top(b).before, BlockTree(b));
  }

  lemma {:induction false} CloseInto(nodes: seq<PNode>, init: seq<Frame>, before: seq<Node>, t: Node)
    requires RepStack(nodes, init) && RepNodes(nodes, Start(init), before, OpenAt(init))
    requires Active(nodes[OpenAt(init)]) == Places(Start(init), before) + [Start(init) + Sizes(before)]
    requires RepNode(nodes, Start(init) + Sizes(before), t, OpenAt(init))
    requires |nodes| == Start(init) + Sizes(before) + Size(t)
    ensures Rep(nodes, Builder(before + [t], init))
  {
    hide RepNodes, RepStack, RepNode, Sizes, Places, Start, OpenAt;
    Snoc(nodes, Start(init), before, t, OpenAt(init));
  }

  /** What the parser sees of the innermost open block. */
  lemma {:induction false} KindOfTop(nodes: seq<PNode>, b: Builder)
    requires Rep(nodes, b)
    ensures var n := nodes[OpenAt(b.stack)];
      && (n.kind == NRoot <==> b.stack == [])
      && (n.kind == NIf <==> b.stack != [] && !Top(b).InFor?)
      && (n.kind == NFor <==> b.stack != [] && Top(b).InFor?)
      && (n.inElse <==> b.stack != [] && Top(b).InElse?)
  {
    if b.stack != [] {
      assert RepFrame(nodes, OpenAt(b.stack), Top(b), OpenAt(b.stack[..|b.stack| - 1]));
    }
  }

  lemma {:induction false} RootOpens(nodes: seq<PNode>, b: Builder)
    requires Rep(nodes, b)
    ensures OpenAt(b.stack) == 0 <==> b.stack == []
  {
    OpenBefore(b.stack);
  }
}
