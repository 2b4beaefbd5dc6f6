/**
 The nodes mtemplate_parse allocates, by allocation order: a node is named by its place in the
 pool, and links to its children and its parent. A finished subtree occupies a stretch of places.
 */
module TemplatePool {
  import opened Options
  import opened TemplateTree

  datatype NodeType = NRoot | NText | NIf | NFor | NSubst

  /** struct mtemplate_node */
  datatype PNode = PNode(kind: NodeType, text: Option<string>, localvar: string, inElse: bool,
                         children: seq<nat>, childrenElse: seq<nat>, parent: nat)

  ghost function Size(t: Node): (n: nat)
    ensures n > 0
    decreases t, 0
  {
    match t
    case If(_, _, thn, els) => 1 + Sizes(thn) + Sizes(els)
    case For(_, _, body) => 1 + Sizes(body)
    case _ => 1
  }

  ghost function Sizes(ts: seq<Node>): nat
    decreases ts, 1
  {
    if ts == [] then 0 else Sizes(ts[..|ts| - 1]) + Size(ts[|ts| - 1])
  }

  /** The places of the nodes of a list whose first node is at `start`. */
  ghost function Places(start: nat, ts: seq<Node>): seq<nat> {
    if ts == [] then [] else Places(start, ts[..|ts| - 1]) + [start + Sizes(ts[..|ts| - 1])]
  }

  /** The tree `t` is laid out from place `i` on, below `parent`. */
  ghost predicate RepNode(nodes: seq<PNode>, i: nat, t: Node, parent: nat)
    decreases t, 0
  {
    i < |nodes| &&
    match t
    case Text(s) => nodes[i] == PNode(NText, Some(s), "", false, [], [], parent)
    case NullText => nodes[i] == PNode(NText, None, "", false, [], [], parent)
    case Subst(name) => nodes[i] == PNode(NSubst, Some(name), "", false, [], [], parent)
    case For(v, e, body) =>
      nodes[i] == PNode(NFor, Some(e), v, false, Places(i + 1, body), [], parent) && RepNodes(nodes, i + 1, body, i)
    case If(cond, hasElse, thn, els) =>
      && nodes[i] == PNode(NIf, Some(cond), "", hasElse, Places(i + 1, thn), Places(i + 1 + Sizes(thn), els), parent)
      && RepNodes(nodes, i + 1, thn, i) && RepNodes(nodes, i + 1 + Sizes(thn), els, i)
  }

  ghost predicate RepNodes(nodes: seq<PNode>, start: nat, ts: seq<Node>, parent: nat)
    decreases ts, 1
  {
    ts != [] ==>
      && RepNodes(nodes, start, ts[..|ts| - 1], parent)
      && RepNode(nodes, start + Sizes(ts[..|ts| - 1]), ts[|ts| - 1], parent)
  }

  ghost predicate SameOn(nodes: seq<PNode>, nodes': seq<PNode>, from: nat, to: nat) {
    |nodes| <= |nodes'| && forall i :: from <= i < to && i < |nodes| ==> nodes'[i] == nodes[i]
  }

  lemma {:induction false} KeepNode(nodes: seq<PNode>, nodes': seq<PNode>, i: nat, t: Node, parent: nat)
    requires RepNode(nodes, i, t, parent) && SameOn(nodes, nodes', i, i + Size(t))
    ensures RepNode(nodes', i, t, parent)
    decreases t, 0
  {
    match t
    case For(v, e, body) => KeepNodes(nodes, nodes', i + 1, body, i);
    case If(cond, hasElse, thn, els) =>
      KeepNodes(nodes, nodes', i + 1, thn, i);
      KeepNodes(nodes, nodes', i + 1 + Sizes(thn), els, i);
    case _ =>
  }

  lemma {:induction false} KeepNodes(nodes: seq<PNode>, nodes': seq<PNode>, start: nat, ts: seq<Node>, parent: nat)
    requires RepNodes(nodes, start, ts, parent) && SameOn(nodes, nodes', start, start + Sizes(ts))
    ensures RepNodes(nodes', start, ts, parent)
    decreases ts, 1
  {
    if ts != [] {
      KeepNodes(nodes, nodes', start, ts[..|ts| - 1], parent);
      KeepNode(nodes, nodes', start + Sizes(ts[..|ts| - 1]), ts[|ts| - 1], parent);
    }
  }

  // ---------- a parse in progress ----------

  /** The place of the innermost open block. */
  ghost function OpenAt(stack: seq<Frame>): nat
    decreases |stack|, 0
  {
    if stack == [] then 0 else Start(stack[..|stack| - 1]) + Sizes(stack[|stack| - 1].before)
  }

  /** Where the list being filled starts. */
  ghost function Start(stack: seq<Frame>): nat
    decreases |stack|, 1
  {
    OpenAt(stack) + 1 +
    if stack != [] && stack[|stack| - 1].InElse? then Sizes(stack[|stack| - 1].thn) else 0
  }

  /** The list being filled, of the node at place `p`. */
  function Active(n: PNode): seq<nat> {
    if n.inElse then n.childrenElse else n.children
  }

  function WithActive(n: PNode, list: seq<nat>): PNode {
    if n.inElse then n.(childrenElse := list) else n.(children := list)
  }

  /** The open block of `f`, except for the list being filled. */
  ghost predicate RepFrame(nodes: seq<PNode>, p: nat, f: Frame, parent: nat)
    requires p < |nodes|
  {
    var n := nodes[p];
    n.parent == parent &&
    match f
    case InIf(_, cond) => n.kind == NIf && n.text == Some(cond) && n.localvar == "" && !n.inElse && n.childrenElse == []
    case InElse(_, cond, thn) =>
      && n.kind == NIf && n.text == Some(cond) && n.localvar == "" && n.inElse
      && n.children == Places(p + 1, thn) && RepNodes(nodes, p + 1, thn, p)
    case InFor(_, v, e) => n.kind == NFor && n.text == Some(e) && n.localvar == v && !n.inElse && n.childrenElse == []
  }

  ghost predicate RepStack(nodes: seq<PNode>, stack: seq<Frame>) {
    && OpenAt(stack) < |nodes|
    && if stack == [] then
         nodes[0].kind == NRoot && !nodes[0].inElse && nodes[0].childrenElse == []
       else
         var init, f := stack[..|stack| - 1], stack[|stack| - 1];
         && RepStack(nodes, init) && RepFrame(nodes, OpenAt(stack), f, OpenAt(init))
         && Active(nodes[OpenAt(init)]) == Places(Start(init), f.before) + [OpenAt(stack)]
         && RepNodes(nodes, Start(init), f.before, OpenAt(init))
  }

  /** The pool holds everything built so far. */
  ghost predicate Rep(nodes: seq<PNode>, b: Builder) {
    && RepStack(nodes, b.stack)
    && Active(nodes[OpenAt(b.stack)]) == Places(Start(b.stack), b.cur)
    && RepNodes(nodes, Start(b.stack), b.cur, OpenAt(b.stack))
    && |nodes| == Start(b.stack) + Sizes(b.cur)
  }

  lemma {:induction false} OpenBefore(stack: seq<Frame>)
    ensures stack != [] ==> OpenAt(stack[..|stack| - 1]) < OpenAt(stack)
  {
  }

  /** Changing only the list being filled, and what comes after it, keeps the open blocks. */
  lemma {:induction false} KeepStack(nodes: seq<PNode>, nodes': seq<PNode>, stack: seq<Frame>, list: seq<nat>)
    requires RepStack(nodes, stack) && |nodes| <= |nodes'| && Start(stack) <= |nodes|
    requires SameOn(nodes, nodes', 0, OpenAt(stack)) && SameOn(nodes, nodes', OpenAt(stack) + 1, Start(stack))
    requires nodes'[OpenAt(stack)] == WithActive(nodes[OpenAt(stack)], list)
    ensures RepStack(nodes', stack)
    decreases |stack|, 1
  {
    hide RepFrame, RepNodes, Sizes, Places;
    var p := OpenAt(stack);
    if stack != [] {
      var init, f := stack[..|stack| - 1], stack[|stack| - 1];
      OpenBefore(stack);
      assert OpenAt(init) < Start(init) <= p;
      assert Start(stack) == p + 1 + if f.InElse? then Sizes(f.thn) else 0;
      KeepOpen(nodes, nodes', p, f, OpenAt(init), list);
      KeepRest(nodes, nodes', stack);
    }
  }

  lemma {:induction false} KeepRest(nodes: seq<PNode>, nodes': seq<PNode>, stack: seq<Frame>)
    requires RepStack(nodes, stack) && SameOn(nodes, nodes', 0, OpenAt(stack)) && stack != []
    ensures var init, f := stack[..|stack| - 1], stack[|stack| - 1];
      && RepStack(nodes', init)
      && RepNodes(nodes', Start(init), f.before, OpenAt(init))
    decreases |stack|, 0
  {
    var init, f := stack[..|stack| - 1], stack[|stack| - 1];
    OpenBefore(stack);
    KeepAll(nodes, nodes', init);
    KeepNodes(nodes, nodes', Start(init), f.before, OpenAt(init));
  }

  lemma KeepOpen(nodes: seq<PNode>, nodes': seq<PNode>, p: nat, f: Frame, parent: nat, list: seq<nat>)
    requires p < |nodes| <= |nodes'| && RepFrame(nodes, p, f, parent)
    requires f.InElse? ==> SameOn(nodes, nodes', p + 1, p + 1 + Sizes(f.thn))
    requires nodes'[p] == WithActive(nodes[p], list)
    ensures RepFrame(nodes', p, f, parent)
  {
    if f.InElse? {
      KeepNodes(nodes, nodes', p + 1, f.thn, p);
    }
  }

  lemma {:induction false} KeepAll(nodes: seq<PNode>, nodes': seq<PNode>, stack: seq<Frame>)
    requires RepStack(nodes, stack) && SameOn(nodes, nodes', 0, Start(stack)) && Start(stack) <= |nodes|
    ensures RepStack(nodes', stack)
    decreases |stack|, 2
  {
    hide RepStack, RepFrame, RepNodes, Sizes;
    KeepStack(nodes, nodes', stack, Active(nodes[OpenAt(stack)]));
  }
}
