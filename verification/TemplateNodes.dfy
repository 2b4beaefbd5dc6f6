/** mtemplate.c: reading the nodes the parser has allocated, list by list. */
module TemplateNodes {
  import opened Options
  import opened TemplateTree
  import opened TemplatePool

  /** The list holds the places of nodes that stand for `ts`. */
  ghost predicate Lists(pool: seq<PNode>, list: seq<nat>, ts: seq<Node>) {
    exists start: nat, parent: nat :: list == Places(start, ts) && RepNodes(pool, start, ts, parent)
  }

  ghost predicate IsNode(pool: seq<PNode>, i: nat, t: Node) {
    exists parent: nat :: RepNode(pool, i, t, parent)
  }

  lemma {:induction false} PlaceOf(pool: seq<PNode>, start: nat, ts: seq<Node>, parent: nat, i: nat)
    requires RepNodes(pool, start, ts, parent) && i < |ts|
    ensures |Places(start, ts)| == |ts| && RepNode(pool, Places(start, ts)[i], ts[i], parent)
  {
    var init := ts[..|ts| - 1];
    PlacesLength(start, ts);
    if i < |init| {
      PlaceOf(pool, start, init, parent, i);
    } else {
      PlacesLength(start, init);
    }
  }

  lemma {:induction false} PlacesLength(start: nat, ts: seq<Node>)
    ensures |Places(start, ts)| == |ts|
  {
    if ts != [] {
      PlacesLength(start, ts[..|ts| - 1]);
    }
  }

  lemma {:induction false} ListLength(pool: seq<PNode>, list: seq<nat>, ts: seq<Node>)
    requires Lists(pool, list, ts)
    ensures |list| == |ts|
  {
    var start, parent :| list == Places(start, ts) && RepNodes(pool, start, ts, parent);
    PlacesLength(start, ts);
  }

  lemma {:induction false} Listed(pool: seq<PNode>, list: seq<nat>, ts: seq<Node>, i: nat)
    requires Lists(pool, list, ts) && i < |list| == |ts|
    ensures IsNode(pool, list[i], ts[i])
  {
    var start, parent :| list == Places(start, ts) && RepNodes(pool, start, ts, parent);
    PlaceOf(pool, start, ts, parent, i);
  }

  /** What the fields of a node say about the node it stands for. */
  lemma {:induction false} NodeFields(pool: seq<PNode>, i: nat, t: Node)
    requires IsNode(pool, i, t)
    ensures i < |pool|
    ensures var n := pool[i];
      match t
      case Text(s) => n.kind == NText && n.text == Some(s)
      case NullText => n.kind == NText && n.text == None
      case Subst(name) => n.kind == NSubst && n.text == Some(name)
      case If(cond, _, thn, els) =>
        n.kind == NIf && n.text == Some(cond) && Lists(pool, n.children, thn) && Lists(pool, n.childrenElse, els)
      case For(v, e, body) => n.kind == NFor && n.text == Some(e) && n.localvar == v && Lists(pool, n.children, body)
  {
    var parent :| RepNode(pool, i, t, parent);
    match t
    case If(_, _, thn, els) =>
      assert RepNodes(pool, i + 1, thn, i) && RepNodes(pool, i + 1 + Sizes(thn), els, i);
    case For(_, _, body) =>
      assert RepNodes(pool, i + 1, body, i);
    case _ =>
  }
}
