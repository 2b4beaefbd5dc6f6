/** mtemplate.c: what running a template means, on values. */
module TemplateEval {
  import opened Options
  import opened TemplateTree
  import opened Objects
  import opened ObjectPaths
  import opened Locations
  import opened Values

  /** One call of the output callback: with the text of a text node, which the directive `text` leaves
      null, or with a rendered object. A string goes out up to its first NUL character. An array or
      dictionary prints its address, which is not part of its value. */
  datatype Piece = Plain(node: Option<string>)
    | Str(text: string) | Decimal(num: int) | NoneText | ArrayAt(len: nat) | DictAt

  /** The calls a run makes as long as none of them stops it, and whether it then succeeds. */
  datatype Outcome = Outcome(out: seq<Piece>, ok: bool)

  const FAILED := Outcome([], false)
  const NOTHING := Outcome([], true)

  function Followed(a: Outcome, b: Outcome): Outcome {
    if a.ok then Outcome(a.out + b.out, b.ok) else a
  }

  /** fetch_var: the loop variables first, then the namespace of the caller. */
  ghost function Fetch(num: Strtol, ns: Option<Value>, local: Value, name: string): Option<Value> {
    var path := ParseLocation(num, name);
    if path.None? then None
    else if local.VDict? && ResolveValue(local, path.value).Some? then ResolveValue(local, path.value)
    else if ns.Some? && ns.value.VDict? then ResolveValue(ns.value, path.value)
    else None
  }

  /** mobject_as_boolean */
  function Truth(v: Value): bool {
    match v
    case VNone => false
    case VInt(n) => n != 0
    case VString(s) => |s| > 0
    case VArray(items) => |items| > 0
    case VDict(_, items) => |items| > 0
  }

  function UpToNul(s: string): string {
    s[..Span(s, "\0")]
  }

  function Rendered(v: Value): Piece {
    match v
    case VNone => NoneText
    case VInt(n) => Decimal(n)
    case VString(s) => Str(UpToNul(s))
    case VArray(items) => ArrayAt(|items|)
    case VDict(_, _) => DictAt
  }

  /** What a loop goes through: items by index, or entries in their order. */
  function LoopItems(v: Value): Option<seq<(Value, Value)>> {
    match v
    case VArray(items) => Some(seq(|items|, i requires 0 <= i < |items| => (VInt(i), items[i])))
    case VDict(keys, items) =>
      if |keys| != |items| then None
      else Some(seq(|items|, i requires 0 <= i < |items| == |keys| => (VString(keys[i]), items[i])))
    case _ => None
  }

  function LoopVar(item: (Value, Value)): Value {
    VDict(["key", "value"], [item.0, item.1])
  }

  /** The namespace of a loop body. */
  function Framed(local: Value, localvar: string, item: (Value, Value)): Value {
    if local.VDict? && |local.keys| == |local.items| then Replaced(local, localvar, LoopVar(item)) else local
  }

  ghost function EvalNodes(ts: seq<Node>, num: Strtol, ns: Option<Value>, local: Value): Outcome
    decreases ts, 1, 0
  {
    if ts == [] then NOTHING
    else Followed(EvalNode(ts[0], num, ns, local), EvalNodes(ts[1..], num, ns, local))
  }

  ghost function EvalNode(t: Node, num: Strtol, ns: Option<Value>, local: Value): Outcome
    decreases t, 0, 0
  {
    match t
    case Text(s) => Outcome([Plain(Some(s))], true)
    case NullText => Outcome([Plain(None)], true)
    case Subst(name) =>
      var v := Fetch(num, ns, local, name);
      if v.None? then FAILED else Outcome([Rendered(v.value)], true)
    case If(cond, _, thn, els) =>
      var v := Fetch(num, ns, local, cond);
      if v.None? then FAILED else EvalNodes(if Truth(v.value) then thn else els, num, ns, local)
    case For(localvar, expr, body) =>
      var v := Fetch(num, ns, local, expr);
      if v.None? || LoopItems(v.value).None? then FAILED
      else EvalLoop(localvar, body, LoopItems(v.value).value, num, ns, local)
  }

  ghost function EvalLoop(localvar: string, body: seq<Node>, items: seq<(Value, Value)>, num: Strtol,
                          ns: Option<Value>, local: Value): Outcome
    decreases body, 2, |items|
  {
    if items == [] then NOTHING
    else Followed(EvalNodes(body, num, ns, Framed(local, localvar, items[0])),
                  EvalLoop(localvar, body, items[1..], num, ns, local))
  }

  // ---------- scoping ----------

  lemma ReplacedAt(v: Value, key: string, item: Value, s: string)
    requires v.VDict? && |v.keys| == |v.items| && Distinct(v.keys)
    ensures var r := Replaced(v, key, item);
      ChildValue(r, Name(s)) == if s == key then Some(item) else ChildValue(v, Name(s))
  {
    var r := Replaced(v, key, item);
    if s == key {
      KeyAt(r.keys, key, |r.keys| - 1);
    } else {
      OtherEntry(v, key, item, s);
    }
  }

  lemma OtherEntry(v: Value, key: string, item: Value, s: string)
    requires v.VDict? && |v.keys| == |v.items| && Distinct(v.keys) && s != key
    ensures ChildValue(Replaced(v, key, item), Name(s)) == ChildValue(v, Name(s))
  {
    var i := Position(v.keys, s);
    if i.Some? {
      OtherThere(v, key, item, s, i.value);
    } else {
      OtherAbsent(v, key, item, s);
    }
  }

  lemma OtherThere(v: Value, key: string, item: Value, s: string, i: nat)
    requires v.VDict? && |v.keys| == |v.items| && Distinct(v.keys) && s != key && Position(v.keys, s) == Some(i)
    ensures ChildValue(Replaced(v, key, item), Name(s)) == Some(v.items[i])
  {
    var r, gone := Replaced(v, key, item), Position(v.keys, key);
    hide Position;
    if gone.Some? {
      var j := if gone.value < i then i - 1 else i;
      WithoutKeeps(v.keys, gone.value, i);
      WithoutKeeps(v.items, gone.value, i);
      hide Without;
      KeyAt(r.keys, s, j);
    } else {
      KeyAt(r.keys, s, i);
    }
  }

  lemma WithoutKeeps<T>(s: seq<T>, gone: nat, i: nat)
    requires gone < |s| && i < |s| && i != gone
    ensures var s', j := Without(s, gone), if gone < i then i - 1 else i;
      |s'| == |s| - 1 && s'[j] == s[i] && forall k :: 0 <= k < j ==> s'[k] == s[if k < gone then k else k + 1]
  {
  }

  lemma OtherAbsent(v: Value, key: string, item: Value, s: string)
    requires v.VDict? && |v.keys| == |v.items| && s != key && s !in v.keys
    ensures ChildValue(Replaced(v, key, item), Name(s)) == None
  {
    var r := Replaced(v, key, item);
    hide Position;
    assert s !in r.keys;
  }

  lemma KeyAt(keys: seq<string>, key: string, i: nat)
    requires i < |keys| && keys[i] == key && (forall j :: 0 <= j < i ==> keys[j] != key)
    ensures Position(keys, key) == Some(i)
  {
    PositionIs(keys, key, i);
  }

  /** Inside the body the loop variable hides everything of its name, and nothing else. */
  lemma LoopVarShadows(local: Value, localvar: string, item: (Value, Value), path: Path)
    requires local.VDict? && |local.keys| == |local.items| && Distinct(local.keys) && path != []
    ensures var frame := Framed(local, localvar, item);
      ResolveValue(frame, path) == if path[0] == Name(localvar) then ResolveValue(LoopVar(item), path[1..])
                                   else ResolveValue(local, path)
  {
    var frame := Framed(local, localvar, item);
    match path[0]
    case Name(s) => ReplacedAt(local, localvar, LoopVar(item), s);
    case Index(_) =>
  }
}
