/** mobject.c: the value an object stands for, whatever objects hold it, and copying a value. */
module Values {
  import opened Options
  import opened Objects
  import opened ObjectPaths

  datatype Value = VNone | VInt(num: int) | VString(str: string) | VArray(items: seq<Value>)
    | VDict(keys: seq<string>, items: seq<Value>)

  /** In the memory `m` the object `o` holds the value `v`. */
  ghost predicate Rep(m: Mem, o: MObject, v: Value)
    decreases v
  {
    && o in m && m[o].Valid()
    && match v
       case VNone => m[o].kind == NoneKind
       case VInt(n) => m[o].kind == IntKind && m[o].num == n
       case VString(s) => m[o].kind == StringKind && m[o].str == s
       case VArray(vs) => m[o].kind == ArrayKind && RepAll(m, m[o].items, vs)
       case VDict(keys, vs) => m[o].kind == DictKind && m[o].keys == keys && RepAll(m, m[o].items, vs)
  }

  ghost predicate RepAll(m: Mem, items: seq<MObject>, vs: seq<Value>)
    decreases vs, 0
  {
    |items| == |vs| && forall i :: 0 <= i < |vs| ==> Rep(m, items[i], vs[i])
  }

  /** What the fields of an object say about the value it holds. */
  lemma {:induction false} RepFields(m: Mem, o: MObject, v: Value)
    requires Rep(m, o, v)
    ensures v == VNone <==> m[o].kind == NoneKind
    ensures m[o].kind == IntKind ==> v == VInt(m[o].num)
    ensures m[o].kind == StringKind ==> v == VString(m[o].str)
    ensures m[o].kind == ArrayKind ==>
              && v.VArray? && |v.items| == |m[o].items|
              && forall i :: 0 <= i < |v.items| ==> Rep(m, m[o].items[i], v.items[i])
    ensures m[o].kind == DictKind ==>
              && v.VDict? && v.keys == m[o].keys && |v.items| == |m[o].items|
              && forall i :: 0 <= i < |v.items| ==> Rep(m, m[o].items[i], v.items[i])
  {
  }

  // ---------- looking up in values ----------

  function ChildValue(v: Value, step: Step): Option<Value> {
    match step
    case Name(s) =>
      if v.VDict? && Position(v.keys, s).Some? && Position(v.keys, s).value < |v.items|
      then Some(v.items[Position(v.keys, s).value]) else None
    case Index(n) => if v.VArray? && n < |v.items| then Some(v.items[n]) else None
  }

  function ResolveValue(v: Value, path: Path): Option<Value>
    decreases |path|
  {
    if path == [] then Some(v)
    else
      var c := ChildValue(v, path[0]);
      if c.None? then None else ResolveValue(c.value, path[1..])
  }

  /** Paths lead from an object exactly where they lead from its value. */
  lemma {:induction false} ResolveRep(m: Mem, o: MObject, v: Value, path: Path)
    requires ValidMem(m) && Rep(m, o, v)
    ensures Resolve(m, o, path).Some? <==> ResolveValue(v, path).Some?
    ensures Resolve(m, o, path).Some? ==> Rep(m, Resolve(m, o, path).value, ResolveValue(v, path).value)
    decreases |path|
  {
    if path != [] {
      var c := ChildValue(v, path[0]);
      if c.Some? {
        ResolveRep(m, Child(m, o, path[0]).value, c.value, path[1..]);
      }
    }
  }

  /** Other memory does not matter. */
  ghost predicate Within(m: Mem, m2: Mem) {
    forall o :: o in m ==> o in m2 && m2[o] == m[o]
  }

  lemma {:induction false} RepWithin(m: Mem, m2: Mem, o: MObject, v: Value)
    requires Rep(m, o, v) && Within(m, m2)
    ensures Rep(m2, o, v)
    decreases v
  {
    match v
    case VArray(vs) => RepAllWithin(m, m2, m[o].items, vs);
    case VDict(_, vs) => RepAllWithin(m, m2, m[o].items, vs);
    case _ =>
  }

  lemma {:induction false} RepAllWithin(m: Mem, m2: Mem, items: seq<MObject>, vs: seq<Value>)
    requires RepAll(m, items, vs) && Within(m, m2)
    ensures RepAll(m2, items, vs)
    decreases vs, 0
  {
    forall i | 0 <= i < |vs| ensures Rep(m2, items[i], vs[i]) {
      RepWithin(m, m2, items[i], vs[i]);
    }
  }

  // ---------- mdict_replace on values ----------

  function Replaced(v: Value, key: string, item: Value): (r: Value)
    requires v.VDict? && |v.keys| == |v.items|
    ensures r.VDict? && |r.keys| == |r.items|
  {
    var i := Position(v.keys, key);
    if i.None? then VDict(v.keys + [key], v.items + [item])
    else VDict(Without(v.keys, i.value) + [key], Without(v.items, i.value) + [item])
  }
}
