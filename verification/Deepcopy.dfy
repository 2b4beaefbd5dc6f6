/** mobject.c, mobject_deepcopy: new objects throughout, holding the same value. */
module Deepcopy {
  import opened Objects
  import opened ObjectPaths
  import opened Values

  ghost function ItemsOf(v: Value): seq<Value> {
    match v
    case VArray(vs) => vs
    case VDict(_, vs) => vs
    case _ => []
  }

  /** The object agrees with the value except for what its items hold. */
  ghost predicate Holds(o: MObject, v: Value)
    reads o
  {
    && o.Valid()
    && match v
       case VNone => o.kind == NoneKind
       case VInt(n) => o.kind == IntKind && o.num == n
       case VString(s) => o.kind == StringKind && o.str == s
       case VArray(_) => o.kind == ArrayKind
       case VDict(keys, _) => o.kind == DictKind && o.keys == keys
  }

  /** The items hold the values, in the memory `inner`, where everything else has one owner. */
  ghost predicate Below(inner: set<MObject>, items: seq<MObject>, vs: seq<Value>)
    reads inner
  {
    Forest(Snapshot(inner), items) && RepAll(Snapshot(inner), items, vs)
  }

  /** `o` holds `v`, and its items live in `inner`, apart from it. */
  ghost predicate Standing(o: MObject, inner: set<MObject>, v: Value)
    reads o, inner
  {
    o !in inner && Holds(o, v) && Below(inner, o.items, ItemsOf(v))
  }

  /** The objects without an owner are `roots`, and every object has at most one. */
  ghost predicate Forest(m: Mem, roots: seq<MObject>) {
    && ValidMem(m) && NoDup(roots)
    && (forall r :: r in roots ==> r in m && Loose(m, r))
    && (forall x :: x in m ==> NoDup(m[x].items))
    && (forall x, y, o :: x in m && y in m && o in m[x].items && o in m[y].items ==> x == y)
  }

  lemma TopRep(o: MObject, inner: set<MObject>, v: Value)
    requires Holds(o, v) && ValidMem(Snapshot(inner)) && RepAll(Snapshot(inner), o.items, ItemsOf(v))
    ensures ValidMem(Snapshot(inner + {o})) && Rep(Snapshot(inner + {o}), o, v)
  {
    RepAllThere(Snapshot(inner), o.items, ItemsOf(v));
    RepAllWithin(Snapshot(inner), Snapshot(inner + {o}), o.items, ItemsOf(v));
  }

  lemma RepAllThere(m: Mem, items: seq<MObject>, vs: seq<Value>)
    requires RepAll(m, items, vs)
    ensures forall y :: y in items ==> y in m
  {
  }

  lemma JoinValid(a: set<MObject>, b: set<MObject>)
    requires ValidMem(Snapshot(a)) && ValidMem(Snapshot(b))
    ensures ValidMem(Snapshot(a + b))
    ensures Within(Snapshot(a), Snapshot(a + b)) && Within(Snapshot(b), Snapshot(a + b))
  {
    assert forall o :: o in a ==> Snapshot(a)[o] == o.Fields();
    assert forall o :: o in b ==> Snapshot(b)[o] == o.Fields();
  }

  /** One more item, with the objects below it. */
  lemma Absorb(a: set<MObject>, items: seq<MObject>, vs: seq<Value>, item: MObject, b: set<MObject>, v: Value)
    requires ValidMem(Snapshot(a)) && RepAll(Snapshot(a), items, vs)
    requires ValidMem(Snapshot(b)) && Rep(Snapshot(b), item, v)
    ensures ValidMem(Snapshot(a + b)) && RepAll(Snapshot(a + b), items + [item], vs + [v])
  {
    JoinValid(a, b);
    RepAllWithin(Snapshot(a), Snapshot(a + b), items, vs);
    RepWithin(Snapshot(b), Snapshot(a + b), item, v);
  }

  /** The object owns all there is below it, every object through one owner. */
  lemma {:induction false} TopOwned(o: MObject, inner: set<MObject>, v: Value)
    requires Standing(o, inner, v)
    ensures Owned(Snapshot(inner + {o}), o)
  {
    TopRep(o, inner, v);
    var m, m' := Snapshot(inner), Snapshot(inner + {o});
    assert forall x :: x in m ==> m'[x] == m[x];
    assert m'[o].items == o.items;
    hide RepAll, Rep, Holds;
  }

  /** Two memories apart from one another, taken together. */
  lemma {:induction false} ForestJoin(m: Mem, r: seq<MObject>, n: Mem, item: MObject, both: Mem)
    requires Forest(m, r) && Owned(n, item) && m.Keys !! n.Keys
    requires both.Keys == m.Keys + n.Keys && Within(m, both) && Within(n, both)
    ensures Forest(both, r + [item])
  {
    assert ValidMem(both);
    forall x | x in both ensures NoDup(both[x].items) {
      assert both[x] == if x in m then m[x] else n[x];
    }
    forall x, y, o | x in both && y in both && o in both[x].items && o in both[y].items ensures x == y {
      assert both[x] == if x in m then m[x] else n[x];
      assert both[y] == if y in m then m[y] else n[y];
      assert (x in m ==> o in m) && (x in n ==> o in n) && (y in m ==> o in m) && (y in n ==> o in n);
    }
    forall o | o in r + [item] ensures o in both && Loose(both, o) {
      assert o in r || o == item;
    }
    NoDupJoin(r, [item]);
  }

  /** One more item, with the objects below it. */
  lemma {:induction false} Grow(inner: set<MObject>, items: seq<MObject>, vs: seq<Value>, n: nat, item: MObject,
                                sub: set<MObject>)
    requires n < |vs| && Below(inner, items, vs[..n])
    requires Standing(item, sub, vs[n]) && inner !! sub && item !in inner
    ensures Below(inner + (sub + {item}), items + [item], vs[..n + 1])
  {
    TopRep(item, sub, vs[n]);
    TopOwned(item, sub, vs[n]);
    assert vs[..n + 1] == vs[..n] + [vs[n]];
    Joined(inner, items, vs[..n], item, sub + {item}, vs[n]);
  }

  lemma {:induction false} Joined(a: set<MObject>, items: seq<MObject>, vs: seq<Value>, item: MObject,
                                  b: set<MObject>, v: Value)
    requires Below(a, items, vs) && Owned(Snapshot(b), item) && Rep(Snapshot(b), item, v) && a !! b
    ensures Below(a + b, items + [item], vs + [v])
  {
    Absorb(a, items, vs, item, b, v);
    JoinValid(a, b);
    hide Rep, RepAll;
    ForestJoin(Snapshot(a), items, Snapshot(b), item, Snapshot(a + b));
  }

  method Deepcopy(o: MObject, ghost world: set<MObject>,
                  ghost v: Value) returns (c: MObject, ghost inner: set<MObject>)
    requires Rep(Snapshot(world), o, v)
    ensures fresh(c) && fresh(inner) && Standing(c, inner, v)
    ensures Owned(Snapshot(inner + {c}), c) && Rep(Snapshot(inner + {c}), c, v)
    decreases v
  {
    assert Snapshot(world)[o] == o.Fields();
    c := new MObject(o.kind, o.num, o.str);
    inner := {};
    if o.kind == ArrayKind {
      inner := CopyItems(o, c, world, v);
    } else if o.kind == DictKind {
      inner := CopyEntries(o, c, world, v);
    }
    TopRep(c, inner, v);
    TopOwned(c, inner, v);
  }

  lemma ItemRep(world: set<MObject>, o: MObject, v: Value)
    requires Rep(Snapshot(world), o, v)
    ensures o in world && Holds(o, v) && RepAll(Snapshot(world), o.items, ItemsOf(v)) && |o.items| == |ItemsOf(v)|
    ensures forall i :: 0 <= i < |o.items| ==> Rep(Snapshot(world), o.items[i], ItemsOf(v)[i])
  {
    assert Snapshot(world)[o] == o.Fields();
  }

  /** Copies the next item, into memory apart from `c`. */
  method CopyNext(o: MObject, n: nat, ghost world: set<MObject>, ghost v: Value, ghost items: seq<MObject>,
                  ghost inner: set<MObject>) returns (item: MObject, ghost inner': set<MObject>)
    requires Rep(Snapshot(world), o, v) && n < |o.items| == |ItemsOf(v)|
    requires Below(inner, items, ItemsOf(v)[..n])
    ensures inner <= inner' && fresh(inner' - inner)
    ensures Below(inner', items + [item], ItemsOf(v)[..n + 1])
    decreases v, 0
  {
    ghost var vs := ItemsOf(v);
    ItemRep(world, o, v);
    hide Rep, Below, Snapshot, Standing, Owned;
    ghost var sub;
    item, sub := Deepcopy(o.items[n], world, vs[n]);
    inner' := inner + (sub + {item});
    Grow(inner, items, vs, n, item, sub);
  }

  method CopyItems(o: MObject, c: MObject, ghost world: set<MObject>,
                   ghost v: Value) returns (ghost inner: set<MObject>)
    requires Rep(Snapshot(world), o, v) && v.VArray?
    requires c !in world && c.kind == ArrayKind && c.Valid() && c.items == []
    modifies c
    ensures fresh(inner) && Standing(c, inner, v)
    decreases v, 1
  {
    inner := {};
    var n := 0;
    ItemRep(world, o, v);
    hide Rep, Below, Snapshot, Standing, Owned;
    EmptyBelow(v);
    while n < |o.items|
      invariant 0 <= n <= |o.items| && fresh(inner) && c !in inner && c.Valid() && |c.items| == n
      invariant Below(inner, c.items, ItemsOf(v)[..n])
      modifies c
    {
      ghost var items := c.items;
      var item, inner' := CopyNext(o, n, world, v, items, inner);
      var _, fills := c.SetItem(n, item);
      assert c.items == items + [item];
      inner, n := inner', n + 1;
    }
    assert ItemsOf(v)[..n] == ItemsOf(v);
    Stands(c, inner, v);
  }

  lemma Stands(o: MObject, inner: set<MObject>, v: Value)
    requires o !in inner && Holds(o, v) && Below(inner, o.items, ItemsOf(v))
    ensures Standing(o, inner, v)
  {
  }

  lemma EmptyBelow(v: Value)
    ensures Below({}, [], ItemsOf(v)[..0])
  {
  }

  /** Copies the next entry into `c`. */
  method CopyEntry(o: MObject, c: MObject, n: nat, ghost world: set<MObject>, ghost v: Value,
                   ghost inner: set<MObject>) returns (ghost inner': set<MObject>)
    requires Rep(Snapshot(world), o, v) && v.VDict? && n < |o.items| == |ItemsOf(v)| && o.Valid()
    requires c !in world && c !in inner && c.kind == DictKind && c.Valid() && c.keys == o.keys[..n]
    requires o.kind == DictKind && Below(inner, c.items, ItemsOf(v)[..n])
    modifies c
    ensures inner <= inner' && fresh(inner' - inner) && c !in inner' && c.Valid() && c.keys == o.keys[..n + 1]
    ensures Below(inner', c.items, ItemsOf(v)[..n + 1])
    decreases v, 1
  {
    hide Rep, Below, Snapshot, Standing, Owned;
    ghost var items := c.items;
    var item;
    item, inner' := CopyNext(o, n, world, v, items, inner);
    var _ := c.Insert(o.keys[n], item);
    assert c.items == items + [item];
  }

  method CopyEntries(o: MObject, c: MObject, ghost world: set<MObject>,
                     ghost v: Value) returns (ghost inner: set<MObject>)
    requires Rep(Snapshot(world), o, v) && v.VDict?
    requires c !in world && c.kind == DictKind && c.Valid() && c.items == []
    modifies c
    ensures fresh(inner) && Standing(c, inner, v)
    decreases v, 2
  {
    inner := {};
    var n := 0;
    ItemRep(world, o, v);
    hide Rep, Below, Snapshot, Standing, Owned;
    EmptyBelow(v);
    while n < |o.items|
      invariant 0 <= n <= |o.items| && fresh(inner) && c !in inner && c.Valid() && c.keys == o.keys[..n]
      invariant Below(inner, c.items, ItemsOf(v)[..n])
      modifies c
    {
      inner := CopyEntry(o, c, n, world, v, inner);
      n := n + 1;
    }
    assert ItemsOf(v)[..n] == ItemsOf(v);
    Stands(c, inner, v);
  }
}
