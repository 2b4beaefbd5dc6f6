/** mobject.c: how an object compares with its deep copy. */
module CopyOrder {
  import opened Options
  import opened Objects
  import opened Values
  import Deepcopy
  import opened ObjectOrder

  type Addresses = map<MObject, int>

  /** The objects have addresses, and no two of them the same. */
  ghost predicate Placed(addr: Addresses, s: set<MObject>) {
    && s <= addr.Keys
    && forall x, y :: x in s && y in s && x != y ==> addr[x] != addr[y]
  }

  /** What the comparison sees of the object `o` in the memory `m`. */
  ghost function Seen(m: Mem, o: MObject, v: Value, addr: Addresses): Obj
    requires Rep(m, o, v) && m.Keys <= addr.Keys
    decreases v
  {
    match m[o].kind
    case NoneKind => ONone
    case IntKind => OInt(m[o].num)
    case StringKind => OString(m[o].str)
    case ArrayKind => OArray(SeenAll(m, m[o].items, v.items, addr))
    case DictKind => ODict(addr[o])
  }

  ghost function SeenAll(m: Mem, items: seq<MObject>, vs: seq<Value>, addr: Addresses): (r: seq<Option<Obj>>)
    requires RepAll(m, items, vs) && m.Keys <= addr.Keys
    ensures |r| == |items|
    decreases vs, 0
  {
    seq(|vs|, i requires 0 <= i < |vs| && RepAll(m, items, vs) => Some(Seen(m, items[i], vs[i], addr)))
  }

  /** Two objects that hold one value, in memory of their own each, are copies of one another. */
  lemma {:induction false} ApartAreCopies(m: Mem, o: MObject, n: Mem, c: MObject, v: Value, addr: Addresses)
    requires Rep(m, o, v) && Rep(n, c, v) && m.Keys !! n.Keys && Placed(addr, m.Keys + n.Keys)
    ensures IsCopy(Seen(m, o, v, addr), Seen(n, c, v, addr))
    decreases v
  {
    if v.VArray? {
      forall i | 0 <= i < |v.items|
        ensures IsCopy(Seen(m, m[o].items[i], v.items[i], addr), Seen(n, n[c].items[i], v.items[i], addr))
      {
        ApartAreCopies(m, m[o].items[i], n, n[c].items[i], v.items[i], addr);
      }
    }
  }

  /** The value holds no dictionary. */
  predicate NoDict(v: Value)
    decreases v
  {
    match v
    case VDict(_, _) => false
    case VArray(vs) => forall i :: 0 <= i < |vs| ==> NoDict(vs[i])
    case _ => true
  }

  lemma {:induction false} SeenDictFree(m: Mem, o: MObject, v: Value, addr: Addresses)
    requires Rep(m, o, v) && m.Keys <= addr.Keys
    ensures DictFree(Seen(m, o, v, addr)) <==> NoDict(v)
    decreases v
  {
    if v.VArray? {
      forall i | 0 <= i < |v.items| ensures DictFree(Seen(m, m[o].items[i], v.items[i], addr)) <==> NoDict(v.items[i]) {
        SeenDictFree(m, m[o].items[i], v.items[i], addr);
      }
      var s := SeenAll(m, m[o].items, v.items, addr);
      assert forall i :: 0 <= i < |s| ==> s[i] == Some(Seen(m, m[o].items[i], v.items[i], addr));
    }
  }

  /** Two such objects compare equal exactly if the value holds no dictionary. */
  lemma {:induction false} ApartCompare(m: Mem, o: MObject, n: Mem, c: MObject, v: Value, addr: Addresses)
    requires Rep(m, o, v) && Rep(n, c, v) && m.Keys !! n.Keys && Placed(addr, m.Keys + n.Keys)
    ensures Cmp(Seen(m, o, v, addr), Seen(n, c, v, addr)) == 0 <==> NoDict(v)
  {
    hide Rep, Cmp;
    ApartAreCopies(m, o, n, c, v, addr);
    CopyComparesEqual(Seen(m, o, v, addr), Seen(n, c, v, addr));
    SeenDictFree(m, o, v, addr);
  }

  /** mobject_deepcopy: wherever the objects are in memory, the copy compares equal to its source
      exactly if the value holds no dictionary. */
  method CopyAndCompare(o: MObject, ghost world: set<MObject>, ghost v: Value)
    returns (c: MObject, ghost inner: set<MObject>)
    requires Rep(Snapshot(world), o, v)
    ensures fresh(c) && fresh(inner) && Rep(Snapshot(world), o, v) && Rep(Snapshot(inner + {c}), c, v)
    ensures forall addr: Addresses | Placed(addr, world + (inner + {c})) ::
      (Cmp(Seen(Snapshot(world), o, v, addr), Seen(Snapshot(inner + {c}), c, v, addr)) == 0 <==> NoDict(v))
  {
    c, inner := Deepcopy.Deepcopy(o, world, v);
    ghost var m, n := Snapshot(world), Snapshot(inner + {c});
    hide Rep, Cmp, Snapshot, Placed;
    forall addr: Addresses | Placed(addr, world + (inner + {c}))
      ensures Cmp(Seen(m, o, v, addr), Seen(n, c, v, addr)) == 0 <==> NoDict(v)
    {
      ApartCompare(m, o, n, c, v, addr);
    }
  }
}
