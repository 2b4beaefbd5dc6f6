/**
 mobject.c: objects that own their items. A dictionary keeps its entries in a list; an array keeps
 its items in order. A snapshot of the fields of a set of objects is a `Mem`.
 */
module Objects {
  import opened Options
  import MArray

  datatype Kind = NoneKind | IntKind | StringKind | ArrayKind | DictKind

  /** The first entry with the key `s`. */
  function Position(keys: seq<string>, s: string): (i: Option<nat>)
    ensures i.Some? ==> i.value < |keys| && keys[i.value] == s && s !in keys[..i.value]
    ensures i.None? ==> s !in keys
    decreases |keys|
  {
    if keys == [] then None
    else if keys[0] == s then Some(0)
    else
      var i := Position(keys[1..], s);
      if i.Some? then Some(i.value + 1) else None
  }

  predicate Distinct(keys: seq<string>) {
    forall i, j :: 0 <= i < j < |keys| ==> keys[i] != keys[j]
  }

  function Without<T>(s: seq<T>, i: nat): seq<T>
    requires i < |s|
  {
    s[..i] + s[i + 1..]
  }

  /** The largest capacity an array can have. */
  const MAX_ITEMS := MArray.MARRAY_MAX / 2

  class MObject {
    const kind: Kind
    const num: int
    const str: string
    var keys: seq<string>
    var items: seq<MObject>

    constructor (kind: Kind, num: int, str: string)
      ensures this.kind == kind && this.num == num && this.str == str && keys == [] && items == []
    {
      this.kind, this.num, this.str, keys, items := kind, num, str, [], [];
    }

    ghost predicate Valid()
      reads this
    {
      && (kind == DictKind ==> |keys| == |items| && Distinct(keys))
      && (kind != DictKind ==> keys == [])
      && (kind != DictKind && kind != ArrayKind ==> items == [])
      && (kind == ArrayKind ==> |items| < MAX_ITEMS)
    }

    ghost function Fields(): Cell
      reads this
    {
      Cell(kind, num, str, keys, items)
    }

    method Find(key: string) returns (i: Option<nat>)
      ensures i == Position(keys, key)
    {
      var k := 0;
      while k < |keys|
        invariant 0 <= k <= |keys| && key !in keys[..k]
      {
        if keys[k] == key {
          PositionIs(keys, key, k);
          return Some(k);
        }
        k := k + 1;
      }
      i := None;
    }

    /** mdict_item_s */
    method DictItem(key: string) returns (r: MObject?)
      requires Valid()
      ensures r == if kind == DictKind && Position(keys, key).Some? then items[Position(keys, key).value] else null
    {
      if kind != DictKind {
        return null;
      }
      var i := Find(key);
      r := if i.Some? then items[i.value] else null;
    }

    /** mdict_replace_s: an entry with the key moves to the tail. */
    method Replace(key: string, value: MObject) returns (ok: bool)
      requires Valid()
      modifies this
      ensures Valid() && ok == (kind == DictKind)
      ensures Fields() == if ok then old(Fields()).Put(Name(key), value, []) else old(Fields())
      ensures var i := Position(old(keys), key);
        ok ==> && keys == (if i.Some? then Without(old(keys), i.value) else old(keys)) + [key]
               && items == (if i.Some? then Without(old(items), i.value) else old(items)) + [value]
    {
      if kind != DictKind {
        return false;
      }
      var i := Find(key);
      if i.Some? {
        keys, items := Without(keys, i.value), Without(items, i.value);
      }
      keys, items := keys + [key], items + [value];
      ok := true;
    }

    /** mdict_insert_s: refuses a key that is there. */
    method Insert(key: string, value: MObject) returns (ok: bool)
      requires Valid()
      modifies this
      ensures Valid() && ok == (kind == DictKind && key !in old(keys))
      ensures Fields() == if ok then old(Fields()).Put(Name(key), value, []) else old(Fields())
      ensures ok ==> keys == old(keys) + [key] && items == old(items) + [value]
    {
      if kind != DictKind {
        return false;
      }
      var i := Find(key);
      if i.Some? {
        return false;
      }
      keys, items := keys + [key], items + [value];
      ok := true;
    }

    /** marray_set: a gap before the item is filled with None. */
    method SetItem(ndx: nat, value: MObject) returns (ok: bool, ghost fills: seq<MObject>)
      requires Valid()
      modifies this
      ensures Valid() && ok == (kind == ArrayKind && ndx + 1 < MAX_ITEMS)
      ensures FreshNones(fills) && fresh(set f | f in fills)
      ensures |fills| == if ok && |old(items)| < ndx then ndx - |old(items)| else 0
      ensures Fields() == if ok then old(Fields()).Put(Index(ndx), value, fills) else old(Fields())
      ensures ok ==> items == if ndx < |old(items)| then old(items)[ndx := value] else old(items) + fills + [value]
    {
      fills := [];
      if kind != ArrayKind || ndx + 1 >= MAX_ITEMS {
        return false, [];
      }
      while |items| < ndx
        invariant Valid() && items == old(items) + fills && keys == old(keys)
        invariant |fills| > 0 ==> |items| <= ndx
        invariant FreshNones(fills) && fresh(set f | f in fills)
        decreases ndx - |items|
      {
        var none := new MObject(NoneKind, 0, "");
        items, fills := items + [none], fills + [none];
      }
      if ndx < |items| {
        items := items[ndx := value];
      } else {
        items := items + [value];
      }
      ok := true;
    }
  }

  ghost predicate FreshNones(fills: seq<MObject>)
    reads fills
  {
    && (forall i :: 0 <= i < |fills| ==> fills[i].Fields() == Cell(NoneKind, 0, "", [], []))
    && (forall i, j :: 0 <= i < j < |fills| ==> fills[i] != fills[j])
  }

  lemma {:induction false} PositionIs(keys: seq<string>, key: string, k: nat)
    requires k < |keys| && keys[k] == key && key !in keys[..k]
    ensures Position(keys, key) == Some(k)
  {
    if k > 0 {
      assert key != keys[0] by { assert keys[..k][0] == keys[0]; }
      assert keys[..k][1..] == keys[1..][..k - 1];
      PositionIs(keys[1..], key, k - 1);
    }
  }

  // ---------- snapshots ----------

  datatype Step = Name(name: string) | Index(ndx: nat)

  datatype Cell = Cell(kind: Kind, num: int, str: string, keys: seq<string>, items: seq<MObject>) {
    ghost predicate Valid() {
      && (kind == DictKind ==> |keys| == |items| && Distinct(keys))
      && (kind != DictKind ==> keys == [])
      && (kind != DictKind && kind != ArrayKind ==> items == [])
      && (kind == ArrayKind ==> |items| < MAX_ITEMS)
    }

    /** The place of an item among the items. */
    ghost function At(step: Step): (i: Option<nat>)
      requires Valid()
      ensures i.Some? ==> i.value < |items|
    {
      match step
      case Name(s) => if kind == DictKind then Position(keys, s) else None
      case Index(n) => if kind == ArrayKind && n < |items| then Some(n) else None
    }

    /** mdict_replace and marray_set. */
    ghost function Put(step: Step, c: MObject, fills: seq<MObject>): Cell
      requires Valid()
    {
      match step
      case Name(s) =>
        var i := Position(keys, s);
        if kind != DictKind then this
        else if i.None? then this.(keys := keys + [s], items := items + [c])
        else this.(keys := Without(keys, i.value) + [s], items := Without(items, i.value) + [c])
      case Index(n) =>
        this.(items := MArray.Updated(items, n, c, fills))
    }
  }

  type Mem = map<MObject, Cell>

  ghost function Snapshot(s: set<MObject>): (m: Mem)
    reads s
    ensures m.Keys == s
  {
    map o | o in s :: o.Fields()
  }
}
