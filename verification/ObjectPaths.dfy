/**
 Paths through objects: what a path leads to, why it is the only path there, and which paths one
 change of an item leaves alone.
 */
module ObjectPaths {
  import opened Options
  import opened Objects

  type Path = seq<Step>

  ghost predicate ValidMem(m: Mem) {
    && (forall o :: o in m ==> m[o].Valid())
    && (forall o, y :: o in m && y in m[o].items ==> y in m)
  }

  ghost function Child(m: Mem, o: MObject, step: Step): (c: Option<MObject>)
    requires ValidMem(m)
    ensures c.Some? ==> c.value in m
  {
    if o !in m then None
    else
      var i := m[o].At(step);
      if i.Some? then Some(m[o].items[i.value]) else None
  }

  /** What the path leads to from `o`. */
  ghost function Resolve(m: Mem, o: MObject, path: Path): (r: Option<MObject>)
    requires ValidMem(m)
    decreases |path|
  {
    if path == [] then Some(o)
    else
      var c := Child(m, o, path[0]);
      if c.None? then None else Resolve(m, c.value, path[1..])
  }

  lemma {:induction false} ResolveSnoc(m: Mem, o: MObject, path: Path, step: Step)
    requires ValidMem(m)
    ensures Resolve(m, o, path + [step])
            == if Resolve(m, o, path).None? then None else Child(m, Resolve(m, o, path).value, step)
    decreases |path|
  {
    if path == [] {
      assert [step][1..] == [];
    } else {
      assert (path + [step])[1..] == path[1..] + [step];
      var c := Child(m, o, path[0]);
      if c.Some? {
        ResolveSnoc(m, c.value, path[1..], step);
      }
    }
  }

  ghost predicate NoDup(s: seq<MObject>) {
    forall i, j :: 0 <= i < j < |s| ==> s[i] != s[j]
  }

  /** No object is an item twice, and the root is no item: an object has one owner. */
  ghost predicate Owned(m: Mem, root: MObject) {
    && ValidMem(m) && root in m && Loose(m, root)
    && (forall x :: x in m ==> NoDup(m[x].items))
    && (forall x, y, o :: x in m && y in m && o in m[x].items && o in m[y].items ==> x == y)
  }

  ghost predicate Loose(m: Mem, o: MObject) {
    forall x :: x in m ==> o !in m[x].items
  }

  lemma {:induction false} SameStep(c: Cell, s: Step, t: Step)
    requires c.Valid() && c.At(s).Some? && c.At(s) == c.At(t)
    ensures s == t
  {
  }

  /** Two paths from the root to the same object are the same path. */
  lemma {:induction false} UniquePath(m: Mem, root: MObject, p: Path, q: Path)
    requires Owned(m, root) && Resolve(m, root, p).Some? && Resolve(m, root, p) == Resolve(m, root, q)
    ensures p == q
    decreases |p|
  {
    if p == [] {
      if q != [] {
        LastEdge(m, root, q);
      }
    } else if q == [] {
      LastEdge(m, root, p);
    } else {
      LastEdge(m, root, p);
      LastEdge(m, root, q);
      var p', q' := p[..|p| - 1], q[..|q| - 1];
      var x := Resolve(m, root, p').value;
      var y := Resolve(m, root, q').value;
      var o := Resolve(m, root, p).value;
      assert o in m[x].items && o in m[y].items;
      assert x == y;
      SameStep(m[x], p[|p| - 1], q[|q| - 1]);
      UniquePath(m, root, p', q');
      assert p == p' + [p[|p| - 1]] && q == q' + [q[|q| - 1]];
    }
  }

  lemma {:induction false} LastEdge(m: Mem, root: MObject, p: Path)
    requires ValidMem(m) && p != [] && Resolve(m, root, p).Some?
    ensures var x := Resolve(m, root, p[..|p| - 1]);
      && x.Some? && x.value in m && m[x.value].At(p[|p| - 1]).Some?
      && Resolve(m, root, p).value == m[x.value].items[m[x.value].At(p[|p| - 1]).value]
  {
    assert p == p[..|p| - 1] + [p[|p| - 1]];
    ResolveSnoc(m, root, p[..|p| - 1], p[|p| - 1]);
  }

  // ---------- changing one item ----------

  lemma {:induction false} At(c: Cell, step: Step, i: nat)
    requires c.Valid() && i < |c.items|
    requires if step.Name? then c.kind == DictKind && c.keys[i] == step.name else c.kind == ArrayKind && step.ndx == i
    ensures c.At(step) == Some(i)
  {
    if step.Name? {
      PositionIs(c.keys, step.name, i);
    }
  }

  /** The object can hold the item. */
  ghost predicate Takes(c: Cell, step: Step) {
    if step.Name? then c.kind == DictKind else c.kind == ArrayKind
  }

  /** marray_set refuses large indices. */
  predicate Fits(step: Step) {
    step.Index? ==> step.ndx + 1 < MAX_ITEMS
  }

  ghost predicate Puttable(c: Cell, step: Step, fills: seq<MObject>) {
    && c.Valid() && Takes(c, step) && Fits(step)
    && (step.Index? ==> |fills| == if |c.items| < step.ndx then step.ndx - |c.items| else 0)
    && (step.Name? ==> fills == [])
  }

  lemma {:induction false} PutValid(c: Cell, step: Step, v: MObject, fills: seq<MObject>)
    requires Puttable(c, step, fills)
    ensures var c' := c.Put(step, v, fills);
      && c'.Valid() && c'.kind == c.kind && v in c'.items
      && (forall o :: o in c'.items ==> o == v || o in fills || o in c.items)
  {
    var c' := c.Put(step, v, fills);
    assert c'.items[if step.Name? then |c'.items| - 1 else step.ndx] == v;
  }

  lemma {:induction false} PutNoDup(c: Cell, step: Step, v: MObject, fills: seq<MObject>)
    requires Puttable(c, step, fills) && NoDup(c.items) && NoDup(fills) && v !in c.items && v !in fills
    requires forall f :: f in fills ==> f !in c.items
    ensures NoDup(c.Put(step, v, fills).items)
  {
    var c' := c.Put(step, v, fills);
    if step.Name? {
      var i := Position(c.keys, step.name);
      assert c'.items == (if i.Some? then Without(c.items, i.value) else c.items) + [v];
    } else if step.ndx >= |c.items| {
      NoDupJoin(c.items, fills);
      assert c'.items == (c.items + fills) + [v];
    }
  }

  lemma {:induction false} NoDupJoin(a: seq<MObject>, b: seq<MObject>)
    requires NoDup(a) && NoDup(b) && forall f :: f in b ==> f !in a
    ensures NoDup(a + b)
  {
    forall i, j | 0 <= i < j < |a + b| ensures (a + b)[i] != (a + b)[j] {
      if i < |a| <= j {
        assert b[j - |a|] in b;
      }
    }
  }

  lemma {:induction false} PutAt(c: Cell, step: Step, v: MObject, fills: seq<MObject>)
    requires Puttable(c, step, fills) && c.Put(step, v, fills).Valid()
    ensures var c' := c.Put(step, v, fills);
      c'.At(step).Some? && c'.items[c'.At(step).value] == v
  {
    var c' := c.Put(step, v, fills);
    At(c', step, if step.Name? then |c'.items| - 1 else step.ndx);
  }

  lemma {:induction false} PutElsewhere(c: Cell, step: Step, v: MObject, fills: seq<MObject>, t: Step)
    requires Puttable(c, step, fills) && c.Put(step, v, fills).Valid() && t != step && c.At(t).Some?
    ensures var c' := c.Put(step, v, fills);
      c'.At(t).Some? && c'.items[c'.At(t).value] == c.items[c.At(t).value]
  {
    var c', i := c.Put(step, v, fills), c.At(t).value;
    if step.Name? {
      var gone := Position(c.keys, step.name);
      At(c', t, if gone.Some? && gone.value < i then i - 1 else i);
    } else {
      At(c', t, i);
    }
  }

  /** `m2` is `m` after the item at `step` of `x` became `v`, the gap filled with new objects. */
  ghost predicate IsPut(m: Mem, m2: Mem, x: MObject, step: Step, v: MObject, fills: seq<MObject>) {
    && x in m && v in m && Puttable(m[x], step, fills) && NoDup(fills)
    && m2.Keys == m.Keys + (set f | f in fills)
    && m2[x] == m[x].Put(step, v, fills)
    && (forall o :: o in m && o != x ==> m2[o] == m[o])
    && (forall f :: f in fills ==> f !in m && m2[f].Valid() && m2[f].items == [])
  }

  lemma {:induction false} PutMemValid(m: Mem, m2: Mem, x: MObject, step: Step, v: MObject, fills: seq<MObject>)
    requires ValidMem(m) && IsPut(m, m2, x, step, v, fills)
    ensures ValidMem(m2)
  {
    PutValid(m[x], step, v, fills);
  }

  /** The new item has one owner, and so has every other object. */
  lemma {:induction false} PutOwned(m: Mem, m2: Mem, root: MObject, x: MObject, step: Step, v: MObject,
                                    fills: seq<MObject>)
    requires Owned(m, root) && IsPut(m, m2, x, step, v, fills) && Loose(m, v) && v != root
    ensures Owned(m2, root)
  {
    PutMemValid(m, m2, x, step, v, fills);
    PutValid(m[x], step, v, fills);
    PutNoDup(m[x], step, v, fills);
    hide Puttable;
  }

  /** An object that is not the new item stays without an owner. */
  lemma {:induction false} PutLoose(m: Mem, m2: Mem, x: MObject, step: Step, v: MObject, fills: seq<MObject>,
                                    o: MObject)
    requires ValidMem(m) && IsPut(m, m2, x, step, v, fills) && Loose(m, o) && o != v && o in m
    ensures Loose(m2, o)
  {
    PutValid(m[x], step, v, fills);
  }

  /** Every other item stays where it was. */
  lemma {:induction false} EdgeKept(m: Mem, m2: Mem, x: MObject, step: Step, v: MObject, fills: seq<MObject>,
                                    o: MObject, t: Step)
    requires ValidMem(m) && ValidMem(m2) && IsPut(m, m2, x, step, v, fills) && o in m
    requires Child(m, o, t).Some? && (o == x ==> t != step)
    ensures Child(m2, o, t) == Child(m, o, t)
  {
    hide ValidMem;
    assert m2[o].Valid() by { CellValid(m2, o); }
    if o == x {
      PutElsewhere(m[x], step, v, fills, t);
    }
  }

  lemma {:induction false} CellValid(m: Mem, o: MObject)
    requires ValidMem(m) && o in m
    ensures m[o].Valid()
  {
  }

  /** Paths that do not go through the changed item still lead to the same objects. */
  lemma {:induction false} PutKeeps(m: Mem, m2: Mem, root: MObject, p: Path, step: Step, x: MObject, v: MObject,
                                    fills: seq<MObject>, q: Path)
    requires Owned(m, root) && ValidMem(m2) && IsPut(m, m2, x, step, v, fills) && Resolve(m, root, p) == Some(x)
    requires Resolve(m, root, q).Some? && !(p + [step] <= q)
    ensures Resolve(m2, root, q) == Resolve(m, root, q)
    decreases |q|
  {
    if q != [] {
      var q', t := q[..|q| - 1], q[|q| - 1];
      assert q == q' + [t];
      LastEdge(m, root, q);
      PutKeeps(m, m2, root, p, step, x, v, fills, q');
      ResolveSnoc(m2, root, q', t);
      if Resolve(m, root, q') == Some(x) {
        UniquePath(m, root, p, q');
        assert t != step;
      }
      hide Owned, Resolve;
      EdgeKept(m, m2, x, step, v, fills, Resolve(m, root, q').value, t);
    }
  }

  lemma {:induction false} PutReaches(m: Mem, m2: Mem, root: MObject, p: Path, step: Step, x: MObject,
                                      v: MObject, fills: seq<MObject>)
    requires Owned(m, root) && ValidMem(m2) && IsPut(m, m2, x, step, v, fills) && Resolve(m, root, p) == Some(x)
    ensures Resolve(m2, root, p + [step]) == Some(v)
  {
    assert |p + [step]| > |p|;
    PutKeeps(m, m2, root, p, step, x, v, fills, p);
    PutAt(m[x], step, v, fills);
    ResolveSnoc(m2, root, p, step);
  }

  // ---------- growing ----------

  /** Every path that led somewhere still leads there. */
  ghost predicate Kept(m: Mem, m2: Mem, root: MObject) {
    ValidMem(m) && ValidMem(m2) && forall q :: Resolve(m, root, q).Some? ==> Resolve(m2, root, q) == Resolve(m, root, q)
  }

  lemma {:induction false} ResolveJoin(m: Mem, o: MObject, a: Path, b: Path)
    requires ValidMem(m)
    ensures Resolve(m, o, a + b) == if Resolve(m, o, a).None? then None else Resolve(m, Resolve(m, o, a).value, b)
    decreases |a|
  {
    if a == [] {
      assert a + b == b;
    } else {
      assert (a + b)[1..] == a[1..] + b;
      var c := Child(m, o, a[0]);
      if c.Some? {
        ResolveJoin(m, c.value, a[1..], b);
      }
    }
  }

  lemma {:induction false} SameBelow(m: Mem, m2: Mem, o: MObject, q: Path)
    requires ValidMem(m) && ValidMem(m2) && o in m && (forall x :: x in m ==> x in m2 && m2[x] == m[x])
    ensures Resolve(m2, o, q) == Resolve(m, o, q)
    decreases |q|
  {
    if q != [] && Child(m, o, q[0]).Some? {
      SameBelow(m, m2, Child(m, o, q[0]).value, q[1..]);
    }
  }

  /** A new object without items, not yet owned. */
  ghost predicate IsNew(m: Mem, m2: Mem, c: MObject) {
    c !in m && c in m2 && m2 == m[c := m2[c]] && m2[c].Valid() && m2[c].items == []
  }

  lemma {:induction false} NewKeeps(m: Mem, m2: Mem, root: MObject, c: MObject)
    requires Owned(m, root) && IsNew(m, m2, c)
    ensures Owned(m2, root) && Loose(m2, c) && Kept(m, m2, root)
    ensures forall o :: Loose(m, o) ==> Loose(m2, o)
  {
    assert ValidMem(m2);
    forall q | Resolve(m, root, q).Some? ensures Resolve(m2, root, q) == Resolve(m, root, q) {
      SameBelow(m, m2, root, q);
    }
  }

  /** An item where there was none: every path that led somewhere still does. */
  lemma {:induction false} GrowKeeps(m: Mem, m2: Mem, root: MObject, p: Path, step: Step, x: MObject,
                                     v: MObject, fills: seq<MObject>)
    requires Owned(m, root) && ValidMem(m2) && IsPut(m, m2, x, step, v, fills) && Resolve(m, root, p) == Some(x)
    requires Child(m, x, step).None?
    ensures Kept(m, m2, root)
  {
    forall q | Resolve(m, root, q).Some? ensures Resolve(m2, root, q) == Resolve(m, root, q) {
      NotThrough(m, root, p, step, x, q);
      hide Owned, IsPut, ValidMem;
      PutKeeps(m, m2, root, p, step, x, v, fills, q);
    }
  }

  /** Where there is no item, no path goes on. */
  lemma {:induction false} NotThrough(m: Mem, root: MObject, p: Path, step: Step, x: MObject, q: Path)
    requires ValidMem(m) && Resolve(m, root, p) == Some(x) && Child(m, x, step).None? && Resolve(m, root, q).Some?
    ensures !(p + [step] <= q)
  {
    if p + [step] <= q {
      ResolveJoin(m, root, p + [step], q[|p| + 1..]);
      assert q == p + [step] + q[|p| + 1..];
      ResolveSnoc(m, root, p, step);
      assert false;
    }
  }
}
