/** mnamespace.c, mnamespace_set: walks to a location, creating containers on the way. */
module NamespaceSet {
  import opened Options
  import opened Objects
  import opened ObjectPaths
  import opened Locations
  import opened Namespace

  // ---------- which sets succeed ----------

  predicate AllFit(path: Path) {
    forall i :: 0 <= i < |path| ==> Fits(path[i])
  }

  /** The path can be set from `o`: existing objects on it are containers of the right kind, and
      nothing beyond them needs too large an array. */
  ghost predicate Settable(m: Mem, o: MObject, path: Path)
    requires ValidMem(m)
    decreases |path|
  {
    && o in m && path != [] && Takes(m[o], path[0])
    && var c := Child(m, o, path[0]);
       if |path| == 1 || c.None? then AllFit(path) else Settable(m, c.value, path[1..])
  }

  ghost predicate CanSet(m: Mem, o: MObject, path: Option<Path>)
    requires ValidMem(m)
  {
    path.Some? && Settable(m, o, path.value)
  }

  /** From an empty container of the right kind, only the indices matter. */
  lemma {:induction false} EmptySettable(m: Mem, o: MObject, path: Path)
    requires ValidMem(m) && o in m && m[o].items == [] && path != [] && Takes(m[o], path[0])
    ensures Settable(m, o, path) <==> AllFit(path)
  {
    var c := Child(m, o, path[0]);
  }

  /** That is: whatever the path already leads to is a dictionary where a name follows and an array where an
      index follows, and every index is below 64M - 1. */
  lemma {:induction false} SettableExactly(m: Mem, o: MObject, path: Path)
    requires ValidMem(m) && o in m && path != []
    ensures Settable(m, o, path) <==>
            && (forall i :: 0 <= i < |path| ==> path[i].Index? ==> path[i].ndx + 1 < 0x400_0000)
            && forall i :: 0 <= i < |path| ==> RightKind(m, Resolve(m, o, path[..i]), path[i])
    decreases |path|
  {
    assert path[..0] == [];
    var c := Child(m, o, path[0]);
    if c.None? {
      forall i | 0 < i < |path| ensures Resolve(m, o, path[..i]) == None {
        assert path[..i][0] == path[0];
      }
    } else if |path| > 1 {
      assert m[o].Valid();
      SettableExactly(m, c.value, path[1..]);
      forall i | 0 < i < |path| ensures Resolve(m, o, path[..i]) == Resolve(m, c.value, path[1..][..i - 1]) {
        assert path[..i][0] == path[0] && path[..i][1..] == path[1..][..i - 1];
      }
      hide Resolve, Settable;
      SameKinds(m, o, c.value, path);
    }
  }

  ghost predicate RightKind(m: Mem, o: Option<MObject>, step: Step) {
    o.Some? ==> o.value in m && m[o.value].kind == if step.Name? then DictKind else ArrayKind
  }

  lemma SameKinds(m: Mem, o: MObject, c: MObject, path: Path)
    requires ValidMem(m) && o in m && |path| > 1
    requires forall i :: 0 < i < |path| ==> Resolve(m, o, path[..i]) == Resolve(m, c, path[1..][..i - 1])
    ensures (forall i :: 0 < i < |path| ==> RightKind(m, Resolve(m, o, path[..i]), path[i]))
            <==> forall i :: 0 <= i < |path[1..]| ==> RightKind(m, Resolve(m, c, path[1..][..i]), path[1..][i])
  {
    hide Resolve, RightKind;
    if forall i :: 0 < i < |path| ==> RightKind(m, Resolve(m, o, path[..i]), path[i]) {
      forall i | 0 <= i < |path[1..]| ensures RightKind(m, Resolve(m, c, path[1..][..i]), path[1..][i]) {
        assert path[1..][..i + 1 - 1] == path[1..][..i];
        assert RightKind(m, Resolve(m, o, path[..i + 1]), path[i + 1]);
      }
    }
  }

  // ---------- one step ----------

  /** The walk has reached `cur` along `path`; `obj` waits to be placed. */
  ghost predicate Ready(m: Mem, ns: MObject, obj: MObject, path: Path, cur: MObject) {
    && Owned(m, ns) && obj in m && obj != ns && Loose(m, obj) && cur in m && Resolve(m, ns, path) == Some(cur)
  }

  /** mdict_replace_s */
  method PutName(x: MObject, key: string, c: MObject, ghost world: set<MObject>)
    requires x in world && c in world && x.Valid() && x.kind == DictKind
    modifies x
    ensures IsPut(old(Snapshot(world)), Snapshot(world), x, Name(key), c, [])
  {
    hide Cell.Put, Position, Distinct;
    assert Puttable(x.Fields(), Name(key), []);
    var _ := x.Replace(key, c);
  }

  /** marray_set; the objects that fill a gap are new. */
  method PutIndex(x: MObject, ndx: nat, c: MObject, ghost world: set<MObject>)
    returns (ok: bool, ghost world': set<MObject>, ghost fills: seq<MObject>)
    requires x in world && c in world && x.Valid() && x.kind == ArrayKind
    modifies x
    ensures ok == Fits(Index(ndx)) && world <= world' && fresh(world' - world)
    ensures ok ==> IsPut(old(Snapshot(world)), Snapshot(world'), x, Index(ndx), c, fills)
    ensures !ok ==> world' == world && Snapshot(world) == old(Snapshot(world))
  {
    hide Cell.Put, Position, Distinct;
    ghost var cell := x.Fields();
    ok, fills := x.SetItem(ndx, c);
    world' := world + set f | f in fills;
    assert ok ==> Puttable(cell, Index(ndx), fills);
  }

  /** mdict_replace_s or marray_set. */
  method PutItem(x: MObject, step: Step, c: MObject, ghost world: set<MObject>)
    returns (ok: bool, ghost world': set<MObject>, ghost fills: seq<MObject>)
    requires x in world && c in world && ValidMem(Snapshot(world)) && Takes(x.Fields(), step)
    modifies x
    ensures ok == Fits(step) && world <= world' && fresh(world' - world)
    ensures ok ==> IsPut(old(Snapshot(world)), Snapshot(world'), x, step, c, fills)
    ensures !ok ==> world' == world && Snapshot(world) == old(Snapshot(world))
  {
    Unfolded(Snapshot(world), x);
    hide IsPut, ValidMem;
    if step.Name? {
      PutName(x, step.name, c, world);
      ok, world', fills := true, world, [];
    } else {
      ok, world', fills := PutIndex(x, step.ndx, c, world);
    }
  }

  /** A created container leaves every path that led somewhere as it was. */
  lemma {:induction false} Created(m: Mem, m1: Mem, m2: Mem, ns: MObject, obj: MObject, path: Path, x: MObject,
                                   step: Step, c: MObject,
                fills: seq<MObject>)
    requires Ready(m, ns, obj, path, x) && Child(m, x, step).None?
    requires IsNew(m, m1, c) && IsPut(m1, m2, x, step, c, fills)
    ensures Ready(m2, ns, obj, path + [step], c) && Kept(m, m2, ns) && m2[c] == m1[c]
  {
    assert ns in m;
    hide Resolve, Owned, Loose, IsPut;
    NewKeeps(m, m1, ns, c);
    Grown(m1, m2, ns, obj, path, x, step, c, fills) by {
      assert m1[x] == m[x];
    }
    KeptChain(m, m1, m2, ns);
  }

  lemma {:induction false} KeptChain(m: Mem, m1: Mem, m2: Mem, ns: MObject)
    requires Kept(m, m1, ns) && Kept(m1, m2, ns)
    ensures Kept(m, m2, ns)
  {
  }

  lemma {:induction false} Grown(m: Mem, m2: Mem, ns: MObject, obj: MObject, path: Path, x: MObject,
                                 step: Step, c: MObject,
              fills: seq<MObject>)
    requires Ready(m, ns, obj, path, x) && Child(m, x, step).None? && IsPut(m, m2, x, step, c, fills)
    requires Loose(m, c) && c != ns && c != obj && c != x
    ensures Ready(m2, ns, obj, path + [step], c) && Kept(m, m2, ns) && m2[c] == m[c]
  {
    PutOwned(m, m2, ns, x, step, c, fills);
    PutLoose(m, m2, x, step, c, fills, obj);
    hide Owned, Loose;
    assert ValidMem(m2) by { PutMemValid2(m, m2, ns, x, step, c, fills); }
    GrowKeeps(m, m2, ns, path, step, x, c, fills);
    PutReaches(m, m2, ns, path, step, x, c, fills);
  }

  lemma {:induction false} PutMemValid2(m: Mem, m2: Mem, ns: MObject, x: MObject, step: Step, v: MObject,
                                        fills: seq<MObject>)
    requires Owned(m, ns) && IsPut(m, m2, x, step, v, fills)
    ensures ValidMem(m2)
  {
    PutMemValid(m, m2, x, step, v, fills);
  }

  /** xalloc_by_typechar, and putting the new container in its place. */
  method Create(x: MObject, step: Step, typechar: char, ghost ns: MObject, ghost obj: MObject, ghost path: Path,
                ghost world: set<MObject>) returns (ok: bool, c: MObject, ghost world': set<MObject>)
    requires ValidMem(Snapshot(world)) && Ready(Snapshot(world), ns, obj, path, x) && Takes(x.Fields(), step)
    requires Child(Snapshot(world), x, step).None?
    modifies x
    ensures ok == ((typechar == '.' || typechar == '[') && Fits(step)) && world <= world' && fresh(world' - world)
    ensures ok ==> Kept(old(Snapshot(world)), Snapshot(world'), ns)
    ensures ok ==> Ready(Snapshot(world'), ns, obj, path + [step], c)
    ensures ok ==> c.items == [] && c.kind == if typechar == '.' then DictKind else ArrayKind
    ensures !ok ==> world' == world && Snapshot(world) == old(Snapshot(world))
  {
    ghost var m := Snapshot(world);
    if typechar != '.' && typechar != '[' {
      assert Snapshot(world) == m;
      return false, x, world;
    }
    c := new MObject(if typechar == '.' then DictKind else ArrayKind, 0, "");
    assert x != c && Snapshot(world) == m && IsNew(m, Snapshot(world + {c}), c);
    hide Ready, ValidMem, Kept, IsPut, Snapshot;
    ok, world' := Attach(x, step, c, ns, obj, path, world);
  }

  method Attach(x: MObject, step: Step, c: MObject, ghost ns: MObject, ghost obj: MObject, ghost path: Path,
                ghost world: set<MObject>) returns (ok: bool, ghost world': set<MObject>)
    requires ValidMem(Snapshot(world)) && Ready(Snapshot(world), ns, obj, path, x) && Takes(x.Fields(), step)
    requires Child(Snapshot(world), x, step).None? && IsNew(Snapshot(world), Snapshot(world + {c}), c) && x != c
    modifies x
    ensures ok == Fits(step) && world <= world' && fresh(world' - world - {c})
    ensures ok ==> Kept(old(Snapshot(world)), Snapshot(world'), ns)
    ensures ok ==> Ready(Snapshot(world'), ns, obj, path + [step], c)
    ensures !ok ==> world' == world && Snapshot(world) == old(Snapshot(world))
  {
    ghost var m, m1 := Snapshot(world), Snapshot(world + {c});
    NewValid(m, m1, ns, c, obj, path, x);
    ghost var fills;
    hide Ready, ValidMem, Kept, IsPut;
    ok, world', fills := PutItem(x, step, c, world + {c});
    if ok {
      Created(m, m1, Snapshot(world'), ns, obj, path, x, step, c, fills);
    } else {
      world' := world;
      SmallerSame(m, m1, world, c);
    }
  }

  lemma {:induction false} SmallerSame(m: Mem, m1: Mem, world: set<MObject>, c: MObject)
    requires IsNew(m, m1, c) && Snapshot(world + {c}) == m1 && m.Keys == world
    ensures Snapshot(world) == m
  {
    forall o | o in world ensures Snapshot(world)[o] == m[o] {
      assert Snapshot(world + {c})[o] == o.Fields();
    }
  }

  lemma {:induction false} NewValid(m: Mem, m1: Mem, ns: MObject, c: MObject, obj: MObject, path: Path, x: MObject)
    requires Ready(m, ns, obj, path, x) && IsNew(m, m1, c)
    ensures ValidMem(m1) && x in m
  {
    NewKeeps(m, m1, ns, c);
  }

  // ---------- the whole walk ----------

  lemma {:induction false} SetThen(m: Mem, o: MObject, step: Step, rest: Option<Path>)
    requires ValidMem(m) && o in m
    ensures CanSet(m, o, Then(step, rest)) ==> Takes(m[o], step) && rest.Some?
    ensures rest.Some? && Takes(m[o], step) ==>
      CanSet(m, o, Then(step, rest))
      == if rest.value == [] || Child(m, o, step).None? then Fits(step) && AllFit(rest.value)
         else CanSet(m, Child(m, o, step).value, rest)
  {
    if rest.Some? {
      var path := [step] + rest.value;
      assert path[1..] == rest.value && path[0] == step;
      assert AllFit(path) <==> Fits(step) && AllFit(rest.value) by {
        assert forall i :: 0 <= i < |rest.value| ==> path[i + 1] == rest.value[i];
      }
    }
  }

  /** The walk so far: nothing lost, and what is left to do at `cur` decides the outcome. */
  ghost predicate Walking(m0: Mem, m: Mem, ns: MObject, obj: MObject, target: Option<Path>, path: Path, cur: MObject,
                          rest: Option<Path>)
  {
    && Ready(m, ns, obj, path, cur) && Kept(m0, m, ns)
    && CanSet(m0, ns, target) == CanSet(m, cur, rest)
    && (target.Some? <==> rest.Some?) && (target.Some? ==> target.value == path + rest.value)
  }

  /** The outcome: the object is at the target exactly if it could be set, and everything that was
      found before and is not at or below the target is still found. */
  ghost predicate SetDone(m0: Mem, m: Mem, ns: MObject, obj: MObject, target: Option<Path>, ok: bool) {
    && ValidMem(m0) && Owned(m, ns) && ok == CanSet(m0, ns, target)
    && (ok ==> Resolve(m, ns, target.value) == Some(obj))
    && (forall q :: Resolve(m0, ns, q).Some? && !(ok && target.value <= q) ==> Resolve(m, ns, q) == Resolve(m0, ns, q))
  }

  lemma {:induction false} Failed(m0: Mem, m: Mem, ns: MObject, obj: MObject, target: Option<Path>, path: Path,
                                  cur: MObject, rest: Option<Path>)
    requires Walking(m0, m, ns, obj, target, path, cur, rest) && !CanSet(m, cur, rest)
    ensures SetDone(m0, m, ns, obj, target, false)
  {
  }

  lemma {:induction false} Placed(m0: Mem, m: Mem, m2: Mem, ns: MObject, obj: MObject, target: Option<Path>,
                                  path: Path, x: MObject,
               step: Step, fills: seq<MObject>)
    requires Walking(m0, m, ns, obj, target, path, x, Some([step])) && CanSet(m, x, Some([step]))
    requires IsPut(m, m2, x, step, obj, fills)
    ensures SetDone(m0, m2, ns, obj, target, true)
  {
    PutOwned(m, m2, ns, x, step, obj, fills);
    hide IsPut, CanSet, Owned, ValidMem;
    assert ValidMem(m2) by { PutMemValid2(m, m2, ns, x, step, obj, fills); }
    PutReaches(m, m2, ns, path, step, x, obj, fills);
    forall q | Resolve(m0, ns, q).Some? && !(target.value <= q) ensures Resolve(m2, ns, q) == Resolve(m0, ns, q) {
      PutKeeps(m, m2, ns, path, step, x, obj, fills, q);
    }
  }

  lemma {:induction false} Advanced(m0: Mem, m: Mem, m2: Mem, ns: MObject, obj: MObject, target: Option<Path>,
                                    path: Path, x: MObject,
                 step: Step, rest: Option<Path>, c: MObject)
    requires Walking(m0, m, ns, obj, target, path, x, Then(step, rest)) && Kept(m, m2, ns)
    requires Ready(m2, ns, obj, path + [step], c)
    requires CanSet(m, x, Then(step, rest)) == CanSet(m2, c, rest)
    ensures Walking(m0, m2, ns, obj, target, path + [step], c, rest)
  {
    hide CanSet, Ready;
    KeptChain(m0, m, m2, ns);
    if rest.Some? {
      assert path + ([step] + rest.value) == path + [step] + rest.value;
    }
  }

  /** A created container takes what follows exactly if its indices fit. */
  lemma {:induction false} CreatedOutcome(m: Mem, m2: Mem, x: MObject, step: Step, num: Strtol, s: string, c: MObject)
    requires ValidMem(m) && x in m && Takes(m[x], step) && Child(m, x, step).None? && s != ""
    requires ValidMem(m2) && c in m2 && m2[c].items == [] && Fits(step)
    requires m2[c].kind == if s[0] == '.' then DictKind else ArrayKind
    ensures CanSet(m, x, Then(step, ParseTail(num, s))) == CanSet(m2, c, ParseTail(num, s))
  {
    var rest := ParseTail(num, s);
    SetThen(m, x, step, rest);
    if rest.Some? {
      TailShape(num, s);
      hide ParseTail;
      EmptySettable(m2, c, rest.value);
    }
  }

  lemma {:induction false} NotCreated(m: Mem, x: MObject, step: Step, num: Strtol, s: string)
    requires ValidMem(m) && x in m && Child(m, x, step).None? && s != ""
    requires !Fits(step) || (s[0] != '.' && s[0] != '[')
    ensures !CanSet(m, x, Then(step, ParseTail(num, s)))
  {
    SetThen(m, x, step, ParseTail(num, s));
  }

  /** One step that is not the last: the item there, or a container made for what follows. */
  method Advance(x: MObject, step: Step, item: MObject?, num: Strtol, s: string, ghost m0: Mem, ghost ns: MObject,
                 ghost obj: MObject, ghost target: Option<Path>, ghost path: Path, ghost world: set<MObject>)
    returns (ok: bool, c: MObject, ghost world': set<MObject>)
    requires s != "" && x in world && Takes(x.Fields(), step)
    requires Walking(m0, Snapshot(world), ns, obj, target, path, x, Then(step, ParseTail(num, s)))
    requires if item == null then Child(Snapshot(world), x, step).None?
             else Child(Snapshot(world), x, step) == Some(item)
    modifies x
    ensures world <= world' && fresh(world' - world)
    ensures ok ==> c in world' && Walking(m0, Snapshot(world'), ns, obj, target, path + [step], c, ParseTail(num, s))
    ensures !ok ==> SetDone(m0, Snapshot(world'), ns, obj, target, false)
  {
    ghost var m := Snapshot(world);
    if item != null {
      Existing(m0, m, ns, obj, target, path, x, step, num, s, item);
      assert Snapshot(world) == m;
      return true, item, world;
    }
    hide ParseTail, CanSet;
    ok, c, world' := Create(x, step, s[0], ns, obj, path, world);
    if ok {
      ghost var m2 := Snapshot(world');
      assert m2[c] == c.Fields();
      CreatedOutcome(m, m2, x, step, num, s, c);
      Advanced(m0, m, m2, ns, obj, target, path, x, step, ParseTail(num, s), c);
    } else {
      NotCreated(m, x, step, num, s);
      Failed(m0, m, ns, obj, target, path, x, Then(step, ParseTail(num, s)));
    }
  }

  lemma {:induction false} Existing(m0: Mem, m: Mem, ns: MObject, obj: MObject, target: Option<Path>,
                                    path: Path, x: MObject,
                 step: Step, num: Strtol, s: string, c: MObject)
    requires Walking(m0, m, ns, obj, target, path, x, Then(step, ParseTail(num, s)))
    requires s != "" && Child(m, x, step) == Some(c) && Takes(m[x], step)
    ensures Walking(m0, m, ns, obj, target, path + [step], c, ParseTail(num, s))
  {
    var rest := ParseTail(num, s);
    SetThen(m, x, step, rest);
    if rest.Some? {
      TailShape(num, s);
    }
    ResolveSnoc(m, ns, path, step);
    hide ParseTail, CanSet;
    Advanced(m0, m, m, ns, obj, target, path, x, step, rest, c);
  }

  /** The last step. */
  method Place(x: MObject, step: Step, obj: MObject, ghost m0: Mem, ghost ns: MObject, ghost target: Option<Path>,
               ghost path: Path, ghost world: set<MObject>) returns (ok: bool, ghost world': set<MObject>)
    requires x in world && Takes(x.Fields(), step)
    requires Walking(m0, Snapshot(world), ns, obj, target, path, x, Some([step]))
    modifies x
    ensures world <= world' && fresh(world' - world) && SetDone(m0, Snapshot(world'), ns, obj, target, ok)
  {
    ghost var m := Snapshot(world);
    assert m[x] == x.Fields();
    LastCanSet(m, x, step);
    hide CanSet;
    ghost var fills;
    ok, world', fills := PutItem(x, step, obj, world);
    if ok {
      Placed(m0, m, Snapshot(world'), ns, obj, target, path, x, step, fills);
    } else {
      Failed(m0, m, ns, obj, target, path, x, Some([step]));
    }
  }

  lemma {:induction false} LastCanSet(m: Mem, x: MObject, step: Step)
    requires ValidMem(m) && x in m && Takes(m[x], step)
    ensures CanSet(m, x, Some([step])) == Fits(step)
  {
    SetThen(m, x, step, Some([]));
    assert [step] + [] == [step];
  }

  lemma {:induction false} NameOrNot(m: Mem, o: MObject, num: Strtol, s: string, l: nat)
    requires ValidMem(m) && l == Span(s, ".[")
    ensures ParseName(num, s) == if l == 0 || l >= MAX_ID then None else Then(Name(s[..l]), ParseTail(num, s[l..]))
  {
  }

  lemma {:induction false} IndexOrNot(num: Strtol, s: string, l: nat)
    requires s != "" && s[0] == '[' && l == Span(s[1..], "]")
    ensures var t := s[1..];
      ParseTail(num, s) == if l == |t| || !IndexOk(num, t[..l]) then None
                           else Then(Index(num(t[..l]).value), ParseTail(num, t[l + 1..]))
  {
  }

  /** An index from an object that is not an array, or a name from one that is not a dictionary. */
  lemma {:induction false} WrongContainer(m: Mem, o: MObject, num: Strtol, s: string)
    requires ValidMem(m) && o in m && s != ""
    requires (s[0] == '.' && m[o].kind != DictKind) || (s[0] == '[' && m[o].kind != ArrayKind) || s[0] !in ".["
    ensures !CanSet(m, o, ParseTail(num, s))
  {
    if ParseTail(num, s).Some? {
      TailShape(num, s);
    }
  }

  /** One step, last or not: `done` if the set is over, with outcome `ok`. */
  method TakeStep(x: MObject, step: Step, item: MObject?, num: Strtol, s: string, obj: MObject, ghost m0: Mem,
                  ghost ns: MObject, ghost target: Option<Path>, ghost path: Path, ghost world: set<MObject>)
    returns (done: bool, ok: bool, c: MObject, ghost world': set<MObject>)
    requires x in world && Takes(x.Fields(), step)
    requires Walking(m0, Snapshot(world), ns, obj, target, path, x, Then(step, ParseTail(num, s)))
    requires if item == null then Child(Snapshot(world), x, step).None?
             else Child(Snapshot(world), x, step) == Some(item)
    modifies x
    ensures world <= world' && fresh(world' - world)
    ensures done ==> SetDone(m0, Snapshot(world'), ns, obj, target, ok)
    ensures !done ==> c in world' && Walking(m0, Snapshot(world'), ns, obj, target, path + [step], c, ParseTail(num, s))
    ensures !done ==> s != ""
  {
    if s == "" {
      assert [step] + [] == [step];
      hide Walking;
      ok, world' := Place(x, step, obj, m0, ns, target, path, world);
      done, c := true, x;
    } else {
      hide Walking, SetDone;
      ok, c, world' := Advance(x, step, item, num, s, m0, ns, obj, target, path, world);
      done := !ok;
    }
  }

  /** The name at offset `at`. */
  method NameStep(x: MObject, num: Strtol, location: string, at: nat, obj: MObject, ghost m0: Mem, ghost ns: MObject,
                  ghost target: Option<Path>, ghost path: Path, ghost world: set<MObject>)
    returns (done: bool, ok: bool, c: MObject, o: nat, ghost path': Path, ghost world': set<MObject>)
    requires x in world && x.kind == DictKind && at <= |location|
    requires Walking(m0, Snapshot(world), ns, obj, target, path, x, ParseName(num, location[at..]))
    modifies x
    ensures world <= world' && fresh(world' - world)
    ensures done ==> SetDone(m0, Snapshot(world'), ns, obj, target, ok)
    ensures !done ==> at < o < |location| && c in world'
    ensures !done ==> Walking(m0, Snapshot(world'), ns, obj, target, path', c, ParseTail(num, location[o..]))
  {
    hide Walking, SetDone, Snapshot, ParseName, ParseTail, ValidMem, Resolve;
    var l, name := ReadName(location, at);
    o := at + l;
    WalkName(m0, Snapshot(world), ns, obj, target, path, x, num, location, at, o);
    if l == 0 || l >= MAX_ID {
      return true, false, x, at, path, world;
    }
    path' := path + [Name(name)];
    done, ok, c, world' := NamedStep(x, name, num, location[o..], obj, m0, ns, target, path, world);
  }

  lemma {:induction false} WalkName(m0: Mem, m: Mem, ns: MObject, obj: MObject, target: Option<Path>,
                                    path: Path, x: MObject, num: Strtol,
                 location: string, at: nat, o: nat)
    requires at <= |location| && o == at + Span(location[at..], ".[")
    requires Walking(m0, m, ns, obj, target, path, x, ParseName(num, location[at..]))
    ensures o == at || o - at >= MAX_ID ==> SetDone(m0, m, ns, obj, target, false)
    ensures at < o < at + MAX_ID ==>
      Walking(m0, m, ns, obj, target, path, x, Then(Name(location[at..][..o - at]), ParseTail(num, location[o..])))
  {
    WalkingValid(m0, m, ns, obj, target, path, x, ParseName(num, location[at..]));
    NameOrNot(m, x, num, location[at..], o - at);
    assert location[at..][o - at..] == location[o..];
    hide ParseName, ParseTail, Ready, Kept;
    if o == at || o - at >= MAX_ID {
      Failed(m0, m, ns, obj, target, path, x, None);
    }
  }

  method NamedStep(x: MObject, name: string, num: Strtol, s: string, obj: MObject, ghost m0: Mem, ghost ns: MObject,
                   ghost target: Option<Path>, ghost path: Path, ghost world: set<MObject>)
    returns (done: bool, ok: bool, c: MObject, ghost world': set<MObject>)
    requires x in world && x.kind == DictKind
    requires Walking(m0, Snapshot(world), ns, obj, target, path, x, Then(Name(name), ParseTail(num, s)))
    modifies x
    ensures world <= world' && fresh(world' - world)
    ensures done ==> SetDone(m0, Snapshot(world'), ns, obj, target, ok)
    ensures !done ==> c in world' && s != ""
    ensures !done ==> Walking(m0, Snapshot(world'), ns, obj, target, path + [Name(name)], c, ParseTail(num, s))
  {
    WalkingValid(m0, Snapshot(world), ns, obj, target, path, x, Then(Name(name), ParseTail(num, s)));
    hide Walking, SetDone, ParseTail, ValidMem, Resolve;
    var item := ItemOf(x, name, world);
    done, ok, c, world' := TakeStep(x, Name(name), item, num, s, obj, m0, ns, target, path, world);
  }

  lemma {:induction false} WalkingValid(m0: Mem, m: Mem, ns: MObject, obj: MObject, target: Option<Path>,
                                        path: Path, x: MObject, rest: Option<Path>)
    requires Walking(m0, m, ns, obj, target, path, x, rest)
    ensures ValidMem(m) && x in m
  {
  }

  lemma {:induction false} WalkIndex(m0: Mem, m: Mem, ns: MObject, obj: MObject, target: Option<Path>,
                                     path: Path, x: MObject, num: Strtol,
                  location: string, at: nat, l: nat)
    requires 0 < at <= |location| && location[at - 1] == '[' && l == Span(location[at..], "]")
    requires Walking(m0, m, ns, obj, target, path, x, ParseTail(num, location[at - 1..]))
    ensures var s := location[at..];
      if l == |s| || !IndexOk(num, s[..l]) then SetDone(m0, m, ns, obj, target, false)
      else Walking(m0, m, ns, obj, target, path, x,
                   Then(Index(num(s[..l]).value), ParseTail(num, location[at + l + 1..])))
  {
    var s := location[at..];
    WalkingValid(m0, m, ns, obj, target, path, x, ParseTail(num, location[at - 1..]));
    assert location[at - 1..][1..] == s;
    IndexOrNot(num, location[at - 1..], l);
    hide ParseName, ParseTail, Ready, Kept;
    if l == |s| || !IndexOk(num, s[..l]) {
      Failed(m0, m, ns, obj, target, path, x, None);
    } else {
      assert s[l + 1..] == location[at + l + 1..];
    }
  }

  lemma {:induction false} WalkWrong(m0: Mem, m: Mem, ns: MObject, obj: MObject, target: Option<Path>,
                                     path: Path, x: MObject, num: Strtol,
                  s: string)
    requires Walking(m0, m, ns, obj, target, path, x, ParseTail(num, s)) && s != ""
    ensures x in m
    ensures (s[0] == '.' && m[x].kind != DictKind) || (s[0] == '[' && m[x].kind != ArrayKind) || s[0] !in ".["
      ==> SetDone(m0, m, ns, obj, target, false)
  {
    WalkingValid(m0, m, ns, obj, target, path, x, ParseTail(num, s));
    if (s[0] == '.' && m[x].kind != DictKind) || (s[0] == '[' && m[x].kind != ArrayKind) || s[0] !in ".[" {
      WrongContainer(m, x, num, s);
      Failed(m0, m, ns, obj, target, path, x, ParseTail(num, s));
    }
  }

  /** The index at offset `at`, behind the bracket. */
  method IndexStep(x: MObject, num: Strtol, location: string, at: nat, obj: MObject, ghost m0: Mem, ghost ns: MObject,
                   ghost target: Option<Path>, ghost path: Path, ghost world: set<MObject>)
    returns (done: bool, ok: bool, c: MObject, o: nat, ghost path': Path, ghost world': set<MObject>)
    requires x in world && 0 < at <= |location| && location[at - 1] == '['
    requires Walking(m0, Snapshot(world), ns, obj, target, path, x, ParseTail(num, location[at - 1..]))
    modifies x
    ensures world <= world' && fresh(world' - world)
    ensures done ==> SetDone(m0, Snapshot(world'), ns, obj, target, ok)
    ensures !done ==> at < o < |location| && c in world'
    ensures !done ==> Walking(m0, Snapshot(world'), ns, obj, target, path', c, ParseTail(num, location[o..]))
  {
    hide Walking, SetDone, ParseTail, ParseName, ValidMem, Resolve;
    var ndx, skip := ArrayNdx(num, location, at);
    WalkIndex(m0, Snapshot(world), ns, obj, target, path, x, num, location, at, Span(location[at..], "]"));
    if ndx.None? {
      return true, false, x, at, path, world;
    }
    o := at + skip;
    path' := path + [Index(ndx.value)];
    done, ok, c, world' := IndexedStep(x, ndx.value, num, location[o..], obj, m0, ns, target, path, world);
  }

  method IndexedStep(x: MObject, ndx: nat, num: Strtol, s: string, obj: MObject, ghost m0: Mem, ghost ns: MObject,
                     ghost target: Option<Path>, ghost path: Path, ghost world: set<MObject>)
    returns (done: bool, ok: bool, c: MObject, ghost world': set<MObject>)
    requires x in world
    requires Walking(m0, Snapshot(world), ns, obj, target, path, x, Then(Index(ndx), ParseTail(num, s)))
    modifies x
    ensures world <= world' && fresh(world' - world)
    ensures done ==> SetDone(m0, Snapshot(world'), ns, obj, target, ok)
    ensures !done ==> c in world' && s != ""
    ensures !done ==> Walking(m0, Snapshot(world'), ns, obj, target, path + [Index(ndx)], c, ParseTail(num, s))
  {
    ghost var m, rest := Snapshot(world), Then(Index(ndx), ParseTail(num, s));
    WalkingValid(m0, m, ns, obj, target, path, x, rest);
    Unfolded(m, x);
    hide Walking, SetDone, ParseTail, ValidMem, Resolve;
    if x.kind != ArrayKind {
      SetThen(m, x, Index(ndx), ParseTail(num, s));
      Failed(m0, m, ns, obj, target, path, x, rest);
      return true, false, x, world;
    }
    var item := if ndx < |x.items| then x.items[ndx] else null;
    done, ok, c, world' := TakeStep(x, Index(ndx), item, num, s, obj, m0, ns, target, path, world);
  }

  lemma {:induction false} Started(m: Mem, ns: MObject, obj: MObject, num: Strtol, location: string)
    requires Owned(m, ns) && obj in m && obj != ns && Loose(m, obj)
    ensures var target := ParseLocation(num, location);
      Walking(m, m, ns, obj, target, [], ns, ParseName(num, location[0..]))
  {
    assert location[0..] == location;
    var target := ParseLocation(num, location);
    hide ParseName, CanSet;
    if target.Some? {
      assert [] + target.value == target.value;
    }
  }

  lemma {:induction false} NoDictionary(m: Mem, ns: MObject, obj: MObject, num: Strtol, location: string)
    requires Owned(m, ns) && obj in m && obj != ns && Loose(m, obj) && m[ns].kind != DictKind
    ensures SetDone(m, m, ns, obj, ParseLocation(num, location), false)
  {
    assert !CanSet(m, ns, ParseLocation(num, location));
  }

  /** All bracketed indices at offset `at`, and what follows them must name an entry. */
  method IndexSteps(x: MObject, num: Strtol, location: string, at: nat, obj: MObject, ghost m0: Mem, ghost ns: MObject,
                    ghost target: Option<Path>, ghost path: Path, ghost world: set<MObject>)
    returns (done: bool, ok: bool, c: MObject, o: nat, ghost path': Path, ghost world': set<MObject>)
    requires x in world && at < |location|
    requires Walking(m0, Snapshot(world), ns, obj, target, path, x, ParseTail(num, location[at..]))
    modifies world
    ensures world <= world' && fresh(world' - world)
    ensures done ==> SetDone(m0, Snapshot(world'), ns, obj, target, ok)
    ensures !done ==> at <= o < |location| && c in world' && location[o] == '.' && c.kind == DictKind
    ensures !done ==> Walking(m0, Snapshot(world'), ns, obj, target, path', c, ParseTail(num, location[o..]))
  {
    hide Walking, SetDone, ParseTail;
    done, ok, c, o, path', world' := false, false, x, at, path, world;
    while location[o] == '['
      invariant world <= world' && fresh(world' - world) && c in world' && at <= o < |location|
      invariant Walking(m0, Snapshot(world'), ns, obj, target, path', c, ParseTail(num, location[o..]))
      decreases |location| - o
    {
      assert location[o + 1 - 1..] == location[o..];
      done, ok, c, o, path', world' := IndexStep(c, num, location, o + 1, obj, m0, ns, target, path', world');
      if done {
        return;
      }
    }
    WalkWrong(m0, Snapshot(world'), ns, obj, target, path', c, num, location[o..]);
    done := location[o] != '.' || c.kind != DictKind;
    ok := false;
  }

  /** mnamespace_set. The object must be new to the namespace, which then owns it. */
  method Set(ns: MObject, num: Strtol, location: string, obj: MObject, ghost world: set<MObject>)
    returns (ok: bool, ghost world': set<MObject>)
    requires ns in world && obj in world && obj != ns && Owned(Snapshot(world), ns) && Loose(Snapshot(world), obj)
    modifies world
    ensures world <= world' && fresh(world' - world)
    ensures SetDone(old(Snapshot(world)), Snapshot(world'), ns, obj, ParseLocation(num, location), ok)
  {
    ghost var m0 := Snapshot(world);
    if ns.kind != DictKind {
      NoDictionary(m0, ns, obj, num, location);
      assert m0 == Snapshot(world);
      return false, world;
    }
    Started(m0, ns, obj, num, location);
    hide Walking, SetDone, Owned, Loose;
    ok, world' := WalkAll(ns, num, location, obj, m0, world);
  }

  method WalkAll(ns: MObject, num: Strtol, location: string, obj: MObject, ghost m0: Mem, ghost world: set<MObject>)
    returns (ok: bool, ghost world': set<MObject>)
    requires ns in world && ns.kind == DictKind
    requires Walking(m0, Snapshot(world), ns, obj, ParseLocation(num, location), [], ns, ParseName(num, location[0..]))
    modifies world
    ensures world <= world' && fresh(world' - world)
    ensures SetDone(m0, Snapshot(world'), ns, obj, ParseLocation(num, location), ok)
  {
    hide Walking, SetDone, ParseTail, ParseName, ParseLocation, Snapshot;
    ghost var target := ParseLocation(num, location);
    var current, o := ns, 0;
    ghost var path: Path := [];
    world' := world;
    var done, c;
    while true
      invariant world <= world' && fresh(world' - world) && current in world' && current.kind == DictKind
      invariant 0 <= o <= |location|
      invariant Walking(m0, Snapshot(world'), ns, obj, target, path, current, ParseName(num, location[o..]))
      decreases |location| - o
    {
      done, ok, c, o, path, world' := NameStep(current, num, location, o, obj, m0, ns, target, path, world');
      if done {
        return;
      }
      done, ok, c, o, path, world' := IndexSteps(c, num, location, o, obj, m0, ns, target, path, world');
      if done {
        return;
      }
      TailIsName(num, location, o);
      current, o := c, o + 1;
    }
  }

  lemma {:induction false} TailIsName(num: Strtol, location: string, o: nat)
    requires o < |location| && location[o] == '.'
    ensures ParseTail(num, location[o..]) == ParseName(num, location[o + 1..])
  {
    assert location[o..][1..] == location[o + 1..];
  }

  /** After a set, the location yields the object; every other location that yielded one, and is not
      at or below it, yields the same one as before. After a failed set every location does. */
  lemma {:induction false} SetThenLookup(m0: Mem, m: Mem, ns: MObject, obj: MObject, num: Strtol,
                                         location: string, ok: bool, other: string)
    requires SetDone(m0, m, ns, obj, ParseLocation(num, location), ok)
    ensures ok ==> Looked(m, num, ns, location) == Some(obj)
    ensures Looked(m0, num, ns, other).Some?
            && !(ok && ParseLocation(num, location).value <= ParseLocation(num, other).value)
            ==> Looked(m, num, ns, other) == Looked(m0, num, ns, other)
  {
    var path := ParseLocation(num, other);
    if Looked(m0, num, ns, other).Some? {
      assert Resolve(m0, ns, path.value).Some?;
    }
  }
}
