/**
 mtemplate.c, mtemplate_run_nodes: runs the nodes the parser has allocated over objects. The only
 thing changed that was there before is the output: both namespaces keep every field.
 */
module TemplateRun {
  import opened Options
  import opened TemplateTree
  import Pool = TemplatePool
  import opened TemplateNodes
  import opened Objects
  import opened ObjectPaths
  import opened Locations
  import opened Namespace
  import opened Values
  import opened Deepcopy
  import opened TemplateEval

  const EOF := -1

  /** The output callback: the calls made so far, and what it returns to each call. */
  class Sink {
    const script: nat -> int
    var calls: seq<Piece>

    constructor (script: nat -> int)
      ensures this.script == script && calls == []
    {
      this.script, calls := script, [];
    }

    method Call(p: Piece) returns (r: int)
      modifies this
      ensures calls == old(calls) + [p] && r == script(|old(calls)|)
    {
      r := script(|calls|);
      calls := calls + [p];
    }
  }

  /** A text node only minds the result EOF, a rendered object every result but zero. */
  predicate Stops(r: int, p: Piece) {
    if p.Plain? then r == EOF else r != 0
  }

  /** How many of the calls, the first being the `n`th of all, do not stop the run. */
  ghost function Passed(script: nat -> int, n: nat, ps: seq<Piece>): (k: nat)
    ensures k <= |ps|
    decreases |ps|
  {
    if ps == [] || Stops(script(n), ps[0]) then 0 else 1 + Passed(script, n + 1, ps[1..])
  }

  lemma {:induction false} PassedJoin(script: nat -> int, n: nat, a: seq<Piece>, b: seq<Piece>)
    ensures Passed(script, n, a + b)
            == if Passed(script, n, a) < |a| then Passed(script, n, a) else |a| + Passed(script, n + |a|, b)
    decreases |a|
  {
    if a == [] {
      assert a + b == b;
    } else {
      assert (a + b)[1..] == a[1..] + b;
      PassedJoin(script, n + 1, a[1..], b);
    }
  }

  /** Running had the outcome `o`, or ended with the first call that stopped it. */
  ghost predicate Emitted(script: nat -> int, calls: seq<Piece>, calls': seq<Piece>, ok: bool, o: Outcome) {
    var k := Passed(script, |calls|, o.out);
    if k == |o.out| then calls' == calls + o.out && ok == o.ok
    else calls' == calls + o.out[..k + 1] && !ok
  }

  /** The call for the piece `j` stops the run: it returns EOF for a text node, or anything but 0 otherwise. */
  ghost predicate StopsAt(script: nat -> int, n: nat, ps: seq<Piece>, j: nat) {
    j < |ps| && if ps[j].Plain? then script(n + j) == -1 else script(n + j) != 0
  }

  lemma {:induction false} PassedExactly(script: nat -> int, n: nat, ps: seq<Piece>)
    ensures var k := Passed(script, n, ps);
      (forall j: nat :: j < k ==> !StopsAt(script, n, ps, j)) && (k < |ps| ==> StopsAt(script, n, ps, k))
    decreases |ps|
  {
    if ps != [] && !Stops(script(n), ps[0]) {
      PassedExactly(script, n + 1, ps[1..]);
      forall j: nat | 0 < j <= |ps| ensures StopsAt(script, n, ps, j) <==> StopsAt(script, n + 1, ps[1..], j - 1) {
      }
    }
  }

  /** All calls are made and none stops the run, or they are made up to the first one that does. */
  lemma {:induction false} EmittedExactly(script: nat -> int, calls: seq<Piece>, calls': seq<Piece>, ok: bool,
                                          o: Outcome)
    ensures Emitted(script, calls, calls', ok, o) <==>
            || (calls' == calls + o.out && ok == o.ok && forall j: nat :: !StopsAt(script, |calls|, o.out, j))
            || (!ok && exists k: nat ::
                  StopsAt(script, |calls|, o.out, k) && calls' == calls + o.out[..k + 1]
                  && forall j: nat :: j < k ==> !StopsAt(script, |calls|, o.out, j))
  {
    hide StopsAt;
    PassedExactly(script, |calls|, o.out);
    var k := Passed(script, |calls|, o.out);
    StopsInside(script, |calls|, o.out);
    if i: nat :| StopsAt(script, |calls|, o.out, i) && forall j: nat :: j < i ==> !StopsAt(script, |calls|, o.out, j) {
      assert i == k;
    }
  }

  lemma StopsInside(script: nat -> int, n: nat, ps: seq<Piece>)
    ensures forall j: nat :: StopsAt(script, n, ps, j) ==> j < |ps|
  {
  }

  lemma {:induction false} EmittedNext(script: nat -> int, calls: seq<Piece>, calls1: seq<Piece>, a: Outcome,
                                       calls2: seq<Piece>, ok: bool, b: Outcome)
    requires Emitted(script, calls, calls1, true, a) && Emitted(script, calls1, calls2, ok, b)
    ensures Emitted(script, calls, calls2, ok, Followed(a, b))
  {
    var ab := a.out + b.out;
    PassedJoin(script, |calls|, a.out, b.out);
    var k := Passed(script, |calls1|, b.out);
    hide Passed;
    assert calls + a.out + b.out == calls + ab;
    if k < |b.out| {
      assert calls + a.out + b.out[..k + 1] == calls + ab[..|a.out| + k + 1];
    }
  }

  lemma {:induction false} EmittedStop(script: nat -> int, calls: seq<Piece>, calls1: seq<Piece>, a: Outcome,
                                       b: Outcome)
    requires Emitted(script, calls, calls1, false, a)
    ensures Emitted(script, calls, calls1, false, Followed(a, b))
  {
    if a.ok {
      var k := Passed(script, |calls|, a.out);
      PassedJoin(script, |calls|, a.out, b.out);
      hide Passed;
      assert (a.out + b.out)[..k + 1] == a.out[..k + 1];
    }
  }

  lemma EmittedOne(script: nat -> int, calls: seq<Piece>, p: Piece)
    ensures Emitted(script, calls, calls + [p], !Stops(script(|calls|), p), Outcome([p], true))
  {
    assert Passed(script, |calls| + 1, []) == 0;
    assert [p][1..] == [] && [p][..1] == [p];
  }

  /** A run that has got so far has the outcome `whole` if what is left to do has the outcome `rest`. */
  ghost predicate Progress(script: nat -> int, calls: seq<Piece>, now: seq<Piece>, whole: Outcome, rest: Outcome) {
    exists done: Outcome :: Emitted(script, calls, now, true, done) && done.ok && whole == Followed(done, rest)
  }

  lemma {:induction false} Starts(script: nat -> int, calls: seq<Piece>, whole: Outcome)
    ensures Progress(script, calls, calls, whole, whole)
  {
    assert Emitted(script, calls, calls, true, NOTHING);
  }

  lemma {:induction false} Advances(script: nat -> int, calls: seq<Piece>, now: seq<Piece>, next: seq<Piece>,
                                    whole: Outcome, o: Outcome, rest: Outcome, ok: bool)
    requires Progress(script, calls, now, whole, Followed(o, rest)) && Emitted(script, now, next, ok, o)
    ensures ok ==> Progress(script, calls, next, whole, rest)
    ensures !ok ==> Emitted(script, calls, next, false, whole)
  {
    var done: Outcome :|
      Emitted(script, calls, now, true, done) && done.ok && whole == Followed(done, Followed(o, rest));
    assert ok ==> o.ok;
    hide Emitted;
    assert done.out + o.out + rest.out == done.out + (o.out + rest.out);
    EmittedNext(script, calls, now, done, next, ok, o);
    if !ok {
      EmittedStop(script, calls, next, Followed(done, o), rest);
    }
  }

  lemma {:induction false} Ends(script: nat -> int, calls: seq<Piece>, now: seq<Piece>, whole: Outcome)
    requires Progress(script, calls, now, whole, NOTHING)
    ensures Emitted(script, calls, now, true, whole)
  {
    var done: Outcome :| Emitted(script, calls, now, true, done) && done.ok && whole == Followed(done, NOTHING);
    assert done.out + [] == done.out;
  }

  /** `o` stands for `v`, with all its items in `world`. */
  ghost predicate Env(world: set<MObject>, o: MObject, v: Value)
    reads world
  {
    o in world && ValidMem(Snapshot(world)) && Rep(Snapshot(world), o, v)
  }

  ghost predicate EnvOf(world: set<MObject>, o: MObject?, v: Option<Value>)
    reads world
  {
    if o == null then v.None? else v.Some? && Env(world, o, v.value)
  }

  // ---------- fetch_var ----------

  /** mnamespace_lookup, in terms of values. */
  method LookupValue(o: MObject, num: Strtol, name: string, ghost world: set<MObject>, ghost v: Value)
    returns (r: MObject?, ghost rv: Option<Value>)
    requires Env(world, o, v)
    ensures EnvOf(world, r, rv)
    ensures var path := ParseLocation(num, name);
      rv == if path.Some? && v.VDict? then ResolveValue(v, path.value) else None
    ensures r == null <==> rv.None?
  {
    ghost var m, path := Snapshot(world), ParseLocation(num, name);
    assert m[o] == o.Fields();
    rv := if path.Some? && v.VDict? then ResolveValue(v, path.value) else None;
    if path.Some? {
      ResolveRep(m, o, v, path.value);
    }
    hide ParseLocation, ValidMem, ResolveValue;
    r := Lookup(o, num, name, world);
  }

  method FetchVar(name: string, num: Strtol, ns: MObject?, local: MObject, ghost wn: set<MObject>,
                  ghost vn: Option<Value>, ghost wl: set<MObject>, ghost vl: Value)
    returns (o: MObject?, ghost w: set<MObject>, ghost v: Option<Value>)
    requires EnvOf(wn, ns, vn) && Env(wl, local, vl)
    ensures v == Fetch(num, vn, vl, name) && EnvOf(w, o, v) && (w == wl || w == wn)
    ensures o == null <==> Fetch(num, vn, vl, name).None?
  {
    hide Env, ParseLocation, ResolveValue;
    w := wl;
    o, v := LookupValue(local, num, name, wl, vl);
    if o == null && ns != null {
      w := wn;
      o, v := LookupValue(ns, num, name, wn, vn.value);
    }
  }

  // ---------- the frame of a loop ----------

  /** The copied namespace with the loop variable `d` as its last entry. */
  ghost predicate FrameReady(frame: MObject, d: MObject, inner: set<MObject>, v: Value)
    reads frame, inner
  {
    && v.VDict? && |v.keys| == |v.items| > 0
    && frame !in inner && d !in inner && frame != d
    && frame.Valid() && frame.kind == DictKind && frame.keys == v.keys
    && |frame.items| == |v.items| && frame.items[|frame.items| - 1] == d
    && ValidMem(Snapshot(inner)) && RepAll(Snapshot(inner), frame.items[..|v.items| - 1], v.items[..|v.items| - 1])
  }

  /** The frame in which a loop runs its body: its variable is empty, or holds an item. */
  ghost predicate InFrame(frame: MObject, localvar: string, d: MObject, inner: set<MObject>, vl: Value)
    reads frame, d, inner
  {
    && vl.VDict? && |vl.keys| == |vl.items| && FrameReady(frame, d, inner, Replaced(vl, localvar, VNone))
    && d.Valid() && d.kind == DictKind && (d.keys == [] || d.keys == ["key", "value"])
  }

  lemma RepAllWithout(m: Mem, items: seq<MObject>, vs: seq<Value>, i: nat)
    requires RepAll(m, items, vs) && i < |vs|
    ensures RepAll(m, Without(items, i), Without(vs, i))
  {
  }

  /** mobject_deepcopy of the namespace, and mdict_replace_sd of the loop variable. */
  method MakeFrame(local: MObject, localvar: string, ghost wl: set<MObject>, ghost vl: Value)
    returns (frame: MObject, d: MObject, ghost inner: set<MObject>)
    requires Env(wl, local, vl) && vl.VDict? && |vl.keys| == |vl.items|
    ensures fresh(frame) && fresh(d) && fresh(inner) && InFrame(frame, localvar, d, inner, vl)
  {
    hide Env, Rep, ValidMem, RepAll, Snapshot, Owned, Position;
    EnvRep(wl, local, vl);
    frame, inner := Deepcopy.Deepcopy(local, wl, vl);
    d := new MObject(DictKind, 0, "");
    ghost var was := frame.Fields();
    FrameItems(Snapshot(inner), was, vl, localvar, d);
    var _ := frame.Replace(localvar, d);
  }

  lemma FrameItems(m: Mem, c: Cell, v: Value, localvar: string, d: MObject)
    requires c.Valid() && c.kind == DictKind && v.VDict? && c.keys == v.keys && |v.keys| == |v.items|
    requires RepAll(m, c.items, v.items)
    ensures var (c', v') := (c.Put(Name(localvar), d, []), Replaced(v, localvar, VNone));
      && c'.kind == DictKind && c'.keys == v'.keys && |c'.items| == |v'.items| > 0 && c'.items[|c'.items| - 1] == d
      && RepAll(m, c'.items[..|v'.items| - 1], v'.items[..|v'.items| - 1])
  {
    var i := Position(v.keys, localvar);
    var c', v' := c.Put(Name(localvar), d, []), Replaced(v, localvar, VNone);
    if i.Some? {
      RepAllWithout(m, c.items, v.items, i.value);
      assert c'.items[..|v'.items| - 1] == Without(c.items, i.value);
      assert v'.items[..|v'.items| - 1] == Without(v.items, i.value);
    } else {
      assert c'.items[..|v'.items| - 1] == c.items && v'.items[..|v'.items| - 1] == v.items;
    }
  }

  lemma EnvRep(w: set<MObject>, o: MObject, v: Value)
    requires Env(w, o, v)
    ensures o in w && ValidMem(Snapshot(w)) && Rep(Snapshot(w), o, v)
  {
  }

  lemma PlainRep(o: MObject, v: Value)
    requires Holds(o, v) && o.items == [] && ItemsOf(v) == []
    ensures ValidMem(Snapshot({o})) && Rep(Snapshot({o}), o, v)
  {
    TopRep(o, {}, v);
    assert {} + {o} == {o};
  }

  /** A loop variable that holds the key `k` and the value `c`. */
  lemma LoopVarRep(d: MObject, k: MObject, kv: Value, c: MObject, sub: set<MObject>, cv: Value)
    requires d.Valid() && d.kind == DictKind && d.keys == ["key", "value"] && d.items == [k, c]
    requires Holds(k, kv) && k.items == [] && ItemsOf(kv) == [] && Standing(c, sub, cv)
    ensures var w := sub + {c} + {k} + {d};
      ValidMem(Snapshot(w)) && Rep(Snapshot(w), d, LoopVar((kv, cv)))
  {
    hide Rep, ValidMem, Snapshot, Holds;
    TopRep(c, sub, cv);
    PlainRep(k, kv);
    var b := sub + {c};
    OneRep(Snapshot(b), c, cv);
    Absorb(b, [c], [cv], k, {k}, kv);
    TwoRep(Snapshot(b + {k}), c, cv, k, kv);
    assert Holds(d, LoopVar((kv, cv))) by { LoopVarHolds(d, kv, cv); }
    TopRep(d, b + {k}, LoopVar((kv, cv)));
  }

  lemma LoopVarHolds(d: MObject, kv: Value, cv: Value)
    requires d.Valid() && d.kind == DictKind && d.keys == ["key", "value"]
    ensures Holds(d, LoopVar((kv, cv)))
  {
  }

  lemma OneRep(m: Mem, o: MObject, v: Value)
    requires Rep(m, o, v)
    ensures RepAll(m, [o], [v])
  {
  }

  lemma TwoRep(m: Mem, c: MObject, cv: Value, k: MObject, kv: Value)
    requires RepAll(m, [c] + [k], [cv] + [kv])
    ensures RepAll(m, [k, c], [kv, cv])
  {
    assert Rep(m, ([c] + [k])[0], ([cv] + [kv])[0]) && Rep(m, ([c] + [k])[1], ([cv] + [kv])[1]);
  }

  /** The frame with the loop variable in place stands for the framed namespace. */
  lemma FrameRep(frame: MObject, d: MObject, inner: set<MObject>, v: Value, w: set<MObject>, dv: Value)
    requires FrameReady(frame, d, inner, v) && ValidMem(Snapshot(w)) && Rep(Snapshot(w), d, dv)
    ensures Env(inner + w + {frame}, frame, VDict(v.keys, v.items[..|v.items| - 1] + [dv]))
  {
    hide Rep, ValidMem, Snapshot, RepAll;
    var n := |v.items| - 1;
    Absorb(inner, frame.items[..n], v.items[..n], d, w, dv);
    assert frame.items[..n] + [d] == frame.items;
    TopRep(frame, inner + w, VDict(v.keys, v.items[..n] + [dv]));
  }

  lemma FramedIs(v: Value, localvar: string, item: (Value, Value))
    requires v.VDict? && |v.keys| == |v.items|
    ensures var r := Replaced(v, localvar, VNone);
      Framed(v, localvar, item) == VDict(r.keys, r.items[..|r.items| - 1] + [LoopVar(item)])
  {
  }

  lemma LastKey(frame: MObject, localvar: string, d: MObject, inner: set<MObject>, vl: Value)
    requires InFrame(frame, localvar, d, inner, vl)
    ensures frame.Valid() && frame.kind == DictKind && frame.items != [] && frame.items[|frame.items| - 1] == d
    ensures frame != d && d !in inner && d.Valid() && d.kind == DictKind && (d.keys == [] || d.keys == ["key", "value"])
    ensures Position(frame.keys, localvar) == Some(|frame.items| - 1)
  {
    var keys := frame.keys;
    assert keys[|keys| - 1] == localvar;
    PositionIs(keys, localvar, |keys| - 1);
  }

  /** The copied key and value, as the two entries of the loop variable. */
  method FillLoopVar(d: MObject, k: MObject, c: MObject)
    requires d.Valid() && d.kind == DictKind && (d.keys == [] || d.keys == ["key", "value"])
    modifies d
    ensures d.Valid() && d.keys == ["key", "value"] && d.items == [k, c]
  {
    KeysOf(d.Fields(), k, c);
    var _ := d.Replace("key", k);
    var _ := d.Replace("value", c);
  }

  /** The frame once its variable holds the key `k` and the value `c`. */
  lemma FrameEntered(frame: MObject, localvar: string, d: MObject, inner: set<MObject>, vl: Value, k: MObject,
                     kv: Value, c: MObject, sub: set<MObject>, cv: Value)
    requires InFrame(frame, localvar, d, inner, vl) && d.keys == ["key", "value"] && d.items == [k, c]
    requires Holds(k, kv) && k.items == [] && ItemsOf(kv) == [] && Standing(c, sub, cv)
    ensures Env(inner + (sub + {c} + {k} + {d}) + {frame}, frame, Framed(vl, localvar, (kv, cv)))
  {
    hide Rep, ValidMem, Snapshot, RepAll, Env, Standing, Framed, LoopVar, Replaced;
    LoopVarRep(d, k, kv, c, sub, cv);
    FrameRep(frame, d, inner, Replaced(vl, localvar, VNone), sub + {c} + {k} + {d}, LoopVar((kv, cv)));
    FramedIs(vl, localvar, (kv, cv));
  }

  /** do_loop, up to the run of the body: copies of the key and the value become the loop variable. */
  method EnterItem(frame: MObject, localvar: string, key: MObject, value: MObject, ghost kv: Value, ghost cv: Value,
                   ghost d: MObject, ghost inner: set<MObject>, ghost vl: Value, ghost w: set<MObject>)
    returns (ok: bool, ghost wf: set<MObject>)
    requires InFrame(frame, localvar, d, inner, vl) && d !in w
    requires Holds(key, kv) && key.items == [] && ItemsOf(kv) == [] && key != d && Rep(Snapshot(w), value, cv)
    modifies d
    ensures ok && Env(wf, frame, Framed(vl, localvar, (kv, cv)))
    ensures InFrame(frame, localvar, d, inner, vl)
  {
    hide Rep, ValidMem, Snapshot, RepAll, Env, Standing, Framed, Replaced, Position, FrameReady, Owned;
    LastKey(frame, localvar, d, inner, vl);
    var loopvar := frame.DictItem(localvar);
    if loopvar == null {
      return false, {};
    }
    ghost var sub;
    var k := new MObject(key.kind, key.num, key.str);
    var c;
    c, sub := Deepcopy.Deepcopy(value, w, cv);
    FillLoopVar(loopvar, k, c);
    FrameEntered(frame, localvar, d, inner, vl, k, kv, c, sub, cv);
    wf := inner + (sub + {c} + {k} + {d}) + {frame};
    ok := true;
  }

  lemma KeysOf(c: Cell, k: MObject, v: MObject)
    requires c.Valid() && c.kind == DictKind && (c.keys == [] || c.keys == ["key", "value"])
    ensures var c1 := c.Put(Name("key"), k, []);
      && c1.Valid() && c1.Put(Name("value"), v, []).keys == ["key", "value"]
      && c1.Put(Name("value"), v, []).items == [k, v]
  {
    if c.keys == ["key", "value"] {
      PositionIs(c.keys, "key", 0);
      PositionIs(["value", "key"], "value", 0);
    } else {
      assert Position(["key"], "value") == None;
    }
  }

  // ---------- mtemplate_run_nodes ----------

  lemma EnvShape(w: set<MObject>, o: MObject, v: Value)
    requires Env(w, o, v)
    ensures o in w && Holds(o, v) && |o.items| == |ItemsOf(v)| && (v.VDict? ==> |v.keys| == |v.items|)
    ensures v.VDict? || v.VArray? <==> o.kind == DictKind || o.kind == ArrayKind
    ensures LoopItems(v).Some? <==> v.VDict? || v.VArray?
    ensures forall i :: 0 <= i < |o.items| ==> Rep(Snapshot(w), o.items[i], ItemsOf(v)[i])
  {
    ItemRep(w, o, v);
  }

  /** The calls are those of the evaluator, up to the first one that stops the run. */
  method RunNodes(pool: seq<Pool.PNode>, list: seq<nat>, num: Strtol, ns: MObject?, local: MObject, sink: Sink,
                  ghost ts: seq<Node>, ghost wn: set<MObject>, ghost vn: Option<Value>, ghost wl: set<MObject>,
                  ghost vl: Value) returns (ok: bool)
    requires Lists(pool, list, ts) && EnvOf(wn, ns, vn) && Env(wl, local, vl) && vl.VDict?
    modifies sink
    ensures Emitted(sink.script, old(sink.calls), sink.calls, ok, EvalNodes(ts, num, vn, vl))
    decreases ts, 1
  {
    ListLength(pool, list, ts);
    hide Env, EvalNode, EvalNodes, Emitted, Progress, Lists, IsNode;
    var i := 0;
    ghost var calls, whole := sink.calls, EvalNodes(ts, num, vn, vl);
    assert ts[0..] == ts;
    Starts(sink.script, calls, whole);
    while i < |list|
      invariant 0 <= i <= |list| && Progress(sink.script, calls, sink.calls, whole, EvalNodes(ts[i..], num, vn, vl))
    {
      NextNode(ts, i, num, vn, vl);
      Listed(pool, list, ts, i);
      ghost var now := sink.calls;
      ok := RunNode(pool, list[i], num, ns, local, sink, ts[i], wn, vn, wl, vl);
      Advances(sink.script, calls, now, sink.calls, whole, EvalNode(ts[i], num, vn, vl),
               EvalNodes(ts[i + 1..], num, vn, vl), ok);
      if !ok {
        return;
      }
      i := i + 1;
    }
    NoNode(ts[i..], num, vn, vl);
    Ends(sink.script, calls, sink.calls, whole);
    ok := true;
  }

  lemma NextNode(ts: seq<Node>, i: nat, num: Strtol, ns: Option<Value>, local: Value)
    requires i < |ts|
    ensures EvalNodes(ts[i..], num, ns, local)
            == Followed(EvalNode(ts[i], num, ns, local), EvalNodes(ts[i + 1..], num, ns, local))
  {
    assert ts[i..][1..] == ts[i + 1..];
  }

  lemma NoNode(ts: seq<Node>, num: Strtol, ns: Option<Value>, local: Value)
    requires ts == []
    ensures EvalNodes(ts, num, ns, local) == NOTHING
  {
  }

  lemma FailedEmitted(script: nat -> int, calls: seq<Piece>)
    ensures Emitted(script, calls, calls, false, FAILED)
  {
  }

  method RunNode(pool: seq<Pool.PNode>, i: nat, num: Strtol, ns: MObject?, local: MObject, sink: Sink, ghost t: Node,
                 ghost wn: set<MObject>, ghost vn: Option<Value>, ghost wl: set<MObject>, ghost vl: Value)
    returns (ok: bool)
    requires IsNode(pool, i, t) && EnvOf(wn, ns, vn) && Env(wl, local, vl) && vl.VDict?
    modifies sink
    ensures Emitted(sink.script, old(sink.calls), sink.calls, ok, EvalNode(t, num, vn, vl))
    decreases t, 0
  {
    hide Env, Fetch, Emitted, EvalNodes, EvalLoop, Truth, Boolean, Render, Rendered, Lists, IsNode;
    NodeFields(pool, i, t);
    var n := pool[i];
    if n.kind.NText? {
      EmittedOne(sink.script, sink.calls, Plain(n.text));
      var r := sink.Call(Plain(n.text));
      return r != EOF;
    }
    FailedEmitted(sink.script, sink.calls);
    var o;
    ghost var w, v;
    o, w, v := FetchVar(n.text.value, num, ns, local, wn, vn, wl, vl);
    if o == null {
      return false;
    }
    EnvReads(w, o, v.value);
    if n.kind.NIf? {
      if Boolean(o) {
        ok := RunNodes(pool, n.children, num, ns, local, sink, t.thn, wn, vn, wl, vl);
      } else {
        ok := RunNodes(pool, n.childrenElse, num, ns, local, sink, t.els, wn, vn, wl, vl);
      }
    } else if n.kind.NFor? {
      if o.kind != ArrayKind && o.kind != DictKind {
        return false;
      }
      ok := RunFor(pool, n, o, num, ns, local, sink, t.body, w, v.value, wn, vn, wl, vl);
    } else {
      EmittedOne(sink.script, sink.calls, Render(o));
      var r := sink.Call(Render(o));
      ok := r == 0;
    }
  }

  /** mobject_as_boolean */
  function Boolean(o: MObject): bool
    reads o
  {
    match o.kind
    case NoneKind => false
    case StringKind => |o.str| > 0
    case IntKind => o.num != 0
    case ArrayKind => |o.items| > 0
    case DictKind => |o.items| > 0
  }

  /** render_mobject */
  function Render(o: MObject): (p: Piece)
    reads o
    ensures !p.Plain?
  {
    match o.kind
    case NoneKind => NoneText
    case StringKind => Str(UpToNul(o.str))
    case IntKind => Decimal(o.num)
    case ArrayKind => ArrayAt(|o.items|)
    case DictKind => DictAt
  }

  lemma EnvReads(w: set<MObject>, o: MObject, v: Value)
    requires Env(w, o, v)
    ensures Boolean(o) == Truth(v) && Render(o) == Rendered(v)
    ensures LoopItems(v).Some? <==> o.kind == ArrayKind || o.kind == DictKind
  {
    EnvShape(w, o, v);
  }

  method RunFor(pool: seq<Pool.PNode>, n: Pool.PNode, o: MObject, num: Strtol, ns: MObject?, local: MObject, sink: Sink,
                ghost body: seq<Node>, ghost wo: set<MObject>, ghost vo: Value, ghost wn: set<MObject>,
                ghost vn: Option<Value>, ghost wl: set<MObject>, ghost vl: Value) returns (ok: bool)
    requires Lists(pool, n.children, body) && EnvOf(wn, ns, vn) && Env(wl, local, vl) && vl.VDict? && Env(wo, o, vo)
    requires LoopItems(vo).Some?
    modifies sink
    ensures Emitted(sink.script, old(sink.calls), sink.calls, ok,
                    EvalLoop(n.localvar, body, LoopItems(vo).value, num, vn, vl))
    decreases body, 4
  {
    EnvShape(wl, local, vl);
    hide Env, EvalLoop, Emitted, Fetch, Rep, ValidMem, RepAll, Snapshot, Lists;
    var frame, d;
    ghost var inner;
    frame, d, inner := MakeFrame(local, n.localvar, wl, vl);
    ok := RunLoop(pool, n, o, num, ns, frame, sink, body, wo, vo, wn, vn, d, inner, vl);
  }

  method RunLoop(pool: seq<Pool.PNode>, n: Pool.PNode, o: MObject, num: Strtol, ns: MObject?, frame: MObject,
                 sink: Sink, ghost body: seq<Node>, ghost wo: set<MObject>, ghost vo: Value, ghost wn: set<MObject>,
                 ghost vn: Option<Value>, ghost d: MObject, ghost inner: set<MObject>, ghost vl: Value)
    returns (ok: bool)
    requires Lists(pool, n.children, body) && EnvOf(wn, ns, vn) && Env(wo, o, vo) && LoopItems(vo).Some?
    requires d !in wo && d !in wn && InFrame(frame, n.localvar, d, inner, vl)
    modifies sink, d
    ensures Emitted(sink.script, old(sink.calls), sink.calls, ok,
                    EvalLoop(n.localvar, body, LoopItems(vo).value, num, vn, vl))
    decreases body, 3
  {
    hide *;
    ghost var items := LoopItems(vo).value;
    LoopShape(wo, o, vo);
    assert items[0..] == items;
    var k := 0;
    ghost var calls, whole := sink.calls, EvalLoop(n.localvar, body, items, num, vn, vl);
    Starts(sink.script, calls, whole);
    while k < |o.items|
      invariant 0 <= k <= |o.items| == |items| && InFrame(frame, n.localvar, d, inner, vl)
      invariant Progress(sink.script, calls, sink.calls, whole, EvalLoop(n.localvar, body, items[k..], num, vn, vl))
      decreases |items| - k
    {
      NextItem(n.localvar, body, items, k, num, vn, vl);
      ghost var now := sink.calls;
      ok := DoLoop(pool, n, o, k, num, ns, frame, sink, body, wo, vo, wn, vn, d, inner, vl);
      Advances(sink.script, calls, now, sink.calls, whole, EvalNodes(body, num, vn, Framed(vl, n.localvar, items[k])),
               EvalLoop(n.localvar, body, items[k + 1..], num, vn, vl), ok);
      if !ok {
        return;
      }
      k := k + 1;
    }
    NoItem(n.localvar, body, items[k..], num, vn, vl);
    Ends(sink.script, calls, sink.calls, whole);
    ok := true;
  }

  lemma NextItem(localvar: string, body: seq<Node>, items: seq<(Value, Value)>, k: nat, num: Strtol, ns: Option<Value>,
                 local: Value)
    requires k < |items|
    ensures EvalLoop(localvar, body, items[k..], num, ns, local)
            == Followed(EvalNodes(body, num, ns, Framed(local, localvar, items[k])),
                        EvalLoop(localvar, body, items[k + 1..], num, ns, local))
  {
    assert items[k..][1..] == items[k + 1..];
  }

  lemma NoItem(localvar: string, body: seq<Node>, items: seq<(Value, Value)>, num: Strtol, ns: Option<Value>,
               local: Value)
    requires items == []
    ensures EvalLoop(localvar, body, items, num, ns, local) == NOTHING
  {
  }

  /** do_loop, on item `k` */
  method DoLoop(pool: seq<Pool.PNode>, n: Pool.PNode, o: MObject, k: nat, num: Strtol, ns: MObject?, frame: MObject,
                sink: Sink, ghost body: seq<Node>, ghost wo: set<MObject>, ghost vo: Value, ghost wn: set<MObject>,
                ghost vn: Option<Value>, ghost d: MObject, ghost inner: set<MObject>, ghost vl: Value)
    returns (ok: bool)
    requires Lists(pool, n.children, body) && EnvOf(wn, ns, vn) && Env(wo, o, vo) && LoopItems(vo).Some?
    requires d !in wo && d !in wn && k < |o.items| == |LoopItems(vo).value|
    requires InFrame(frame, n.localvar, d, inner, vl)
    modifies sink, d
    ensures Emitted(sink.script, old(sink.calls), sink.calls, ok,
                    EvalNodes(body, num, vn, Framed(vl, n.localvar, LoopItems(vo).value[k])))
    ensures InFrame(frame, n.localvar, d, inner, vl)
    decreases body, 2
  {
    hide *;
    ghost var item := LoopItems(vo).value[k];
    FramedDict(frame, n.localvar, d, inner, vl, item);
    LoopValue(wo, o, vo, k);
    var key := KeyOf(o, k, wo, vo);
    ghost var wf;
    ok, wf := EnterItem(frame, n.localvar, key, o.items[k], item.0, item.1, d, inner, vl, wo);
    ok := RunNodes(pool, n.children, num, ns, frame, sink, body, wn, vn, wf, Framed(vl, n.localvar, item));
  }

  lemma LoopShape(w: set<MObject>, o: MObject, v: Value)
    requires Env(w, o, v) && LoopItems(v).Some?
    ensures o in w && |o.items| == |LoopItems(v).value|
  {
    EnvShape(w, o, v);
  }

  lemma FramedDict(frame: MObject, localvar: string, d: MObject, inner: set<MObject>, vl: Value, item: (Value, Value))
    requires InFrame(frame, localvar, d, inner, vl)
    ensures Framed(vl, localvar, item).VDict?
  {
  }

  lemma LoopValue(w: set<MObject>, o: MObject, v: Value, n: nat)
    requires Env(w, o, v) && LoopItems(v).Some? && n < |LoopItems(v).value|
    ensures n < |o.items| && Rep(Snapshot(w), o.items[n], LoopItems(v).value[n].1)
  {
    EnvShape(w, o, v);
  }

  /** The iterator's key for item `n`: its index, or its key in the dictionary. */
  method KeyOf(o: MObject, n: nat, ghost w: set<MObject>, ghost v: Value) returns (key: MObject)
    requires Env(w, o, v) && LoopItems(v).Some? && n < |LoopItems(v).value|
    ensures fresh(key) && key.items == []
    ensures Holds(key, LoopItems(v).value[n].0) && ItemsOf(LoopItems(v).value[n].0) == []
  {
    EnvShape(w, o, v);
    hide Env, Rep, ValidMem, RepAll, Snapshot;
    if o.kind == ArrayKind {
      key := new MObject(IntKind, n, "");
    } else {
      key := new MObject(StringKind, 0, o.keys[n]);
    }
  }

  /** mtemplate_run_cb: the local namespace starts empty. */
  method Run(pool: seq<Pool.PNode>, num: Strtol, ns: MObject?, sink: Sink, ghost ts: seq<Node>, ghost wn: set<MObject>,
             ghost vn: Option<Value>) returns (ok: bool)
    requires pool != [] && Lists(pool, pool[0].children, ts) && EnvOf(wn, ns, vn)
    modifies sink
    ensures Emitted(sink.script, old(sink.calls), sink.calls, ok, EvalNodes(ts, num, vn, VDict([], [])))
  {
    hide EvalNodes, Emitted, Lists;
    var local := new MObject(DictKind, 0, "");
    assert Env({local}, local, VDict([], []));
    ok := RunNodes(pool, pool[0].children, num, ns, local, sink, ts, wn, vn, {local}, VDict([], []));
  }
}
