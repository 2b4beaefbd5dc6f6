/** mnamespace.c: resolving a location, and setting an object at a location. */
module Namespace {
  import opened Options
  import opened Objects
  import opened ObjectPaths
  import opened Locations

  // ---------- mnamespace_lookup ----------

  ghost function Looked(m: Mem, num: Strtol, ns: MObject, location: string): Option<MObject>
    requires ValidMem(m)
  {
    var path := ParseLocation(num, location);
    if path.None? then None else Resolve(m, ns, path.value)
  }

  /** What is left to resolve from `o`. */
  ghost function Rest(m: Mem, o: MObject, path: Option<Path>): Option<MObject>
    requires ValidMem(m)
  {
    if path.None? then None else Resolve(m, o, path.value)
  }

  lemma RestThen(m: Mem, o: MObject, step: Step, path: Option<Path>)
    requires ValidMem(m)
    ensures Rest(m, o, Then(step, path)) == Onward(m, Child(m, o, step), path)
  {
    if path.Some? {
      assert ([step] + path.value)[1..] == path.value;
    }
  }

  ghost function Onward(m: Mem, o: Option<MObject>, path: Option<Path>): Option<MObject>
    requires ValidMem(m)
  {
    if o.None? then None else Rest(m, o.value, path)
  }

  lemma RestName(m: Mem, o: MObject, num: Strtol, s: string, l: nat)
    requires ValidMem(m) && l == Span(s, ".[")
    ensures Rest(m, o, ParseName(num, s))
            == if l == 0 || l >= MAX_ID then None else Onward(m, Child(m, o, Name(s[..l])), ParseTail(num, s[l..]))
  {
    if 0 < l < MAX_ID {
      RestThen(m, o, Name(s[..l]), ParseTail(num, s[l..]));
    }
  }

  lemma RestIndex(m: Mem, o: MObject, num: Strtol, s: string, l: nat)
    requires ValidMem(m) && l == Span(s, "]")
    ensures Rest(m, o, ParseIndex(num, s))
            == if l == |s| || !IndexOk(num, s[..l]) then None
               else Onward(m, Child(m, o, Index(num(s[..l]).value)), ParseTail(num, s[l + 1..]))
  {
    if l < |s| && IndexOk(num, s[..l]) {
      RestThen(m, o, Index(num(s[..l]).value), ParseTail(num, s[l + 1..]));
    }
  }

  lemma WrongKind(m: Mem, o: MObject, num: Strtol, s: string)
    requires ValidMem(m) && o in m
    ensures m[o].kind != DictKind ==> Rest(m, o, ParseName(num, s)) == None
    ensures m[o].kind != ArrayKind ==> Rest(m, o, ParseIndex(num, s)) == None
  {
    RestName(m, o, num, s, Span(s, ".["));
    RestIndex(m, o, num, s, Span(s, "]"));
  }

  method Lookup(ns: MObject, num: Strtol, location: string, ghost world: set<MObject>) returns (obj: MObject?)
    requires ns in world && ValidMem(Snapshot(world))
    ensures var r := Looked(Snapshot(world), num, ns, location);
      if r.None? || ns.kind != DictKind then obj == null else obj == r.value
  {
    if ns.kind != DictKind || location == "" {
      return null;
    }
    assert location[0..] == location;
    obj := LookupFrom(ns, num, location, world);
  }

  method LookupFrom(ns: MObject, num: Strtol, location: string, ghost world: set<MObject>) returns (obj: MObject?)
    requires ns in world && ValidMem(Snapshot(world))
    ensures var r := Rest(Snapshot(world), ns, ParseName(num, location[0..]));
      if r.None? then obj == null else obj == r.value
  {
    hide ParseName, ParseTail, ParseIndex, ValidMem, Rest;
    ghost var m := Snapshot(world);
    var current, o: nat := ns, 0;
    while true
      invariant o <= |location| && current in world
      invariant Rest(m, ns, ParseName(num, location[0..])) == Rest(m, current, ParseName(num, location[o..]))
      decreases |location| - o
    {
      obj, o := NextName(current, num, location, o, world);
      if obj == null {
        return null;
      }
      var ok;
      ok, obj, o := Indices(obj, num, location, o, world);
      if !ok {
        return null;
      }
      TailEnds(m, obj, num, location[o..]);
      if o == |location| {
        return obj;
      }
      assert location[o..][1..] == location[o + 1..];
      WrongKind(m, obj, num, location[o + 1..]);
      if location[o] != '.' || obj.kind != DictKind {
        return null;
      }
      current, o := obj, o + 1;
    }
    return null;
  }

  /** The name at offset `at`, and the entry it names. */
  method NextName(current: MObject, num: Strtol, location: string, at: nat, ghost world: set<MObject>)
    returns (obj: MObject?, o: nat)
    requires current in world && ValidMem(Snapshot(world)) && at <= |location|
    ensures obj == null ==> Rest(Snapshot(world), current, ParseName(num, location[at..])) == None
    ensures obj != null ==> at < o <= |location| && obj in world
    ensures obj != null ==> Rest(Snapshot(world), current, ParseName(num, location[at..]))
                            == Rest(Snapshot(world), obj, ParseTail(num, location[o..]))
  {
    hide ParseName, ParseTail, Rest, ValidMem, Snapshot, Child;
    var l, name := ReadName(location, at);
    o := at + l;
    RestName(Snapshot(world), current, num, location[at..], l);
    if l == 0 || l >= MAX_ID {
      return null, at;
    }
    assert location[at..][l..] == location[o..];
    obj := ItemOf(current, name, world);
  }

  method ItemOf(o: MObject, name: string, ghost world: set<MObject>) returns (r: MObject?)
    requires o in world && ValidMem(Snapshot(world))
    ensures var c := Child(Snapshot(world), o, Name(name));
      if c.None? then r == null else r == c.value && r in world
  {
    ghost var m := Snapshot(world);
    assert m[o].Valid() && m[o] == o.Fields();
    r := o.DictItem(name);
    assert r != null ==> r in m[o].items;
  }

  /** The bracketed indices at offset `at`. */
  method Indices(from: MObject, num: Strtol, location: string, at: nat, ghost world: set<MObject>)
    returns (ok: bool, obj: MObject, o: nat)
    requires from in world && ValidMem(Snapshot(world)) && at <= |location|
    ensures ok ==> at <= o <= |location| && obj in world && (o < |location| ==> location[o] != '[')
    ensures ok ==> Rest(Snapshot(world), from, ParseTail(num, location[at..]))
                   == Rest(Snapshot(world), obj, ParseTail(num, location[o..]))
    ensures !ok ==> Rest(Snapshot(world), from, ParseTail(num, location[at..])) == None
  {
    obj, o := from, at;
    hide ParseTail, Rest, ValidMem, Snapshot;
    while o < |location| && location[o] == '['
      invariant at <= o <= |location| && obj in world
      invariant Rest(Snapshot(world), from, ParseTail(num, location[at..]))
                == Rest(Snapshot(world), obj, ParseTail(num, location[o..]))
      decreases |location| - o
    {
      var next;
      next, o := NextIndex(obj, num, location, o, world);
      if next == null {
        return false, obj, o;
      }
      obj := next;
    }
    ok := true;
  }

  /** The index in brackets at offset `at`, and the item it names. */
  method NextIndex(current: MObject, num: Strtol, location: string, at: nat, ghost world: set<MObject>)
    returns (obj: MObject?, o: nat)
    requires current in world && ValidMem(Snapshot(world)) && at < |location| && location[at] == '['
    ensures obj == null ==> Rest(Snapshot(world), current, ParseTail(num, location[at..])) == None
    ensures obj != null ==> at < o <= |location| && obj in world
    ensures obj != null ==> Rest(Snapshot(world), current, ParseTail(num, location[at..]))
                            == Rest(Snapshot(world), obj, ParseTail(num, location[o..]))
  {
    hide ParseTail, Rest, ValidMem, Span;
    IndexLeads(Snapshot(world), current, num, location, at, Span(location[at + 1..], "]"));
    o := at;
    if current.kind != ArrayKind {
      return null, at;
    }
    var ndx, skip := ArrayNdx(num, location, at + 1);
    if ndx.None? || ndx.value >= |current.items| {
      return null, at;
    }
    obj, o := current.items[ndx.value], at + 1 + skip;
  }

  lemma IndexLeads(m: Mem, o: MObject, num: Strtol, location: string, at: nat, l: nat)
    requires ValidMem(m) && o in m && at < |location| && location[at] == '[' && l == Span(location[at + 1..], "]")
    ensures var s := location[at + 1..];
      if l == |s| || !IndexOk(num, s[..l]) || m[o].kind != ArrayKind || num(s[..l]).value >= |m[o].items|
      then Rest(m, o, ParseTail(num, location[at..])) == None
      else
        var c := m[o].items[num(s[..l]).value];
        c in m && Rest(m, o, ParseTail(num, location[at..])) == Rest(m, c, ParseTail(num, location[at + 1 + l + 1..]))
  {
    var s := location[at + 1..];
    assert location[at..][1..] == s;
    WrongKind(m, o, num, s);
    RestIndex(m, o, num, s, l);
    if l < |s| {
      assert s[l + 1..] == location[at + 1 + l + 1..];
    }
    assert m[o].Valid();
    hide ParseName, ParseIndex, Rest, ValidMem, Span;
  }

  lemma Unfolded(m: Mem, o: MObject)
    requires ValidMem(m) && o in m
    ensures m[o].Valid()
  {
  }

  lemma TailEnds(m: Mem, o: MObject, num: Strtol, s: string)
    requires ValidMem(m) && (s != "" ==> s[0] != '[')
    ensures Rest(m, o, ParseTail(num, s))
            == if s == "" then Some(o) else if s[0] == '.' then Rest(m, o, ParseName(num, s[1..])) else None
  {
  }
}
