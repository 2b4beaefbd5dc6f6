/** mtemplate.c: what templates put out, directive by directive. */
module TemplateLaws {
  import opened Options
  import opened TemplateTree
  import opened Objects
  import opened ObjectPaths
  import opened Locations
  import opened LocationPrint
  import opened Values
  import opened TemplateEval

  // ---------- which object a reference means ----------

  /** The loop variables come first, and then the namespace of the caller. */
  lemma {:induction false} FetchLaw(num: Strtol, ns: Option<Value>, local: Value, path: Path, texts: seq<string>)
    requires path != [] && path[0].Name? && AllWritable(num, path, texts)
    ensures Fetch(num, ns, local, PrintPath(path, texts)) ==
            if local.VDict? && ResolveValue(local, path).Some? then ResolveValue(local, path)
            else if ns.Some? && ns.value.VDict? then ResolveValue(ns.value, path)
            else None
  {
    PrintIsRead(num, path, texts);
  }

  /** A text that is no location means nothing. */
  lemma {:induction false} NoLocation(num: Strtol, ns: Option<Value>, local: Value, name: string)
    requires forall p: Path, texts ::
               p != [] && p[0].Name? && AllWritable(num, p, texts) ==> PrintPath(p, texts) != name
    ensures Fetch(num, ns, local, name) == None
  {
    if ParseLocation(num, name).Some? {
      AcceptsExactlyPrints(num, name, ParseLocation(num, name).value);
    }
  }

  /** The entry with the key, or the item at the index. */
  lemma {:induction false} ValueLeads(v: Value, i: nat, rest: Path)
    ensures ResolveValue(v, []) == Some(v)
    ensures v.VDict? && Distinct(v.keys) && |v.keys| == |v.items| && i < |v.keys| ==>
              ResolveValue(v, [Name(v.keys[i])] + rest) == ResolveValue(v.items[i], rest)
    ensures v.VArray? && i < |v.items| ==> ResolveValue(v, [Index(i)] + rest) == ResolveValue(v.items[i], rest)
  {
    assert forall step: Step :: ([step] + rest)[0] == step && ([step] + rest)[1..] == rest;
    if v.VDict? && Distinct(v.keys) && |v.keys| == |v.items| && i < |v.keys| {
      KeyAt(v.keys, v.keys[i], i);
    }
  }

  lemma {:induction false} NoEntry(v: Value, name: string, rest: Path)
    requires v.VDict? && name !in v.keys
    ensures ResolveValue(v, [Name(name)] + rest) == None
  {
    assert ([Name(name)] + rest)[0] == Name(name);
  }

  /** A simple name. */
  ghost predicate Simple(name: string) {
    1 <= |name| <= 255 && '.' !in name && '[' !in name
  }

  lemma {:induction false} FetchName(num: Strtol, ns: Option<Value>, local: Value, name: string)
    requires Simple(name)
    ensures Fetch(num, ns, local, name) ==
            if local.VDict? && ResolveValue(local, [Name(name)]).Some? then ResolveValue(local, [Name(name)])
            else if ns.Some? && ns.value.VDict? then ResolveValue(ns.value, [Name(name)])
            else None
  {
    FetchLaw(num, ns, local, [Name(name)], [""]);
    assert PrintPath([Name(name)], [""]) == name;
  }

  // ---------- directives ----------

  /** A failure ends the run; otherwise one node's output follows another's. */
  lemma {:induction false} SequenceLaw(t: Node, ts: seq<Node>, num: Strtol, ns: Option<Value>, local: Value)
    ensures var (a, b) := (EvalNode(t, num, ns, local), EvalNodes(ts, num, ns, local));
      EvalNodes([t] + ts, num, ns, local) == if a.ok then Outcome(a.out + b.out, b.ok) else Outcome(a.out, false)
    ensures EvalNodes([], num, ns, local) == Outcome([], true)
  {
    assert ([t] + ts)[0] == t && ([t] + ts)[1..] == ts;
  }

  /** Texts stand for themselves. */
  lemma {:induction false} TextLaw(s: string, num: Strtol, ns: Option<Value>, local: Value)
    ensures EvalNode(Text(s), num, ns, local) == Outcome([Plain(Some(s))], true)
    ensures EvalNodes([Text(s)], num, ns, local) == Outcome([Plain(Some(s))], true)
  {
    SequenceLaw(Text(s), [], num, ns, local);
    assert [Text(s)] + [] == [Text(s)];
  }

  /** Everything but none, zero, and an empty string, array or dictionary takes the first branch. */
  lemma {:induction false} IfLaw(cond: string, hasElse: bool, thn: seq<Node>, els: seq<Node>, num: Strtol,
                                 ns: Option<Value>, local: Value, v: Value)
    requires Fetch(num, ns, local, cond) == Some(v)
    ensures EvalNode(If(cond, hasElse, thn, els), num, ns, local) ==
            if v == VNone || v == VInt(0) || v == VString("") || v == VArray([]) || (v.VDict? && v.items == [])
            then EvalNodes(els, num, ns, local) else EvalNodes(thn, num, ns, local)
  {
    hide EvalNodes, Fetch;
  }

  /** A reference to nothing ends the run without output. */
  lemma {:induction false} MissingLaw(name: string, t: Node, num: Strtol, ns: Option<Value>, local: Value)
    requires Fetch(num, ns, local, name) == None
    requires t == Subst(name) || (t.If? && t.cond == name) || (t.For? && t.expr == name)
    ensures EvalNode(t, num, ns, local) == Outcome([], false)
  {
    hide EvalNodes, EvalLoop, Fetch;
  }

  /** Numbers in decimal, strings up to a NUL character, containers by what they are. */
  lemma {:induction false} RenderLaw(v: Value)
    ensures v == VNone ==> Rendered(v) == NoneText
    ensures v.VInt? ==> Rendered(v) == Decimal(v.num)
    ensures v.VString? && '\0' !in v.str ==> Rendered(v) == Str(v.str)
    ensures v.VString? ==> Rendered(v).Str? && '\0' !in Rendered(v).text && Rendered(v).text <= v.str
                           && (Rendered(v).text == v.str || v.str[|Rendered(v).text|] == '\0')
    ensures v.VArray? ==> Rendered(v) == ArrayAt(|v.items|)
    ensures v.VDict? ==> Rendered(v) == DictAt
  {
    if v.VString? {
      var k := Span(v.str, "\0");
      assert forall c: char :: c in "\0" <==> c == '\0';
      assert v.str[..k] <= v.str;
    }
  }

  lemma {:induction false} SubstLaw(name: string, num: Strtol, ns: Option<Value>, local: Value, v: Value)
    requires Fetch(num, ns, local, name) == Some(v)
    ensures EvalNode(Subst(name), num, ns, local) == Outcome([Rendered(v)], true)
    ensures EvalNodes([Subst(name)], num, ns, local) == Outcome([Rendered(v)], true)
  {
    hide Fetch, Rendered;
    SequenceLaw(Subst(name), [], num, ns, local);
    assert [Subst(name)] + [] == [Subst(name)];
  }

  // ---------- loops ----------

  /** Only arrays and dictionaries can be gone through. */
  lemma {:induction false} ForLaw(localvar: string, e: string, body: seq<Node>, num: Strtol, ns: Option<Value>,
                                  local: Value, v: Value)
    requires Fetch(num, ns, local, e) == Some(v)
    ensures v.VNone? || v.VInt? || v.VString? ==> EvalNode(For(localvar, e, body), num, ns, local) == Outcome([], false)
    ensures v.VArray? ==>
              EvalNode(For(localvar, e, body), num, ns, local)
              == EvalLoop(localvar, body, seq(|v.items|, i requires 0 <= i < |v.items| => (VInt(i), v.items[i])),
                          num, ns, local)
    ensures v.VDict? && |v.keys| == |v.items| ==>
              EvalNode(For(localvar, e, body), num, ns, local)
              == EvalLoop(localvar, body,
                          seq(|v.items|, i requires 0 <= i < |v.items| == |v.keys| => (VString(v.keys[i]), v.items[i])),
                          num, ns, local)
  {
    hide EvalLoop, Fetch;
  }

  /** Inside the loop, `value` and `key` of the variable are the item and its key. */
  lemma {:induction false} LoopFetch(localvar: string, part: string, item: (Value, Value), num: Strtol,
                                     ns: Option<Value>, local: Value)
    requires Simple(localvar) && local.VDict? && |local.keys| == |local.items| && Distinct(local.keys)
    requires part == "key" || part == "value"
    ensures Fetch(num, ns, Framed(local, localvar, item), localvar + "." + part)
            == Some(if part == "key" then item.0 else item.1)
  {
    hide Framed, LoopVar, ResolveValue, Fetch, PrintSteps, Distinct;
    var path: Path := [Name(localvar), Name(part)];
    assert path[1..] == [Name(part)];
    LoopVarShadows(local, localvar, item, path);
    LoopVarParts(item, part);
    FramedIsDict(local, localvar, item);
    PartPrinted(localvar, part);
    assert Writable(num, path[0], "") && Writable(num, path[1], "");
    FetchLaw(num, ns, Framed(local, localvar, item), path, ["", ""]);
  }

  lemma PartPrinted(localvar: string, part: string)
    requires part == "key" || part == "value"
    ensures PrintPath([Name(localvar), Name(part)], ["", ""]) == localvar + "." + part
    ensures 1 <= |part| <= 255 && '.' !in part && '[' !in part
  {
    assert PrintSteps([Name(part)], [""]) == "." + part;
  }

  lemma FramedIsDict(local: Value, localvar: string, item: (Value, Value))
    requires local.VDict? && |local.keys| == |local.items|
    ensures Framed(local, localvar, item).VDict?
  {
  }

  lemma LoopVarParts(item: (Value, Value), part: string)
    requires part == "key" || part == "value"
    ensures ResolveValue(LoopVar(item), [Name(part)]) == Some(if part == "key" then item.0 else item.1)
  {
    var i := if part == "key" then 0 else 1;
    var v := LoopVar(item);
    assert v.keys[i] == part && v.items[i] == if part == "key" then item.0 else item.1;
    assert "key" != "value" by { assert |"key"| != |"value"|; }
    ValueLeads(v, i, []);
    assert [Name(part)] + [] == [Name(part)];
  }

  /** A body that substitutes the value, or the key, of each item puts them out in their order. */
  lemma {:induction false} LoopPutsOut(localvar: string, part: string, items: seq<(Value, Value)>, num: Strtol,
                                       ns: Option<Value>, local: Value)
    requires Simple(localvar) && local.VDict? && |local.keys| == |local.items| && Distinct(local.keys)
    requires part == "key" || part == "value"
    ensures EvalLoop(localvar, [Subst(localvar + "." + part)], items, num, ns, local)
            == Outcome(seq(|items|, i requires 0 <= i < |items| =>
                                      Rendered(if part == "key" then items[i].0 else items[i].1)), true)
    decreases |items|
  {
    hide Rendered, Framed, EvalNodes, Fetch;
    var body := [Subst(localvar + "." + part)];
    if items != [] {
      var item := items[0];
      LoopFetch(localvar, part, item, num, ns, local);
      SubstLaw(localvar + "." + part, num, ns, Framed(local, localvar, item), if part == "key" then item.0 else item.1);
      LoopPutsOut(localvar, part, items[1..], num, ns, local);
    }
  }

  /** Over an array: the items by index, or the indices. */
  lemma {:induction false} ArrayLoop(localvar: string, part: string, e: string, vs: seq<Value>, num: Strtol,
                                     ns: Option<Value>, local: Value)
    requires Simple(localvar) && local.VDict? && |local.keys| == |local.items| && Distinct(local.keys)
    requires part == "key" || part == "value"
    requires Fetch(num, ns, local, e) == Some(VArray(vs))
    ensures EvalNode(For(localvar, e, [Subst(localvar + "." + part)]), num, ns, local)
            == Outcome(seq(|vs|, i requires 0 <= i < |vs| =>
                                   if part == "key" then Decimal(i) else Rendered(vs[i])), true)
  {
    hide EvalLoop, EvalNode, Fetch;
    var items := seq(|vs|, i requires 0 <= i < |vs| => (VInt(i), vs[i]));
    ForLaw(localvar, e, [Subst(localvar + "." + part)], num, ns, local, VArray(vs));
    LoopPutsOut(localvar, part, items, num, ns, local);
  }

  /** Over a dictionary: the items, or the keys, in the order of the entries. */
  lemma {:induction false} DictLoop(localvar: string, part: string, e: string, keys: seq<string>, vs: seq<Value>,
                                    num: Strtol, ns: Option<Value>, local: Value)
    requires Simple(localvar) && local.VDict? && |local.keys| == |local.items| && Distinct(local.keys)
    requires (part == "key" || part == "value") && |keys| == |vs|
    requires Fetch(num, ns, local, e) == Some(VDict(keys, vs))
    ensures EvalNode(For(localvar, e, [Subst(localvar + "." + part)]), num, ns, local)
            == Outcome(seq(|vs|, i requires 0 <= i < |vs| == |keys| =>
                                   if part == "key" then Rendered(VString(keys[i])) else Rendered(vs[i])), true)
  {
    hide EvalLoop, EvalNode, Fetch, Rendered;
    var items := seq(|vs|, i requires 0 <= i < |vs| == |keys| => (VString(keys[i]), vs[i]));
    ForLaw(localvar, e, [Subst(localvar + "." + part)], num, ns, local, VDict(keys, vs));
    LoopPutsOut(localvar, part, items, num, ns, local);
  }
}
