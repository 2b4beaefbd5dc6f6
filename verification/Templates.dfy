/** mtemplate.c: from the text of a template to its output. */
module Templates {
  import opened Options
  import opened TemplateTree
  import TemplateLexer
  import Pool = TemplatePool
  import opened TemplateNodes
  import opened TemplateParser
  import opened Objects
  import opened Locations
  import opened ObjectPaths
  import opened Values
  import opened TemplateEval
  import opened TemplateRun
  import opened TemplateLaws
  import opened TemplateRoundTrip

  lemma {:induction false} RootLists(nodes: seq<Pool.PNode>, ts: seq<Node>)
    requires Pool.Rep(nodes, Builder(ts, []))
    ensures nodes != [] && Lists(nodes, nodes[0].children, ts)
  {
    var b := Builder(ts, []);
    assert Pool.OpenAt(b.stack) == 0 && Pool.Start(b.stack) == 1;
    assert nodes[0].children == Pool.Places(1, ts) && Pool.RepNodes(nodes, 1, ts, 0);
  }

  /** mtemplate_parse and mtemplate_run_cb: a text that is a template makes the calls the evaluator
      prescribes for its tree, and any other text makes none. */
  method ParseAndRun(text: string, num: Strtol, ns: MObject?, sink: Sink, ghost wn: set<MObject>,
                     ghost vn: Option<Value>) returns (parsed: bool, ok: bool)
    requires EnvOf(wn, ns, vn)
    modifies sink
    ensures parsed <==> TemplateLexer.Parse(text).Some?
    ensures parsed ==> Emitted(sink.script, old(sink.calls), sink.calls, ok,
                               EvalNodes(TemplateLexer.Parse(text).value, num, vn, VDict([], [])))
    ensures !parsed ==> !ok && sink.calls == old(sink.calls)
  {
    hide EvalNodes, Emitted, Lists, EnvOf, TemplateLexer.Parse, Pool.Rep;
    var template := new Template();
    parsed := template.ParseText(text);
    ok := false;
    if parsed {
      ghost var ts := TemplateLexer.Parse(text).value;
      RootLists(template.nodes, ts);
      ok := Run(template.nodes, num, ns, sink, ts, wn, vn);
    }
  }

  // ---------- two templates in full ----------

  /** A text without braces. */
  predicate PlainText(s: string) {
    s != "" && '{' !in s
  }

  /** A name or reference that fits in a directive. */
  predicate Fitting(s: string) {
    s != "" && '}' !in s && '\n' !in s && ' ' !in s
  }

  lemma {:induction false} PlainOpens(s: string)
    requires '{' !in s
    ensures TemplateLexer.FindOpen(s) == |s|
  {
    if |s| >= 2 {
      PlainOpens(s[1..]);
    }
  }

  lemma {:induction false} LexOne(d: string, rest: string, tok: Token, toks: seq<Token>)
    requires '}' !in d && '\n' !in d && d != "" && TemplateLexer.LexDirective(d) == TemplateLexer.Directive(tok)
    requires TemplateLexer.Lex(rest) == Some(toks)
    ensures TemplateLexer.Lex("{{" + d + "}}" + rest) == Some([tok] + toks)
  {
    hide TemplateLexer.Lex, TemplateLexer.LexDirective;
    CloseAfter(d);
    LexClosed(d, rest);
  }

  lemma {:induction false} LexPlain(s: string, rest: string, toks: seq<Token>)
    requires PlainText(s) && (rest == "" || "{{" <= rest) && TemplateLexer.Lex(rest) == Some(toks)
    ensures TemplateLexer.Lex(s + rest) == Some([TText(s)] + toks)
  {
    hide TemplateLexer.Lex;
    PlainOpens(s);
    LexRawText(s, rest);
  }

  /** A condition with two branches. */
  lemma {:induction false} ParseIf(x: string, y: string, n: string)
    requires Fitting(x) && PlainText(y) && PlainText(n)
    ensures TemplateLexer.Parse("{{if " + x + "}}" + y + "{{else}}" + n + "{{endif}}")
            == Some([If(x, true, [Text(y)], [Text(n)])])
  {
    hide TemplateLexer.Lex, TemplateLexer.LexDirective, Build, Tokens, WellFormed;
    var s4 := "{{" + "endif" + "}}" + "";
    var s3 := n + s4;
    var s2 := "{{" + "else" + "}}" + s3;
    var s1 := y + s2;
    var s0 := "{{" + ("if " + x) + "}}" + s1;
    ReadText();
    ReadEnds();
    ReadIf(x);
    LexNothing();
    LexOne("endif", "", TEndif, []);
    assert [TEndif] + [] == [TEndif];
    LexPlain(n, s4, [TEndif]);
    LexOne("else", s3, TElse, [TText(n)] + [TEndif]);
    LexPlain(y, s2, [TElse] + ([TText(n)] + [TEndif]));
    LexOne("if " + x, s1, TIf(x), [TText(y)] + ([TElse] + ([TText(n)] + [TEndif])));
    assert s0 == "{{if " + x + "}}" + y + "{{else}}" + n + "{{endif}}";
    IfTokens(x, y, n);
    BuildTokens([If(x, true, [Text(y)], [Text(n)])]);
  }

  lemma LexNothing()
    ensures TemplateLexer.Lex("") == Some([])
  {
  }

  lemma IfTokens(x: string, y: string, n: string)
    ensures var ts := [If(x, true, [Text(y)], [Text(n)])];
      WellFormed(ts) && Tokens(ts) == [TIf(x)] + ([TText(y)] + ([TElse] + ([TText(n)] + [TEndif])))
  {
    OneToken(Text(y));
    OneToken(Text(n));
    OneToken(If(x, true, [Text(y)], [Text(n)]));
  }

  lemma OneToken(t: Node)
    ensures Tokens([t]) == NodeTokens(t) && (WellFormedNode(t) ==> WellFormed([t]))
  {
    assert [t][..0] == [];
  }

  /** A loop that puts out a part of each item. */
  lemma {:induction false} ParseLoop(v: string, e: string, part: string)
    requires Fitting(v) && Fitting(e) && (part == "key" || part == "value")
    ensures TemplateLexer.Parse("{{for " + v + " in " + e + "}}{{subst " + (v + "." + part) + "}}{{endfor}}")
            == Some([For(v, e, [Subst(v + "." + part)])])
  {
    hide TemplateLexer.Lex, TemplateLexer.LexDirective, Build, Tokens, WellFormed;
    var name := v + "." + part;
    LexLoop(v, e, name);
    LoopPrinted(v, e, v + "." + part);
    LoopTokens(v, e, name);
    BuildTokens([For(v, e, [Subst(name)])]);
  }

  lemma LoopPrinted(v: string, e: string, name: string)
    ensures "{{" + ("for " + (v + " in " + e)) + "}}"
            + ("{{" + ("subst " + name) + "}}" + ("{{" + "endfor" + "}}" + ""))
            == "{{for " + v + " in " + e + "}}{{subst " + name + "}}{{endfor}}"
  {
  }

  lemma {:induction false} LexLoop(v: string, e: string, name: string)
    requires Fitting(v) && Fitting(e) && name != "" && '}' !in name && '\n' !in name
    ensures TemplateLexer.Lex("{{" + ("for " + (v + " in " + e)) + "}}"
                              + ("{{" + ("subst " + name) + "}}" + ("{{" + "endfor" + "}}" + "")))
            == Some([TFor(v, e)] + ([TSubst(name)] + [TEndfor]))
  {
    hide TemplateLexer.Lex, TemplateLexer.LexDirective;
    ReadEnds();
    ReadSubst(name);
    NoInBefore(v, e);
    ReadFor(v, e);
    LexNothing();
    var s2 := "{{" + "endfor" + "}}" + "";
    LexOne("endfor", "", TEndfor, []);
    assert [TEndfor] + [] == [TEndfor];
    var s1 := "{{" + ("subst " + name) + "}}" + s2;
    LexOne("subst " + name, s2, TSubst(name), [TEndfor]);
    LexOne("for " + (v + " in " + e), s1, TFor(v, e), [TSubst(name)] + [TEndfor]);
  }

  lemma {:induction false} NoInBefore(v: string, e: string)
    requires ' ' !in v && ' ' !in e
    ensures TemplateLexer.FindIn(v + TemplateLexer.IN + e) == Some(|v|)
  {
    var x := v + TemplateLexer.IN + e;
    FindInFirst(x);
    assert x[|v|..|v| + 4] == " in ";
    assert InAt(x, |v|);
    forall i: nat | i < |v| ensures !InAt(x, i) {
      if i + 4 <= |x| {
        assert x[i..i + 4][0] == v[i];
      }
    }
  }

  lemma LoopTokens(v: string, e: string, name: string)
    ensures var ts := [For(v, e, [Subst(name)])];
      WellFormed(ts) && Tokens(ts) == [TFor(v, e)] + ([TSubst(name)] + [TEndfor])
  {
    OneToken(Subst(name));
    OneToken(For(v, e, [Subst(name)]));
  }

  /** The namespace has the entry. */
  ghost predicate Entry(ns: Value, name: string, v: Value) {
    && ns.VDict? && |ns.keys| == |ns.items| && Distinct(ns.keys)
    && exists i :: 0 <= i < |ns.keys| && ns.keys[i] == name && ns.items[i] == v
  }

  lemma {:induction false} EntryFetched(num: Strtol, ns: Value, name: string, v: Value)
    requires Simple(name) && Entry(ns, name, v)
    ensures Fetch(num, Some(ns), VDict([], []), name) == Some(v)
  {
    hide Fetch, ResolveValue;
    var i :| 0 <= i < |ns.keys| && ns.keys[i] == name && ns.items[i] == v;
    FetchName(num, Some(ns), VDict([], []), name);
    NoEntry(VDict([], []), name, []);
    ValueLeads(ns, i, []);
    ValueLeads(v, 0, []);
    assert [Name(name)] + [] == [Name(name)];
  }

  /** Parsing and running a condition with two texts: the first for a true value, the second for none, zero,
      and an empty string, array or dictionary. */
  method RunIf(x: string, y: string, n: string, num: Strtol, ns: MObject, sink: Sink, ghost wn: set<MObject>,
               ghost vn: Value, ghost v: Value) returns (parsed: bool, ok: bool)
    requires Simple(x) && Fitting(x) && PlainText(y) && PlainText(n) && Env(wn, ns, vn) && Entry(vn, x, v)
    modifies sink
    ensures var no := v == VNone || v == VInt(0) || v == VString("") || v == VArray([]) || (v.VDict? && v.items == []);
      && parsed && sink.calls == old(sink.calls) + [Plain(Some(if no then n else y))]
      && (ok <==> sink.script(|old(sink.calls)|) != -1)
  {
    hide EvalNodes, EvalNode, Fetch, Env, Emitted, TemplateLexer.Parse, Entry;
    ParseIf(x, y, n);
    EntryFetched(num, vn, x, v);
    ghost var local := VDict([], []);
    ghost var t := If(x, true, [Text(y)], [Text(n)]);
    IfLaw(x, true, [Text(y)], [Text(n)], num, Some(vn), local, v);
    TextLaw(y, num, Some(vn), local);
    TextLaw(n, num, Some(vn), local);
    SequenceLaw(t, [], num, Some(vn), local);
    assert [t] + [] == [t];
    ghost var calls := sink.calls;
    parsed, ok := ParseAndRun("{{if " + x + "}}" + y + "{{else}}" + n + "{{endif}}", num, ns, sink, wn, Some(vn));
    OneCall(sink.script, calls, sink.calls, ok, EvalNodes([t], num, Some(vn), local));
  }

  lemma {:induction false} OneCall(script: nat -> int, calls: seq<Piece>, calls': seq<Piece>, ok: bool, o: Outcome)
    requires Emitted(script, calls, calls', ok, o) && |o.out| == 1 && o.ok && o.out[0].Plain?
    ensures calls' == calls + o.out && (ok <==> script(|calls|) != -1)
  {
    hide Emitted;
    EmittedExactly(script, calls, calls', ok, o);
    assert o.out[..1] == o.out;
    assert StopsAt(script, |calls|, o.out, 0) <==> script(|calls|) == -1;
  }

  /** What a loop puts out for a part of each item: over an array the items, or the indices; over a dictionary
      the items, or the keys. */
  function LoopPieces(v: Value, part: string): seq<Piece>
    requires v.VArray? || (v.VDict? && |v.keys| == |v.items|)
  {
    seq(|v.items|, i requires 0 <= i < |v.items| && (v.VArray? || (v.VDict? && |v.keys| == |v.items|)) =>
          if part == "value" then Rendered(v.items[i])
          else if v.VArray? then Decimal(i)
          else Rendered(VString(v.keys[i])))
  }

  /** Parsing and running a loop that puts out a part of each item. */
  method RunLoopOver(v: string, e: string, part: string, num: Strtol, ns: MObject, sink: Sink, ghost wn: set<MObject>,
                     ghost vn: Value, ghost over: Value) returns (parsed: bool, ok: bool)
    requires Simple(v) && Fitting(v) && Simple(e) && Fitting(e) && (part == "key" || part == "value")
    requires Env(wn, ns, vn) && Entry(vn, e, over) && (over.VArray? || (over.VDict? && |over.keys| == |over.items|))
    modifies sink
    ensures parsed && Emitted(sink.script, old(sink.calls), sink.calls, ok, Outcome(LoopPieces(over, part), true))
  {
    hide EvalNodes, EvalNode, Fetch, Env, Emitted, TemplateLexer.Parse, Entry, Rendered;
    ParseLoop(v, e, part);
    EntryFetched(num, vn, e, over);
    ghost var local := VDict([], []);
    ghost var t := For(v, e, [Subst(v + "." + part)]);
    if over.VArray? {
      ArrayLoop(v, part, e, over.items, num, Some(vn), local);
    } else {
      DictLoop(v, part, e, over.keys, over.items, num, Some(vn), local);
    }
    assert EvalNode(t, num, Some(vn), local) == Outcome(LoopPieces(over, part), true);
    SequenceLaw(t, [], num, Some(vn), local);
    assert [t] + [] == [t] && LoopPieces(over, part) + [] == LoopPieces(over, part);
    parsed, ok := ParseAndRun("{{for " + v + " in " + e + "}}{{subst " + (v + "." + part) + "}}{{endfor}}", num, ns,
                              sink, wn, Some(vn));
  }
}
