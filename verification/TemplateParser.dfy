/** mtemplate.c, mtemplate_parse: one scan over the text that grows the node pool in place. */
module TemplateParser {
  import opened Options
  import opened TemplateTree
  import opened TemplateLexer
  import opened TemplatePool
  import opened TemplateLayout

  // ---------- what is left to do, as a function of the rest of the text ----------

  ghost function Finished(b: Builder): Option<seq<Node>> {
    if b.stack == [] then Some(b.cur) else None
  }

  /** The outcome of parsing the text `s` with the blocks of `b` open. */
  ghost function ParseRest(b: Builder, s: string): Option<seq<Node>> {
    if Lex(s).None? || FedAll(b, Lex(s).value).None? then None else Finished(FedAll(b, Lex(s).value).value)
  }

  ghost function WithText(b: Builder, s: string): Builder {
    if s == "" then b else Add(b, Text(s))
  }

  lemma {:induction false} FedPrefixed(b: Builder, s: string, toks: seq<Token>)
    ensures FedAll(b, Prefixed(s, Some(toks)).value) == FedAll(WithText(b, s), toks)
  {
    if s != "" {
      FedAllJoin(b, [TText(s)], toks);
      FedOne(b, TText(s));
    }
  }

  /** The last text. */
  lemma {:induction false} RestEnd(b: Builder, s: string)
    requires FindOpen(s) == |s|
    ensures ParseRest(b, s) == Finished(WithText(b, s))
  {
    FedPrefixed(b, s, []);
  }

  ghost function AfterDirective(b: Builder, lexed: Lexed): Option<Builder>
  {
    match lexed
    case Bad => None
    case Comment => Some(b)
    case Directive(tok) => Fed(b, tok)
  }

  lemma {:induction false} FedJoined(b: Builder, lexed: Lexed, toks: seq<Token>)
    requires lexed != Bad
    ensures FedAll(b, Joined(lexed, Some(toks)).value)
            == if AfterDirective(b, lexed).None? then None else FedAll(AfterDirective(b, lexed).value, toks)
  {
    if lexed.Directive? {
      FedAllJoin(b, [lexed.token], toks);
      FedOne(b, lexed.token);
    }
  }

  lemma {:induction false} RestStop(b: Builder, s: string, k: nat, d: Option<string>)
    requires k == FindOpen(s) < |s| && Body(s[k..]) == d && (d.None? || !LegalBody(d.value))
    ensures ParseRest(b, s) == None
  {
    LexStop(s, k, d);
  }

  /** One text and one directive. */
  lemma {:induction false} RestStep(b: Builder, s: string, k: nat, d: string)
    requires k == FindOpen(s) < |s| && Body(s[k..]) == Some(d) && LegalBody(d)
    ensures k + 2 + |d| + 2 <= |s| && d != ""
    ensures var b' := AfterDirective(WithText(b, s[..k]), LexDirective(d));
      ParseRest(b, s) == if b'.None? then None else ParseRest(b'.value, s[k + 2 + |d| + 2..])
  {
    hide Lex, LexDirective, LegalBody, FindOpen, Body, Fed, FedAll, AfterDirective, WithText;
    LexStep(s, k, d);
    assert d != "";
    var lexed := LexDirective(d);
    var rest := Lex(s[k + 2 + |d| + 2..]);
    if rest.Some? {
      FedPrefixed(b, s[..k], Joined(lexed, rest).value);
      FedJoined(WithText(b, s[..k]), lexed, rest.value);
    }
  }

  lemma {:induction false} StartIsParse(s: string)
    ensures ParseRest(START, s) == Parse(s)
  {
  }

  /** Characters other than an opening brace cannot start a directive. */
  lemma {:induction false} SkipPlain(s: string, k: nat)
    requires k <= |s| && forall i :: 0 <= i < k ==> s[i] != '{'
    ensures FindOpen(s) == k + FindOpen(s[k..])
  {
    if k > 0 {
      SkipPlain(s[1..], k - 1);
      assert s[1..][k - 1..] == s[k..];
    }
  }

  /** Nothing opens a directive between offset `o` and offset `o + p`. */
  ghost predicate Scanned(text: string, o: nat, p: nat) {
    o + p <= |text| && FindOpen(text[o..]) == p + FindOpen(text[o + p..])
  }

  lemma {:induction false} SkipTo(text: string, o: nat, p: nat, start: nat)
    requires Scanned(text, o, p) && o + p <= start <= |text|
    requires forall i :: o + p <= i < start ==> text[i] != '{'
    ensures Scanned(text, o, start - o)
  {
    SkipPlain(text[o + p..], start - o - p);
    assert text[o + p..][start - o - p..] == text[start..];
  }

  lemma {:induction false} SkipOne(text: string, o: nat, start: nat)
    requires o <= start < |text| && Scanned(text, o, start - o)
    requires text[start] == '\n' || start + 1 == |text| || text[start + 1] != '{'
    ensures Scanned(text, o, start + 1 - o)
  {
    assert text[start..][1..] == text[start + 1..];
  }

  lemma {:induction false} OpensAt(text: string, o: nat, start: nat)
    requires o <= start < |text| - 1 && Scanned(text, o, start - o) && text[start] == '{' && text[start + 1] == '{'
    ensures FindOpen(text[o..]) == start - o && text[o..][start - o..] == text[start..]
    ensures text[start..][2..] == text[start + 2..] && text[o..][..start - o] == text[o..start]
  {
  }

  lemma {:induction false} Rejected(b: Builder, s: string, k: nat, d: string)
    requires k == FindOpen(s) < |s| && Body(s[k..]) == Some(d) && d != "" && '\n' !in d
    requires AfterDirective(WithText(b, s[..k]), LexDirective(d)).None?
    ensures ParseRest(b, s) == None
  {
    if LexDirective(d) == Bad {
      RestStop(b, s, k, Some(d));
    } else {
      RestStep(b, s, k, d);
    }
  }

  lemma {:induction false} Accepted(b: Builder, text: string, o: nat, start: nat, d: string)
    requires o <= start < |text| && start - o == FindOpen(text[o..]) < |text[o..]| && d != "" && '\n' !in d
    requires Body(text[start..]) == Some(d) && AfterDirective(WithText(b, text[o..start]), LexDirective(d)).Some?
    ensures start + 2 + |d| + 2 <= |text|
    ensures ParseRest(b, text[o..])
            == ParseRest(AfterDirective(WithText(b, text[o..start]), LexDirective(d)).value,
                         text[start + 2 + |d| + 2..])
  {
    hide Lex, LexDirective, FindOpen, Body, Fed, WithText, ParseRest;
    assert text[o..][start - o..] == text[start..] && text[o..][..start - o] == text[o..start];
    RestStep(b, text[o..], start - o, d);
    assert text[o..][start - o + 2 + |d| + 2..] == text[start + 2 + |d| + 2..];
  }

  /** strpbrk(text + from, "\n{") */
  method NextStop(text: string, from: nat) returns (k: nat)
    requires from <= |text|
    ensures from <= k <= |text| && (k < |text| ==> text[k] == '\n' || text[k] == '{')
    ensures forall i :: from <= i < k ==> text[i] != '\n' && text[i] != '{'
  {
    k := from;
    while k < |text| && text[k] != '\n' && text[k] != '{'
      invariant from <= k <= |text| && forall i :: from <= i < k ==> text[i] != '\n' && text[i] != '{'
    {
      k := k + 1;
    }
  }

  /** parse_for, on an expression: the loop variable and the reference. */
  method SplitFor(expr: string) returns (r: Option<(string, string)>)
    ensures r.None? ==> ParseFor(expr) == Bad
    ensures r.Some? ==> ParseFor(expr) == Directive(TFor(r.value.0, r.value.1))
  {
    var k := FindIn(expr);
    if k.None? || ' ' in expr[k.value + 4..] {
      return None;
    }
    r := Some((expr[..k.value], expr[k.value + 4..]));
  }

  /** What the three directives that end a list need, and do. */
  lemma {:induction false} FedEnds(b: Builder)
    ensures Fed(b, TElse).Some? <==> b.stack != [] && Top(b).InIf?
    ensures Fed(b, TEndif) == if b.stack != [] && !Top(b).InFor? then Some(Close(b, BlockTree(b))) else None
    ensures Fed(b, TEndfor) == if b.stack != [] && Top(b).InFor? then Some(Close(b, BlockTree(b))) else None
  {
  }

  class Template {
    /** The nodes allocated so far; the root is at place 0. */
    var nodes: seq<PNode>
    var parent: nat
    var inElse: bool

    /** The variables `parent` and `activep` of the parser name the innermost list being filled. */
    ghost predicate Holds(b: Builder)
      reads this
    {
      Rep(nodes, b) && parent == OpenAt(b.stack) && inElse == nodes[parent].inElse
    }

    constructor ()
      ensures Holds(START)
    {
      nodes := [PNode(NRoot, None, "", false, [], [], 0)];
      parent := 0;
      inElse := false;
    }

    /** alloc_node, and TAILQ_INSERT_TAIL(activep) */
    method Insert(n: PNode) returns (place: nat)
      requires parent < |nodes| && inElse == nodes[parent].inElse
      modifies `nodes
      ensures place == |old(nodes)| && nodes == Linked(old(nodes), parent, n)
    {
      place := |nodes|;
      nodes := nodes + [n];
      if inElse {
        nodes := nodes[parent := nodes[parent].(childrenElse := nodes[parent].childrenElse + [place])];
      } else {
        nodes := nodes[parent := nodes[parent].(children := nodes[parent].children + [place])];
      }
    }

    method InsertLeaf(ghost b: Builder, kind: NodeType, text: Option<string>, ghost t: Node)
      requires Holds(b)
      requires (t.Text? && kind == NText && text == Some(t.text)) || (t.NullText? && kind == NText && text == None)
               || (t.Subst? && kind == NSubst && text == Some(t.name))
      modifies `nodes
      ensures Holds(Add(b, t))
    {
      var n := PNode(kind, text, "", false, [], [], parent);
      var _ := Insert(n);
      AppendLeaf(old(nodes), b, t, n);
    }

    method InsertBlock(ghost b: Builder, kind: NodeType, text: string, localvar: string, ghost f: Frame)
      requires Holds(b) && f.before == b.cur
      requires (f.InIf? && kind == NIf && f.cond == text && localvar == "")
               || (f.InFor? && kind == NFor && f.expr == text && f.localvar == localvar)
      modifies this
      ensures Holds(Open(b, f))
    {
      var n := PNode(kind, Some(text), localvar, false, [], [], parent);
      var place := Insert(n);
      OpenBlock(old(nodes), b, f, n);
      parent := place;
      inElse := false;
    }

    method EnterElse(ghost b: Builder)
      requires Holds(b) && Fed(b, TElse).Some?
      modifies this
      ensures Holds(Fed(b, TElse).value)
    {
      nodes := nodes[parent := nodes[parent].(inElse := true)];
      inElse := true;
      ElseBranch(old(nodes), nodes, b, parent, Fed(b, TElse).value);
    }

    /** endif and endfor ascend to the list that holds the block. */
    method Ascend(ghost b: Builder)
      requires Holds(b) && b.stack != []
      modifies this
      ensures Holds(Close(b, BlockTree(b)))
    {
      CloseBlock(nodes, b);
      var up := nodes[parent].parent;
      KindOfTop(nodes, Close(b, BlockTree(b)));
      inElse := nodes[up].kind == NIf && nodes[up].inElse;
      parent := up;
    }

    /** What the parser does between "{{" and "}}"; `ok` if the directive is valid where it stands. */
    method OnDirective(d: string, ghost b: Builder) returns (ok: bool)
      requires Holds(b) && d != ""
      modifies this
      ensures ok <==> AfterDirective(b, LexDirective(d)).Some?
      ensures ok ==> Holds(AfterDirective(b, LexDirective(d)).value)
    {
      if d[0] == '#' {
        return true;
      }
      var c := ClassifyNode(d);
      if c.None? {
        return false;
      }
      if c.value.expr.None? {
        WantedIsThere(d, 0);
      }
      ok := OnClass(c.value.kind, c.value.expr, b);
    }

    method OnClass(kind: Kind, expr: Option<string>, ghost b: Builder) returns (ok: bool)
      requires Holds(b)
      requires expr.None? ==> kind in {KText, KElse, KEndif, KEndfor}
      modifies this
      ensures ok <==> AfterDirective(b, LexClass(kind, expr)).Some?
      ensures ok ==> Holds(AfterDirective(b, LexClass(kind, expr)).value)
    {
      hide Rep, OpenAt, ParseFor, FindIn;
      if kind == KElse || kind == KEndif || kind == KEndfor {
        ok := OnBlockEnd(kind, b);
      } else if kind == KFor {
        ok := OnFor(expr.value, b);
      } else {
        ok := true;
        if kind == KIf {
          InsertBlock(b, NIf, expr.value, "", InIf(b.cur, expr.value));
        } else if kind == KSubst {
          InsertLeaf(b, NSubst, expr, Subst(expr.value));
        } else {
          InsertLeaf(b, NText, expr, if expr.Some? then Text(expr.value) else NullText);
        }
      }
    }

    method OnFor(expr: string, ghost b: Builder) returns (ok: bool)
      requires Holds(b)
      modifies this
      ensures ok <==> AfterDirective(b, ParseFor(expr)).Some?
      ensures ok ==> Holds(AfterDirective(b, ParseFor(expr)).value)
    {
      hide Rep, OpenAt, ParseFor;
      var r := SplitFor(expr);
      ok := r.Some?;
      if ok {
        InsertBlock(b, NFor, r.value.1, r.value.0, InFor(b.cur, r.value.0, r.value.1));
      }
    }

    ghost function EndToken(kind: Kind): Token {
      if kind == KElse then TElse else if kind == KEndif then TEndif else TEndfor
    }

    /** The directive needs the parent its row of the table names. */
    method OnBlockEnd(kind: Kind, ghost b: Builder) returns (ok: bool)
      requires Holds(b) && (kind == KElse || kind == KEndif || kind == KEndfor)
      modifies this
      ensures ok <==> Fed(b, EndToken(kind)).Some?
      ensures ok ==> Holds(Fed(b, EndToken(kind)).value)
    {
      KindOfTop(nodes, b);
      FedEnds(b);
      assert parent < |nodes|;
      hide Rep, OpenAt, Fed, BlockTree;
      var expected := if kind == KEndfor then NFor else NIf;
      if nodes[parent].kind != expected {
        return false;
      }
      if kind == KElse {
        if nodes[parent].inElse {
          return false;
        }
        EnterElse(b);
      } else {
        Ascend(b);
      }
      ok := true;
    }

    /** The text before the directive at `start`, then the directive. */
    method OnOpening(text: string, o: nat, start: nat, ghost b: Builder)
      returns (ok: bool, o': nat, ghost b': Builder)
      requires Holds(b) && o <= start < |text| - 1 && start - o == FindOpen(text[o..])
      modifies this
      ensures ok ==> o < o' <= |text| && Holds(b') && ParseRest(b', text[o'..]) == ParseRest(b, text[o..])
      ensures !ok ==> ParseRest(b, text[o..]) == None
    {
      hide ParseRest, LexDirective, Rep, AfterDirective, FindOpen, Lex, FindClose, WithText;
      assert text[o..][start - o..] == text[start..] && text[start..][2..] == text[start + 2..]
             && text[o..][..start - o] == text[o..start];
      ok, o' := false, o;
      b' := AppendText(b, text[o..start]);
      var end := FindClose(text[start + 2..]);
      if end.None? {
        RestStop(b, text[o..], start - o, None);
        return;
      }
      var d := text[start + 2..][..end.value];
      if '\n' in d || d == "" {
        RestStop(b, text[o..], start - o, Some(d));
        return;
      }
      ghost var b1 := b';
      ok := OnDirective(d, b1);
      if !ok {
        Rejected(b, text[o..], start - o, d);
        return;
      }
      Accepted(b, text, o, start, d);
      b' := AfterDirective(b1, LexDirective(d)).value;
      o' := start + 2 + |d| + 2;
    }

    /** mtemplate_parse: accepts exactly the texts that are templates, and then the pool holds the
        tree, with its parent links. */
    method ParseText(text: string) returns (ok: bool)
      requires Holds(START)
      modifies this
      ensures ok <==> Parse(text).Some?
      ensures ok ==> Holds(Builder(Parse(text).value, []))
    {
      ghost var b := START;
      StartIsParse(text);
      var o: nat, p: nat := 0, 0;
      assert text[0..] == text;
      hide ParseRest, LexDirective, Rep, AfterDirective, FindOpen, Lex;
      while true
        invariant Scanned(text, o, p)
        invariant Holds(b) && ParseRest(b, text[o..]) == Parse(text)
        decreases |text| - o, |text| - o - p
      {
        var start := NextStop(text, o + p);
        SkipTo(text, o, p, start);
        if start == |text| {
          RestEnd(b, text[o..]);
          b := AppendText(b, text[o..]);
          break;
        }
        if text[start] == '\n' || start + 1 == |text| || text[start + 1] != '{' {
          SkipOne(text, o, start);
          p := start + 1 - o;
          continue;
        }
        OpensAt(text, o, start);
        var valid, next;
        valid, next, b := OnOpening(text, o, start, b);
        if !valid {
          return false;
        }
        o, p := next, 0;
      }
      KindOfTop(nodes, b);
      RootOpens(nodes, b);
      ok := parent == 0;
    }

    method AppendText(ghost b: Builder, s: string) returns (ghost b': Builder)
      requires Holds(b)
      modifies `nodes
      ensures b' == WithText(b, s) && Holds(b')
    {
      if s != "" {
        InsertLeaf(b, NText, Some(s), Text(s));
      }
      b' := WithText(b, s);
    }
  }
}
