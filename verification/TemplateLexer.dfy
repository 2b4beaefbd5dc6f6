/** mtemplate.c: how template text is cut into texts and directives, and how a tree is printed. */
module TemplateLexer {
  import opened Options
  import opened TemplateTree

  // ---------- searches ----------

  /** The first "{{" in `s`, or its length. */
  function FindOpen(s: string): (k: nat)
    ensures k <= |s| && (k < |s| ==> k + 2 <= |s|)
  {
    if |s| < 2 then |s| else if s[0] == '{' && s[1] == '{' then 0 else 1 + FindOpen(s[1..])
  }

  /** strstr(s, "}}") */
  function FindClose(s: string): (k: Option<nat>)
    ensures k.Some? ==> k.value + 2 <= |s|
  {
    if |s| < 2 then None
    else if s[0] == '}' && s[1] == '}' then Some(0)
    else
      var k := FindClose(s[1..]);
      if k.Some? then Some(k.value + 1) else None
  }

  const IN := " in "

  /** strstr(s, " in ") */
  function FindIn(s: string): (k: Option<nat>)
    ensures k.Some? ==> k.value + 4 <= |s|
  {
    if |s| < 4 then None
    else if s[..4] == IN then Some(0)
    else
      var k := FindIn(s[1..]);
      if k.Some? then Some(k.value + 1) else None
  }

  // ---------- classify_node ----------

  datatype Kind = KText | KIf | KElse | KEndif | KFor | KEndfor | KSubst

  /** A row of node_info. */
  datatype Info = Info(kind: Kind, keyword: string, wantExpression: bool)

  const NODE_INFO := [
    Info(KText, "text", false), Info(KIf, "if", true), Info(KElse, "else", false),
    Info(KEndif, "endif", false), Info(KFor, "for", true), Info(KEndfor, "endfor", false),
    Info(KSubst, "subst", true)]

  /** A directive's kind, and its expression if it has one. */
  datatype Class = Class(kind: Kind, expr: Option<string>)

  predicate SubstOk(c: char) {
    'A' <= c <= 'Z' || 'a' <= c <= 'z' || '0' <= c <= '9' || c == '.' || c == '_' || c == '[' || c == ']'
  }

  predicate AllBraces(d: string) {
    d != "" && forall i :: 0 <= i < |d| ==> d[i] == '{'
  }

  predicate AllSubstOk(d: string) {
    forall i :: 0 <= i < |d| ==> SubstOk(d[i])
  }

  /** From row `i` of the table on, then the escapes, then plain substitution. */
  function ClassifyFrom(d: string, i: nat): Option<Class>
    requires i <= |NODE_INFO|
    decreases |NODE_INFO| - i
  {
    if i < |NODE_INFO| then
      var info := NODE_INFO[i];
      var n := |info.keyword|;
      if !(info.keyword <= d) then ClassifyFrom(d, i + 1)
      else if !info.wantExpression then Some(Class(info.kind, None))
      else if |d| <= n + 1 || d[n] != ' ' then None
      else Some(Class(info.kind, Some(d[n + 1..])))
    else if AllBraces(d) then Some(Class(KText, Some(d)))
    else if AllSubstOk(d) then Some(Class(KSubst, Some(d)))
    else None
  }

  function Classify(d: string): Option<Class> {
    if d == "" then None else ClassifyFrom(d, 0)
  }

  method ClassifyNode(d: string) returns (r: Option<Class>)
    ensures r == Classify(d)
  {
    if |d| < 1 {
      return None;
    }
    var i := 0;
    while i < |NODE_INFO|
      invariant 0 <= i <= |NODE_INFO| && ClassifyFrom(d, 0) == ClassifyFrom(d, i)
    {
      var info := NODE_INFO[i];
      var dlen := |info.keyword|;
      if |d| < dlen || d[..dlen] != info.keyword {
        i := i + 1;
        continue;
      }
      if !info.wantExpression {
        return Some(Class(info.kind, None));
      }
      if |d| <= dlen + 1 || d[dlen] != ' ' {
        return None;
      }
      return Some(Class(info.kind, Some(d[dlen + 1..])));
    }
    if d[0] == '{' {
      i := 1;
      while i < |d| && d[i] == '{'
        invariant 1 <= i <= |d| && forall j :: 0 <= j < i ==> d[j] == '{'
      {
        i := i + 1;
      }
      if i >= |d| {
        return Some(Class(KText, Some(d)));
      }
    }
    i := 0;
    while i < |d|
      invariant 0 <= i <= |d| && forall j :: 0 <= j < i ==> SubstOk(d[j])
    {
      if !SubstOk(d[i]) {
        return None;
      }
      i := i + 1;
    }
    return Some(Class(KSubst, Some(d)));
  }

  /** A directive that wants an expression has one. */
  lemma {:induction false} WantedIsThere(d: string, i: nat)
    requires i <= |NODE_INFO| && ClassifyFrom(d, i).Some? && ClassifyFrom(d, i).value.expr.None?
    ensures ClassifyFrom(d, i).value.kind in {KText, KElse, KEndif, KEndfor}
    decreases |NODE_INFO| - i
  {
    if i < |NODE_INFO| && !(NODE_INFO[i].keyword <= d) {
      WantedIsThere(d, i + 1);
    }
  }

  // ---------- directives and texts as tokens ----------

  datatype Lexed = Bad | Comment | Directive(token: Token)

  function LexDirective(d: string): Lexed
    requires d != ""
  {
    if d[0] == '#' then Comment
    else match Classify(d)
      case None => Bad
      case Some(c) => LexClass(c.kind, c.expr)
  }

  function LexClass(kind: Kind, expr: Option<string>): Lexed {
    match kind
    case KText => Directive(if expr.Some? then TText(expr.value) else TNullText)
    case KElse => Directive(TElse)
    case KEndif => Directive(TEndif)
    case KEndfor => Directive(TEndfor)
    case KIf => if expr.Some? then Directive(TIf(expr.value)) else Bad
    case KSubst => if expr.Some? then Directive(TSubst(expr.value)) else Bad
    case KFor => if expr.Some? then ParseFor(expr.value) else Bad
  }

  /** parse_for: LOCALVAR in REFERENCE */
  function ParseFor(expr: string): Lexed {
    match FindIn(expr)
    case None => Bad
    case Some(k) => if ' ' in expr[k + 4..] then Bad else Directive(TFor(expr[..k], expr[k + 4..]))
  }

  function Prefixed(s: string, toks: Option<seq<Token>>): Option<seq<Token>> {
    if toks.None? || s == "" then toks else Some([TText(s)] + toks.value)
  }

  function Joined(tok: Lexed, toks: Option<seq<Token>>): Option<seq<Token>>
    requires tok != Bad
  {
    if toks.None? || tok == Comment then toks else Some([tok.token] + toks.value)
  }

  /** The directive that opens `s`, closed or not. */
  function Body(s: string): Option<string>
    requires |s| >= 2
  {
    var k := FindClose(s[2..]);
    if k.None? then None else Some(s[2..][..k.value])
  }

  predicate LegalBody(d: string) {
    d != "" && '\n' !in d && LexDirective(d) != Bad
  }

  function Lex(s: string): Option<seq<Token>>
    decreases |s|
  {
    var k := FindOpen(s);
    if k == |s| then Prefixed(s, Some([]))
    else
      var d := Body(s[k..]);
      if d.None? || !LegalBody(d.value) then None
      else Prefixed(s[..k], Joined(LexDirective(d.value), Lex(s[k + 2 + |d.value| + 2..])))
  }

  lemma {:induction false} BodyFits(s: string, k: nat)
    requires k + 2 <= |s| && Body(s[k..]).Some?
    ensures k + 2 + |Body(s[k..]).value| + 2 <= |s|
  {
    hide LexDirective;
  }

  lemma {:induction false} LexStep(s: string, k: nat, d: string)
    requires k == FindOpen(s) < |s| && Body(s[k..]) == Some(d) && LegalBody(d)
    ensures k + 2 + |d| + 2 <= |s| && d != "" && LexDirective(d) != Bad
    ensures Lex(s) == Prefixed(s[..k], Joined(LexDirective(d), Lex(s[k + 2 + |d| + 2..])))
  {
    hide LexDirective, FindOpen, Body, Prefixed, Joined;
    BodyFits(s, k);
    assert d != "" && LexDirective(d) != Bad;
    hide LegalBody;
  }

  lemma {:induction false} LexStop(s: string, k: nat, d: Option<string>)
    requires k == FindOpen(s) < |s| && Body(s[k..]) == d && (d.None? || !LegalBody(d.value))
    ensures Lex(s) == None
  {
    hide LexDirective, FindOpen, Body, Prefixed, Joined;
  }

  /** mtemplate_parse, as a function of the text. */
  function Parse(s: string): Option<seq<Node>> {
    var toks := Lex(s);
    if toks.None? then None else Build(toks.value)
  }

  // ---------- printing ----------

  /** The name is taken as a substitution without the keyword. */
  ghost predicate Bare(name: string) {
    Classify(name) == Some(Class(KSubst, Some(name)))
  }

  ghost predicate Raw(tok: Token) {
    tok.TText? && !AllBraces(tok.text)
  }

  ghost function DirectiveText(tok: Token): string
    requires !Raw(tok)
  {
    match tok
    case TText(s) => s
    case TNullText => "text"
    case TSubst(name) => if Bare(name) then name else "subst " + name
    case TIf(cond) => "if " + cond
    case TElse => "else"
    case TEndif => "endif"
    case TFor(v, e) => "for " + (v + IN + e)
    case TEndfor => "endfor"
  }

  ghost function PrintToken(tok: Token): string {
    if Raw(tok) then tok.text else "{{" + DirectiveText(tok) + "}}"
  }

  ghost function PrintTokens(toks: seq<Token>): string {
    if toks == [] then "" else PrintToken(toks[0]) + PrintTokens(toks[1..])
  }

  ghost function Print(ts: seq<Node>): string {
    PrintTokens(Tokens(ts))
  }

  /** The directive ends where its first "}}" is, on one line. */
  ghost predicate Closed(d: string) {
    '\n' !in d && FindClose(d + "}}") == Some(|d|)
  }

  /** Texts without a directive's opening, expressions that fit in a directive. */
  ghost predicate Printable(tok: Token) {
    match tok
    case TText(s) => AllBraces(s) || (s != "" && FindOpen(s) == |s| && s[|s| - 1] != '{')
    case TSubst(name) => name != "" && Closed(DirectiveText(tok))
    case TIf(cond) => cond != "" && Closed(DirectiveText(tok))
    case TFor(v, e) => FindIn(v + IN + e) == Some(|v|) && ' ' !in e && Closed(DirectiveText(tok))
    case _ => true
  }

  /** Two raw texts in a row would be read as one. */
  ghost predicate Canonical(toks: seq<Token>) {
    && (forall i :: 0 <= i < |toks| ==> Printable(toks[i]))
    && (forall i :: 0 <= i < |toks| - 1 ==> !(Raw(toks[i]) && Raw(toks[i + 1])))
  }
}
