/** Parsing undoes printing, for every canonical template. */
module TemplateRoundTrip {
  import opened Options
  import opened TemplateTree
  import opened TemplateLexer

  lemma {:induction false} FindCloseAppend(d: string, rest: string)
    requires FindClose(d + "}}") == Some(|d|)
    ensures FindClose(d + "}}" + rest) == Some(|d|)
  {
    if d == "" {
      assert d + "}}" == "}}" && (d + "}}" + rest)[0] == '}' && (d + "}}" + rest)[1] == '}';
    } else {
      assert (d + "}}")[1..] == d[1..] + "}}";
      assert (d + "}}" + rest)[1..] == d[1..] + "}}" + rest;
      assert (d + "}}" + rest)[..2] == (d + "}}")[..2];
      FindCloseAppend(d[1..], rest);
    }
  }

  lemma {:induction false} FindOpenAppend(s: string, rest: string)
    requires s != "" && FindOpen(s) == |s| && s[|s| - 1] != '{'
    requires rest == "" || "{{" <= rest
    ensures FindOpen(s + rest) == |s|
  {
    assert (s + rest)[1..] == s[1..] + rest;
    if |s| == 1 {
      assert s[1..] + rest == rest;
    } else {
      FindOpenAppend(s[1..], rest);
    }
  }

  // ---------- each printed directive is read back ----------

  lemma {:induction false} SkipRows(d: string, a: nat, b: nat)
    requires a <= b <= |NODE_INFO| && forall j :: a <= j < b ==> !(NODE_INFO[j].keyword <= d)
    ensures ClassifyFrom(d, a) == ClassifyFrom(d, b)
    decreases b - a
  {
    if a < b {
      SkipRows(d, a + 1, b);
    }
  }

  lemma {:induction false} Differs(k: string, d: string, i: nat)
    requires i < |k| && i < |d| && k[i] != d[i]
    ensures !(k <= d)
  {
  }

  /** Text that starts with a row's keyword and differs early from the keywords above it. */
  lemma {:induction false} Row(d: string, i: nat, at: seq<nat>)
    requires i < |NODE_INFO| && |at| == i && NODE_INFO[i].keyword <= d
    requires forall j :: 0 <= j < i ==>
               at[j] < |NODE_INFO[j].keyword| && at[j] < |d| && NODE_INFO[j].keyword[at[j]] != d[at[j]]
    ensures ClassifyFrom(d, 0) == ClassifyFrom(d, i)
  {
    forall j | 0 <= j < i ensures !(NODE_INFO[j].keyword <= d) {
      Differs(NODE_INFO[j].keyword, d, at[j]);
    }
    SkipRows(d, 0, i);
  }

  lemma {:induction false} ReadIf(e: string)
    requires e != ""
    ensures LexDirective("if " + e) == Directive(TIf(e))
  {
    var d := "if " + e;
    assert d[0] == 'i' && d[..2] == "if" && d[3..] == e;
    Row(d, 1, [0]);
  }

  lemma {:induction false} ReadFor(v: string, e: string)
    requires FindIn(v + IN + e) == Some(|v|) && ' ' !in e
    ensures LexDirective("for " + (v + IN + e)) == Directive(TFor(v, e))
  {
    var x := v + IN + e;
    var d := "for " + x;
    assert d[0] == 'f' && d[..3] == "for" && d[4..] == x;
    Row(d, 4, [0, 0, 0, 0]);
    ForParts(v, e);
  }

  lemma {:induction false} ForParts(v: string, e: string)
    requires FindIn(v + IN + e) == Some(|v|) && ' ' !in e
    ensures ParseFor(v + IN + e) == Directive(TFor(v, e))
  {
    var x := v + IN + e;
    assert x[..|v|] == v && x[|v| + 4..] == e;
  }

  lemma {:induction false} ReadSubst(name: string)
    requires name != ""
    ensures LexDirective("subst " + name) == Directive(TSubst(name))
  {
    var d := "subst " + name;
    assert d[0] == 's' && d[..5] == "subst" && d[6..] == name;
    Row(d, 6, [0, 0, 0, 0, 0, 0]);
  }

  lemma {:induction false} ReadText()
    ensures LexDirective("text") == Directive(TNullText)
    ensures LexDirective("else") == Directive(TElse)
  {
    Row("text", 0, []);
    Row("else", 2, [0, 0]);
  }

  lemma {:induction false} ReadEnds()
    ensures LexDirective("endif") == Directive(TEndif)
    ensures LexDirective("endfor") == Directive(TEndfor)
  {
    Row("endif", 3, [0, 0, 1]);
    Row("endfor", 5, [0, 0, 1, 3, 0]);
  }

  lemma {:induction false} ReadBraces(s: string)
    requires AllBraces(s)
    ensures LexDirective(s) == Directive(TText(s)) && Closed(s)
  {
    forall j | 0 <= j < |NODE_INFO| ensures !(NODE_INFO[j].keyword <= s) {
      Differs(NODE_INFO[j].keyword, s, 0);
    }
    SkipRows(s, 0, |NODE_INFO|);
    BracesClosed(s);
  }

  lemma {:induction false} BracesClosed(s: string)
    requires forall i :: 0 <= i < |s| ==> s[i] == '{'
    ensures FindClose(s + "}}") == Some(|s|)
  {
    if s == "" {
      assert s + "}}" == "}}";
    } else {
      assert (s + "}}")[1..] == s[1..] + "}}";
      BracesClosed(s[1..]);
    }
  }

  lemma {:induction false} ReadDirective(tok: Token)
    requires Printable(tok) && !Raw(tok)
    ensures var d := DirectiveText(tok); d != "" && Closed(d) && LexDirective(d) == Directive(tok)
  {
    match tok
    case TText(s) => ReadBraces(s);
    case TIf(e) => ReadIf(e);
    case TFor(v, e) => ReadFor(v, e);
    case TSubst(name) =>
      if !Bare(name) {
        ReadSubst(name);
      } else if name[0] == '#' {
        CommentIsNotBare(name);
      }
    case _ =>
      ReadText();
      ReadEnds();
      PlainClosed();
  }

  lemma {:induction false} PlainClosed()
    ensures Closed("text") && Closed("else") && Closed("endif") && Closed("endfor")
  {
    CloseAfter("text");
    CloseAfter("else");
    CloseAfter("endif");
    CloseAfter("endfor");
  }

  lemma {:induction false} CloseAfter(s: string)
    requires '}' !in s
    ensures FindClose(s + "}}") == Some(|s|)
  {
    if s == "" {
      assert s + "}}" == "}}";
    } else {
      assert (s + "}}")[1..] == s[1..] + "}}";
      CloseAfter(s[1..]);
    }
  }

  lemma {:induction false} CommentIsNotBare(name: string)
    requires name != "" && name[0] == '#'
    ensures !Bare(name)
  {
    forall j | 0 <= j < |NODE_INFO| ensures !(NODE_INFO[j].keyword <= name) {
      Differs(NODE_INFO[j].keyword, name, 0);
    }
    SkipRows(name, 0, |NODE_INFO|);
    assert !SubstOk(name[0]);
  }

  // ---------- reading back whole texts ----------

  /** A printed directive in front of any text becomes its token in front of the text's tokens. */
  lemma {:induction false} LexDirectiveText(tok: Token, rest: string)
    requires Printable(tok) && !Raw(tok)
    ensures Lex(PrintToken(tok) + rest) == Joined(Directive(tok), Lex(rest))
  {
    var d := DirectiveText(tok);
    ReadDirective(tok);
    hide Lex, LexDirective, Joined;
    LexClosed(d, rest);
    assert "{{" + d + "}}" + rest == PrintToken(tok) + rest;
  }

  /** A directive closed by the first "}}" behind it: rejected if it is empty, has a newline or means nothing. */
  lemma {:induction false} LexClosed(d: string, rest: string)
    requires FindClose(d + "}}") == Some(|d|)
    ensures Lex("{{" + d + "}}" + rest)
            == if d == "" || '\n' in d || LexDirective(d) == Bad then None else Joined(LexDirective(d), Lex(rest))
  {
    hide Lex, LexDirective, Joined;
    var s := "{{" + d + "}}" + rest;
    LexAtOpen(s);
    assert s[2..] == d + "}}" + rest;
    FindCloseAppend(d, rest);
    assert s[2..][..|d|] == d && s[2 + |d| + 2..] == rest;
  }

  /** A directive that is never closed. */
  lemma {:induction false} LexUnclosed(s: string)
    requires FindClose(s) == None
    ensures Lex("{{" + s) == None
  {
    hide Lex, LexDirective, Joined;
    LexAtOpen("{{" + s);
    assert ("{{" + s)[2..] == s;
  }

  /** A raw text in front of nothing or of a directive becomes a text token. */
  lemma {:induction false} LexRawText(t: string, rest: string)
    requires t != "" && FindOpen(t) == |t| && t[|t| - 1] != '{'
    requires rest == "" || ("{{" <= rest)
    ensures Lex(t + rest) == Prefixed(t, Lex(rest))
  {
    FindOpenAppend(t, rest);
    if rest == "" {
      assert t + rest == t;
    } else {
      hide Lex, FindOpen, Prefixed;
      LexRawBeforeOpen(t, rest);
    }
  }

  lemma {:induction false} LexRawBeforeOpen(t: string, rest: string)
    requires "{{" <= rest && FindOpen(t + rest) == |t|
    ensures Lex(t + rest) == Prefixed(t, Lex(rest))
  {
    hide Lex, FindOpen, Body, Prefixed, Joined, LexDirective, LegalBody;
    var s := t + rest;
    assert s[|t|..] == rest && s[..|t|] == t;
    LexAtOpen(rest);
    var d := Body(rest);
    if d.Some? && LegalBody(d.value) {
      LexStep(s, |t|, d.value);
      DropFront(t, rest, 2 + |d.value| + 2);
    } else {
      LexStop(s, |t|, d);
      PrefixedNone(t);
    }
  }

  lemma {:induction false} PrefixedNone(t: string)
    ensures Prefixed(t, None) == None
  {
  }

  lemma {:induction false} DropFront(t: string, rest: string, k: nat)
    requires k <= |rest|
    ensures (t + rest)[|t| + k..] == rest[k..]
  {
  }

  /** Text that starts with a directive is read from that directive on. */
  lemma {:induction false} LexAtOpen(s: string)
    requires "{{" <= s
    ensures FindOpen(s) == 0
    ensures var d := Body(s);
      Lex(s) == if d.None? || !LegalBody(d.value) then None
                else Joined(LexDirective(d.value), Lex(s[2 + |d.value| + 2..]))
  {
    assert s[0] == '{' && s[1] == '{' && s[0..] == s && s[..0] == "";
  }

  lemma {:induction false} StartsDirective(toks: seq<Token>)
    requires toks != [] && !Raw(toks[0])
    ensures "{{" <= PrintTokens(toks)
  {
    var s := PrintTokens(toks);
    assert s[..2] == "{{";
  }

  /** Reading the printed tokens gives them back. */
  lemma {:induction false} LexPrint(toks: seq<Token>)
    requires Canonical(toks)
    ensures Lex(PrintTokens(toks)) == Some(toks)
    decreases |toks|
  {
    if toks != [] {
      var tok, rest := toks[0], toks[1..];
      assert forall i :: 0 <= i < |rest| ==> rest[i] == toks[i + 1];
      LexPrint(rest);
      assert [tok] + rest == toks;
      if Raw(tok) {
        if rest != [] {
          StartsDirective(rest);
        }
        LexRawText(tok.text, PrintTokens(rest));
      } else {
        LexDirectiveText(tok, PrintTokens(rest));
      }
    }
  }

  // ---------- main results ----------

  /** Parsing the printed text of a canonical template rebuilds the template. */
  lemma {:induction false} ParsePrint(ts: seq<Node>)
    requires WellFormed(ts) && Canonical(Tokens(ts))
    ensures Parse(Print(ts)) == Some(ts)
  {
    LexPrint(Tokens(ts));
    BuildTokens(ts);
  }

  /** Printed directives of any order are accepted exactly if they are properly nested. */
  lemma {:induction false} ParseAcceptsNested(toks: seq<Token>)
    requires Canonical(toks)
    ensures Parse(PrintTokens(toks)).Some? <==> exists ts :: WellFormed(ts) && Tokens(ts) == toks
  {
    LexPrint(toks);
    AcceptsExactlyNested(toks);
  }

  /** Keywords match by prefix: this name, all of legal characters, is read as an else. */
  lemma {:induction false} PrefixTakesName()
    ensures AllSubstOk("elsewhere") && LexDirective("elsewhere") == Directive(TElse)
  {
    var d := "elsewhere";
    assert d[..4] == "else";
    Row(d, 2, [0, 0]);
  }

  /** A name of legal characters is a substitution exactly if no keyword is a prefix of it. */
  lemma {:induction false} BareExactly(name: string)
    requires name != "" && AllSubstOk(name)
    ensures Bare(name) <==> forall j :: 0 <= j < |NODE_INFO| ==> !(NODE_INFO[j].keyword <= name)
  {
    if forall j :: 0 <= j < |NODE_INFO| ==> !(NODE_INFO[j].keyword <= name) {
      SkipRows(name, 0, |NODE_INFO|);
      assert name[0] != '{';
    } else {
      KeywordIsNotBare(name, 0);
    }
  }

  lemma {:induction false} KeywordIsNotBare(name: string, i: nat)
    requires i < |NODE_INFO| && exists j :: i <= j < |NODE_INFO| && NODE_INFO[j].keyword <= name
    ensures ClassifyFrom(name, i) != Some(Class(KSubst, Some(name)))
    decreases |NODE_INFO| - i
  {
    if !(NODE_INFO[i].keyword <= name) {
      KeywordIsNotBare(name, i + 1);
    }
  }

  // ---------- what each directive means ----------

  /** The first keyword, in the order of the table, that the directive starts with decides; if there is none,
      braces stand for themselves, and letters, digits, dots, underscores and brackets make a substitution. */
  lemma {:induction false} DirectiveMeaning(d: string)
    requires d != ""
    ensures LexDirective(d) ==
            if d[0] == '#' then Comment
            else if "text" <= d then Directive(TNullText)
            else if "if" <= d then if |d| > 3 && d[2] == ' ' then Directive(TIf(d[3..])) else Bad
            else if "else" <= d then Directive(TElse)
            else if "endif" <= d then Directive(TEndif)
            else if "for" <= d then if |d| > 4 && d[3] == ' ' then ParseFor(d[4..]) else Bad
            else if "endfor" <= d then Directive(TEndfor)
            else if "subst" <= d then if |d| > 6 && d[5] == ' ' then Directive(TSubst(d[6..])) else Bad
            else if forall i :: 0 <= i < |d| ==> d[i] == '{' then Directive(TText(d))
            else if forall i :: 0 <= i < |d| ==>
                      'A' <= d[i] <= 'Z' || 'a' <= d[i] <= 'z' || '0' <= d[i] <= '9' || d[i] in "._[]"
            then Directive(TSubst(d)) else Bad
  {
    hide ParseFor, ClassifyFrom, AllSubstOk;
    LegalCharacters(d);
    TableStart(d);
    TableEnd(d);
  }

  lemma {:induction false} TableStart(d: string)
    ensures ClassifyFrom(d, 0) ==
            if "text" <= d then Some(Class(KText, None))
            else if "if" <= d then if |d| > 3 && d[2] == ' ' then Some(Class(KIf, Some(d[3..]))) else None
            else if "else" <= d then Some(Class(KElse, None))
            else if "endif" <= d then Some(Class(KEndif, None))
            else ClassifyFrom(d, 4)
  {
    assert ClassifyFrom(d, 2) == if "else" <= d then Some(Class(KElse, None))
                                 else if "endif" <= d then Some(Class(KEndif, None))
                                 else ClassifyFrom(d, 4);
  }

  lemma {:induction false} TableEnd(d: string)
    requires d != ""
    ensures ClassifyFrom(d, 4) ==
            if "for" <= d then if |d| > 4 && d[3] == ' ' then Some(Class(KFor, Some(d[4..]))) else None
            else if "endfor" <= d then Some(Class(KEndfor, None))
            else if "subst" <= d then if |d| > 6 && d[5] == ' ' then Some(Class(KSubst, Some(d[6..]))) else None
            else if forall i :: 0 <= i < |d| ==> d[i] == '{' then Some(Class(KText, Some(d)))
            else if AllSubstOk(d) then Some(Class(KSubst, Some(d)))
            else None
  {
    hide AllSubstOk;
    assert ClassifyFrom(d, 6) ==
           if "subst" <= d then if |d| > 6 && d[5] == ' ' then Some(Class(KSubst, Some(d[6..]))) else None
           else ClassifyFrom(d, 7);
  }

  lemma {:induction false} LegalCharacters(d: string)
    ensures AllSubstOk(d) <==> forall i :: 0 <= i < |d| ==>
              'A' <= d[i] <= 'Z' || 'a' <= d[i] <= 'z' || '0' <= d[i] <= '9' || d[i] in "._[]"
  {
    forall i | 0 <= i < |d|
      ensures SubstOk(d[i]) <==> 'A' <= d[i] <= 'Z' || 'a' <= d[i] <= 'z' || '0' <= d[i] <= '9' || d[i] in "._[]"
    {
      var marks := "._[]";
      assert d[i] in marks <==> d[i] == marks[0] || d[i] == marks[1] || d[i] == marks[2] || d[i] == marks[3];
    }
  }

  ghost predicate InAt(x: string, i: nat) {
    i + 4 <= |x| && x[i..i + 4] == " in "
  }

  lemma {:induction false} InLater(x: string, i: nat)
    requires i + 1 <= |x|
    ensures InAt(x[1..], i) <==> InAt(x, i + 1)
  {
    if i + 5 <= |x| {
      assert x[1..][i..i + 4] == x[i + 1..i + 5];
    }
  }

  /** strstr finds the first place, or there is none. */
  lemma {:induction false} FindInFirst(x: string)
    ensures var k := FindIn(x);
      if k.Some? then InAt(x, k.value) && forall i: nat :: i < k.value ==> !InAt(x, i)
      else forall i: nat :: !InAt(x, i)
  {
    if |x| >= 4 {
      assert x[..4] == x[0..4];
      FindInFirst(x[1..]);
      forall i: nat | 0 < i <= |x| ensures InAt(x, i) <==> InAt(x[1..], i - 1) {
        InLater(x, i - 1);
      }
    }
  }

  /** A loop is a variable, the first " in ", and a reference without a blank. */
  lemma {:induction false} ForExactly(x: string, v: string, e: string)
    ensures ParseFor(x) == Directive(TFor(v, e)) <==>
            x == v + " in " + e && ' ' !in e && forall i: nat :: i < |v| ==> !InAt(x, i)
  {
    FindInFirst(x);
    if FindIn(x).Some? {
      var k := FindIn(x).value;
      assert x == x[..k] + x[k..k + 4] + x[k + 4..];
    }
    if x == v + " in " + e && forall i: nat :: i < |v| ==> !InAt(x, i) {
      assert x[|v|..|v| + 4] == " in ";
      assert InAt(x, |v|) && FindIn(x) == Some(|v|);
      assert x[..|v|] == v && x[|v| + 4..] == e;
    }
  }
}
