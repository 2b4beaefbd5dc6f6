/**
 mtemplate.c: templates as trees, their directives as tokens, and the stack discipline by which
 the parser turns one into the other.
 */
module TemplateTree {
  import opened Options

  /** A parsed node. `NullText` is what the directive `text` leaves: a text node without text.
      `hasElse` records `in_else`, which tells an empty else branch from none. */
  datatype Node = Text(text: string)
    | NullText
    | Subst(name: string)
    | If(cond: string, hasElse: bool, thn: seq<Node>, els: seq<Node>)
    | For(localvar: string, expr: string, body: seq<Node>)

  datatype Token = TText(text: string) | TNullText | TSubst(name: string)
    | TIf(cond: string) | TElse | TEndif
    | TFor(localvar: string, expr: string) | TEndfor

  /** Without an else directive there is nothing in the else branch. */
  ghost predicate WellFormedNode(t: Node)
    decreases t, 0
  {
    match t
    case If(_, hasElse, thn, els) => WellFormed(thn) && WellFormed(els) && (!hasElse ==> els == [])
    case For(_, _, body) => WellFormed(body)
    case _ => true
  }

  ghost predicate WellFormed(ts: seq<Node>)
    decreases ts, 1
  {
    forall i :: 0 <= i < |ts| ==> WellFormedNode(ts[i])
  }

  ghost function NodeTokens(t: Node): seq<Token>
    decreases t, 0
  {
    match t
    case Text(s) => [TText(s)]
    case NullText => [TNullText]
    case Subst(name) => [TSubst(name)]
    case If(cond, hasElse, thn, els) =>
      [TIf(cond)] + Tokens(thn) + (if hasElse then [TElse] else []) + Tokens(els) + [TEndif]
    case For(v, e, body) => [TFor(v, e)] + Tokens(body) + [TEndfor]
  }

  /** The directives and texts that spell the nodes `ts`. */
  ghost function Tokens(ts: seq<Node>): seq<Token>
    decreases ts, 1
  {
    if ts == [] then [] else Tokens(ts[..|ts| - 1]) + NodeTokens(ts[|ts| - 1])
  }

  // ---------- the parser's block structure ----------

  /** An open block: the nodes before it in its own list, and the branch already closed by an else. */
  datatype Frame = InIf(before: seq<Node>, cond: string)
    | InElse(before: seq<Node>, cond: string, thn: seq<Node>)
    | InFor(before: seq<Node>, localvar: string, expr: string)

  /** The list being filled, inside the open blocks, innermost last. */
  datatype Builder = Builder(cur: seq<Node>, stack: seq<Frame>)

  function Top(b: Builder): Frame
    requires b.stack != []
  {
    b.stack[|b.stack| - 1]
  }

  function Open(b: Builder, f: Frame): Builder {
    Builder([], b.stack + [f])
  }

  function Close(b: Builder, t: Node): Builder
    requires b.stack != []
  {
    Builder(Top(b).before + [t], b.stack[..|b.stack| - 1])
  }

  function Add(b: Builder, t: Node): Builder {
    b.(cur := b.cur + [t])
  }

  /** What the parser does with one token; none when the directive stands outside its block. */
  function Fed(b: Builder, tok: Token): Option<Builder> {
    match tok
    case TText(s) => Some(Add(b, Text(s)))
    case TNullText => Some(Add(b, NullText))
    case TSubst(name) => Some(Add(b, Subst(name)))
    case TIf(cond) => Some(Open(b, InIf(b.cur, cond)))
    case TFor(v, e) => Some(Open(b, InFor(b.cur, v, e)))
    case TElse =>
      if b.stack != [] && Top(b).InIf?
      then Some(Builder([], b.stack[..|b.stack| - 1] + [InElse(Top(b).before, Top(b).cond, b.cur)]))
      else None
    case TEndif =>
      if b.stack != [] && Top(b).InIf? then Some(Close(b, If(Top(b).cond, false, b.cur, [])))
      else if b.stack != [] && Top(b).InElse? then Some(Close(b, If(Top(b).cond, true, Top(b).thn, b.cur)))
      else None
    case TEndfor =>
      if b.stack != [] && Top(b).InFor? then Some(Close(b, For(Top(b).localvar, Top(b).expr, b.cur)))
      else None
  }

  function FedAll(b: Builder, toks: seq<Token>): Option<Builder>
    decreases |toks|
  {
    if toks == [] then Some(b)
    else match Fed(b, toks[0])
      case None => None
      case Some(b') => FedAll(b', toks[1..])
  }

  const START := Builder([], [])

  /** The tree of a token sequence; none if a block is misplaced or left open. */
  function Build(toks: seq<Token>): Option<seq<Node>> {
    match FedAll(START, toks)
    case None => None
    case Some(b) => if b.stack == [] then Some(b.cur) else None
  }

  // ---------- building undoes spelling ----------

  lemma {:induction false} FedAllJoin(b: Builder, a: seq<Token>, c: seq<Token>)
    ensures FedAll(b, a + c) == if FedAll(b, a).None? then None else FedAll(FedAll(b, a).value, c)
    decreases |a|
  {
    if a == [] {
      assert a + c == c;
    } else {
      assert (a + c)[0] == a[0] && (a + c)[1..] == a[1..] + c;
      if Fed(b, a[0]).Some? {
        FedAllJoin(Fed(b, a[0]).value, a[1..], c);
      }
    }
  }

  lemma FedOne(b: Builder, tok: Token)
    ensures FedAll(b, [tok]) == Fed(b, tok)
  {
    assert [tok][1..] == [];
    match Fed(b, tok)
    case None =>
    case Some(b') => assert FedAll(b', []) == Some(b');
  }

  /** The tokens of well-formed nodes add exactly these nodes to the list being filled. */
  lemma {:induction false} FeedTokens(b: Builder, ts: seq<Node>)
    requires WellFormed(ts)
    ensures FedAll(b, Tokens(ts)) == Some(b.(cur := b.cur + ts))
    decreases ts, 2
  {
    if ts == [] {
      assert b.cur + [] == b.cur;
    } else {
      var init, t := ts[..|ts| - 1], ts[|ts| - 1];
      FeedTokens(b, init);
      FedAllJoin(b, Tokens(init), NodeTokens(t));
      FeedNode(b.(cur := b.cur + init), t);
      assert b.cur + init + [t] == b.cur + ts;
    }
  }

  lemma {:induction false} FeedNode(b: Builder, t: Node)
    requires WellFormedNode(t)
    ensures FedAll(b, NodeTokens(t)) == Some(Add(b, t))
    decreases t, 1
  {
    match t
    case Text(s) => FedOne(b, TText(s));
    case NullText => FedOne(b, TNullText);
    case Subst(name) => FedOne(b, TSubst(name));
    case For(v, e, body) =>
      var f := InFor(b.cur, v, e);
      FedOne(b, TFor(v, e));
      FedAllJoin(b, [TFor(v, e)] + Tokens(body), [TEndfor]);
      FeedBlock(b, TFor(v, e), f, body);
      FedOne(Builder(body, b.stack + [f]), TEndfor);
      assert (b.stack + [f])[..|b.stack|] == b.stack;
    case If(cond, hasElse, thn, els) =>
      FeedIf(b, t, cond, hasElse, thn, els);
  }

  lemma {:induction false} FeedBlock(b: Builder, tok: Token, f: Frame, body: seq<Node>)
    requires WellFormed(body) && Fed(b, tok) == Some(Open(b, f))
    ensures FedAll(b, [tok] + Tokens(body)) == Some(Builder(body, b.stack + [f]))
    decreases body, 3
  {
    FedOne(b, tok);
    FedAllJoin(b, [tok], Tokens(body));
    FeedTokens(Open(b, f), body);
    assert [] + body == body;
  }

  lemma {:induction false} FeedIf(b: Builder, t: Node, cond: string, hasElse: bool, thn: seq<Node>, els: seq<Node>)
    requires WellFormedNode(t) && t == If(cond, hasElse, thn, els)
    ensures FedAll(b, NodeTokens(t)) == Some(Add(b, t))
    decreases t, 0
  {
    var f := InIf(b.cur, cond);
    var head := [TIf(cond)] + Tokens(thn);
    FeedBlock(b, TIf(cond), f, thn);
    var b1 := Builder(thn, b.stack + [f]);
    assert b1.stack[..|b.stack|] == b.stack;
    if hasElse {
      var g := InElse(b.cur, cond, thn);
      FedOne(b1, TElse);
      FedAllJoin(b, head, [TElse]);
      var b2 := Builder([], b.stack + [g]);
      FeedTokens(b2, els);
      FedAllJoin(b, head + [TElse], Tokens(els));
      var b3 := Builder(els, b.stack + [g]);
      assert [] + els == els && b3.stack[..|b.stack|] == b.stack;
      FedOne(b3, TEndif);
      FedAllJoin(b, head + [TElse] + Tokens(els), [TEndif]);
    } else {
      FedOne(b1, TEndif);
      FedAllJoin(b, head, [TEndif]);
      assert head + [] + [] == head;
    }
  }

  /** Building the tokens of a tree gives the tree back. */
  lemma BuildTokens(ts: seq<Node>)
    requires WellFormed(ts)
    ensures Build(Tokens(ts)) == Some(ts)
  {
    FeedTokens(START, ts);
    assert [] + ts == ts;
  }

  // ---------- spelling undoes building ----------

  ghost function FrameNodes(f: Frame): seq<Token> {
    match f
    case InIf(before, cond) => Tokens(before) + [TIf(cond)]
    case InElse(before, cond, thn) => Tokens(before) + [TIf(cond)] + Tokens(thn) + [TElse]
    case InFor(before, v, e) => Tokens(before) + [TFor(v, e)]
  }

  ghost function StackTokens(stack: seq<Frame>): seq<Token> {
    if stack == [] then [] else StackTokens(stack[..|stack| - 1]) + FrameNodes(stack[|stack| - 1])
  }

  /** The tokens fed so far. */
  ghost function Spelled(b: Builder): seq<Token> {
    StackTokens(b.stack) + Tokens(b.cur)
  }

  lemma TokensSnoc(ts: seq<Node>, t: Node)
    ensures Tokens(ts + [t]) == Tokens(ts) + NodeTokens(t)
  {
    assert (ts + [t])[..|ts|] == ts;
  }

  lemma StackSnoc(stack: seq<Frame>, f: Frame)
    ensures StackTokens(stack + [f]) == StackTokens(stack) + FrameNodes(f)
  {
    assert (stack + [f])[..|stack|] == stack;
  }

  lemma Flatten3<T>(s: seq<T>, p: seq<T>, a: seq<T>)
    ensures s + (p + a) + [] == s + p + a
  {
  }

  lemma Flatten5<T>(s: seq<T>, p: seq<T>, a: seq<T>, t: seq<T>, z: seq<T>)
    ensures s + (p + (a + t + z)) == s + (p + a) + t + z == s + (p + a + t + z) + []
  {
  }

  lemma Flatten7<T>(s: seq<T>, p: seq<T>, a: seq<T>, t: seq<T>, e: seq<T>, l: seq<T>, z: seq<T>)
    ensures s + (p + (a + t + e + l + z)) == s + (p + a + t + e) + l + z
  {
  }

  lemma FedSpelled(b: Builder, tok: Token)
    requires Fed(b, tok).Some?
    ensures Spelled(Fed(b, tok).value) == Spelled(b) + [tok]
  {
    match tok
    case TText(s) => AddSpelled(b, Text(s));
    case TNullText => AddSpelled(b, NullText);
    case TSubst(name) => AddSpelled(b, Subst(name));
    case TIf(cond) => OpenSpelled(b, InIf(b.cur, cond), tok);
    case TFor(v, e) => OpenSpelled(b, InFor(b.cur, v, e), tok);
    case _ => CloseSpelled(b, tok);
  }

  lemma AddSpelled(b: Builder, t: Node)
    ensures Spelled(Add(b, t)) == Spelled(b) + NodeTokens(t)
  {
    hide NodeTokens, StackTokens;
    TokensSnoc(b.cur, t);
  }

  lemma OpenSpelled(b: Builder, f: Frame, tok: Token)
    requires FrameNodes(f) == Tokens(b.cur) + [tok]
    ensures Spelled(Open(b, f)) == Spelled(b) + [tok]
  {
    StackSnoc(b.stack, f);
    Flatten3(StackTokens(b.stack), Tokens(b.cur), [tok]);
  }

  lemma CloseSpelled(b: Builder, tok: Token)
    requires Fed(b, tok).Some? && (tok == TElse || tok == TEndif || tok == TEndfor)
    ensures Spelled(Fed(b, tok).value) == Spelled(b) + [tok]
  {
    match Top(b)
    case InIf(_, _) => IfSpelled(b, tok);
    case InElse(before, cond, thn) =>
      var init := b.stack[..|b.stack| - 1];
      TokensSnoc(before, If(cond, true, thn, b.cur));
      Flatten7(StackTokens(init), Tokens(before), [TIf(cond)], Tokens(thn), [TElse], Tokens(b.cur), [tok]);
    case InFor(before, v, e) =>
      var init := b.stack[..|b.stack| - 1];
      Flatten5(StackTokens(init), Tokens(before), [TFor(v, e)], Tokens(b.cur), [tok]);
      TokensSnoc(before, For(v, e, b.cur));
  }

  lemma IfSpelled(b: Builder, tok: Token)
    requires b.stack != [] && Top(b).InIf? && (tok == TElse || tok == TEndif)
    ensures Spelled(Fed(b, tok).value) == Spelled(b) + [tok]
  {
    var init, f := b.stack[..|b.stack| - 1], Top(b);
    var cur := Tokens(b.cur);
    Flatten5(StackTokens(init), Tokens(f.before), [TIf(f.cond)], cur, [tok]);
    if tok == TElse {
      StackSnoc(init, InElse(f.before, f.cond, b.cur));
    } else {
      var t := If(f.cond, false, b.cur, []);
      assert NodeTokens(t) == [TIf(f.cond)] + cur + [] + [] + [TEndif] == [TIf(f.cond)] + cur + [TEndif];
      TokensSnoc(f.before, t);
    }
  }

  lemma {:induction false} FedAllSpelled(b: Builder, toks: seq<Token>)
    requires FedAll(b, toks).Some?
    ensures Spelled(FedAll(b, toks).value) == Spelled(b) + toks
    decreases |toks|
  {
    if toks != [] {
      FedSpelled(b, toks[0]);
      FedAllSpelled(Fed(b, toks[0]).value, toks[1..]);
      assert [toks[0]] + toks[1..] == toks;
    }
  }

  ghost predicate FrameWellFormed(f: Frame) {
    match f
    case InIf(before, _) => WellFormed(before)
    case InElse(before, _, thn) => WellFormed(before) && WellFormed(thn)
    case InFor(before, _, _) => WellFormed(before)
  }

  ghost predicate BuilderWellFormed(b: Builder) {
    WellFormed(b.cur) && forall i :: 0 <= i < |b.stack| ==> FrameWellFormed(b.stack[i])
  }

  lemma {:induction false} FedAllWellFormed(b: Builder, toks: seq<Token>)
    requires BuilderWellFormed(b) && FedAll(b, toks).Some?
    ensures BuilderWellFormed(FedAll(b, toks).value)
    decreases |toks|
  {
    if toks != [] {
      FedAllWellFormed(Fed(b, toks[0]).value, toks[1..]);
    }
  }

  lemma BuiltSpells(toks: seq<Token>)
    requires Build(toks).Some?
    ensures WellFormed(Build(toks).value) && Tokens(Build(toks).value) == toks
  {
    hide FedAll, Fed, NodeTokens, WellFormedNode, FrameNodes;
    FedAllSpelled(START, toks);
    FedAllWellFormed(START, toks);
    assert StackTokens([]) + Tokens(Build(toks).value) == Tokens(Build(toks).value) && Spelled(START) + toks == toks;
  }

  /** The parser accepts a token sequence exactly if it spells a tree, which is then the one it
      builds: every if, else, endif, for and endfor is properly nested. */
  lemma AcceptsExactlyNested(toks: seq<Token>)
    ensures Build(toks).Some? <==> exists ts :: WellFormed(ts) && Tokens(ts) == toks
    ensures Build(toks).Some? ==> WellFormed(Build(toks).value) && Tokens(Build(toks).value) == toks
  {
    hide FedAll, Tokens, WellFormed;
    if Build(toks).Some? {
      BuiltSpells(toks);
    }
    if ts :| WellFormed(ts) && Tokens(ts) == toks {
      BuildTokens(ts);
    }
  }
}
