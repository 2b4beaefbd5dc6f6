/** mnamespace.c: the locations that are accepted, as prints of paths. */
module LocationPrint {
  import opened Options
  import opened Objects
  import opened ObjectPaths
  import opened Locations
  import opened Namespace

  /** The step can be written: a name of 1 to 255 characters without a dot or a bracket, or an index with a
      text of 1 to 31 characters that strtol reads as it. */
  predicate Writable(num: Strtol, step: Step, text: string) {
    match step
    case Name(s) => 1 <= |s| <= 255 && '.' !in s && '[' !in s
    case Index(n) => 1 <= |text| <= 31 && ']' !in text && num(text) == Some(n) && 0 <= n <= 0x7fff_ffff
  }

  /** Every step can be written, with `texts` for the indices. */
  predicate AllWritable(num: Strtol, path: Path, texts: seq<string>) {
    |texts| == |path| && forall i :: 0 <= i < |path| ==> Writable(num, path[i], texts[i])
  }

  function PrintStep(step: Step, text: string): string {
    match step
    case Name(s) => "." + s
    case Index(_) => "[" + text + "]"
  }

  function PrintSteps(path: Path, texts: seq<string>): string
    requires |texts| == |path|
  {
    if path == [] then "" else PrintStep(path[0], texts[0]) + PrintSteps(path[1..], texts[1..])
  }

  /** A location: a name, and then further names behind dots and indices in brackets. */
  function PrintPath(path: Path, texts: seq<string>): string
    requires |texts| == |path| && path != [] && path[0].Name?
  {
    path[0].name + PrintSteps(path[1..], texts[1..])
  }

  // ---------- what is printed is read back ----------

  lemma {:induction false} NameSpan(s: string, rest: string)
    requires '.' !in s && '[' !in s && (rest == "" || rest[0] == '.' || rest[0] == '[')
    ensures Span(s + rest, ".[") == |s|
  {
    assert forall i :: 0 <= i < |s| ==> (s + rest)[i] == s[i];
    assert rest != "" ==> (s + rest)[|s|] == rest[0];
    SpanIs(s + rest, ".[", |s|);
  }

  lemma {:induction false} IndexSpan(s: string, rest: string)
    requires ']' !in s
    ensures Span(s + "]" + rest, "]") == |s|
  {
    var t := s + "]" + rest;
    assert forall i :: 0 <= i < |s| ==> t[i] == s[i];
    assert t[|s|] == ']';
    SpanIs(t, "]", |s|);
  }

  lemma {:induction false} StepsStart(path: Path, texts: seq<string>)
    requires |texts| == |path| && path != []
    ensures var s := PrintSteps(path, texts);
      s != "" && s[0] == if path[0].Name? then '.' else '['
  {
  }

  lemma {:induction false} ReadName1(num: Strtol, name: string, rest: string)
    requires 1 <= |name| <= 255 && '.' !in name && '[' !in name && (rest == "" || rest[0] == '.' || rest[0] == '[')
    ensures ParseName(num, name + rest) == Then(Name(name), ParseTail(num, rest))
  {
    NameSpan(name, rest);
    assert (name + rest)[..|name|] == name && (name + rest)[|name|..] == rest;
  }

  lemma {:induction false} ReadIndex1(num: Strtol, n: nat, text: string, rest: string)
    requires Writable(num, Index(n), text)
    ensures ParseIndex(num, text + "]" + rest) == Then(Index(n), ParseTail(num, rest))
  {
    IndexSpan(text, rest);
    var t := text + "]" + rest;
    assert t[..|text|] == text && t[|text| + 1..] == rest;
  }

  lemma {:induction false} ReadSteps(num: Strtol, path: Path, texts: seq<string>)
    requires AllWritable(num, path, texts)
    ensures ParseTail(num, PrintSteps(path, texts)) == Some(path)
    decreases |path|
  {
    hide Writable, ParseName, ParseIndex, ParseTail, Span, PrintStep;
    if path == [] {
      NothingToRead(num);
    } else {
      var rest := PrintSteps(path[1..], texts[1..]);
      assert AllWritable(num, path[1..], texts[1..]);
      ReadSteps(num, path[1..], texts[1..]);
      if path[1..] != [] {
        StepsStart(path[1..], texts[1..]);
      }
      assert [path[0]] + path[1..] == path;
      ReadStep1(num, path[0], texts[0], rest);
    }
  }

  lemma NothingToRead(num: Strtol)
    ensures ParseTail(num, "") == Some([])
  {
  }

  lemma {:induction false} ReadStep1(num: Strtol, step: Step, text: string, rest: string)
    requires Writable(num, step, text) && (rest == "" || rest[0] == '.' || rest[0] == '[')
    ensures ParseTail(num, PrintStep(step, text) + rest) == Then(step, ParseTail(num, rest))
  {
    hide ParseName, ParseIndex, Span;
    match step
    case Name(s) =>
      assert ("." + s + rest)[1..] == s + rest;
      ReadName1(num, s, rest);
    case Index(n) =>
      assert ("[" + text + "]" + rest)[1..] == text + "]" + rest;
      ReadIndex1(num, n, text, rest);
  }

  /** Reading a printed location gives the path. */
  lemma {:induction false} PrintIsRead(num: Strtol, path: Path, texts: seq<string>)
    requires path != [] && path[0].Name? && AllWritable(num, path, texts)
    ensures ParseLocation(num, PrintPath(path, texts)) == Some(path)
  {
    var rest := PrintSteps(path[1..], texts[1..]);
    assert AllWritable(num, path[1..], texts[1..]);
    ReadSteps(num, path[1..], texts[1..]);
    if path[1..] != [] {
      StepsStart(path[1..], texts[1..]);
    }
    assert Writable(num, path[0], texts[0]);
    ReadName1(num, path[0].name, rest);
    assert [path[0]] + path[1..] == path;
  }

  // ---------- what is read was printed ----------

  lemma {:induction false} NameOf(num: Strtol, s: string) returns (texts: seq<string>)
    requires ParseName(num, s).Some?
    ensures var path := ParseName(num, s).value;
      path != [] && path[0].Name? && AllWritable(num, path, texts) && PrintPath(path, texts) == s
    decreases |s|, 1
  {
    var l := Span(s, ".[");
    var name := s[..l];
    assert forall i :: 0 <= i < l ==> name[i] == s[i];
    var rest := StepsOf(num, s[l..]);
    texts := [""] + rest;
    var path := ParseName(num, s).value;
    assert path == [Name(name)] + ParseTail(num, s[l..]).value;
    assert path[1..] == ParseTail(num, s[l..]).value && texts[1..] == rest;
    assert name + s[l..] == s;
    Front(num, Name(name), "", path[1..], rest);
  }

  lemma {:induction false} Front(num: Strtol, step: Step, text: string, path: Path, texts: seq<string>)
    requires Writable(num, step, text) && AllWritable(num, path, texts)
    ensures AllWritable(num, [step] + path, [text] + texts)
  {
  }

  lemma {:induction false} StepsOf(num: Strtol, s: string) returns (texts: seq<string>)
    requires ParseTail(num, s).Some?
    ensures AllWritable(num, ParseTail(num, s).value, texts) && PrintSteps(ParseTail(num, s).value, texts) == s
    decreases |s|, 0
  {
    if s == "" {
      texts := [];
    } else if s[0] == '.' {
      texts := NameOf(num, s[1..]);
      DotPrinted(ParseTail(num, s).value, texts, s);
    } else {
      texts := IndexOf(num, s[1..]);
      assert ['['] + s[1..] == s;
    }
  }

  lemma DotPrinted(path: Path, texts: seq<string>, s: string)
    requires |texts| == |path| && path != [] && path[0].Name?
    requires s != "" && s[0] == '.' && PrintPath(path, texts) == s[1..]
    ensures PrintSteps(path, texts) == s
  {
    assert "." + path[0].name + PrintSteps(path[1..], texts[1..]) == ['.'] + s[1..] == s;
  }

  lemma {:induction false} IndexOf(num: Strtol, s: string) returns (texts: seq<string>)
    requires ParseIndex(num, s).Some?
    ensures var path := ParseIndex(num, s).value;
      AllWritable(num, path, texts) && PrintSteps(path, texts) == "[" + s
    decreases |s|, 1
  {
    var l := Span(s, "]");
    var text, step := s[..l], Index(num(s[..l]).value);
    var rest := StepsOf(num, s[l + 1..]);
    texts := [text] + rest;
    IndexWritable(num, s, l);
    hide Writable, ParseTail, PrintStep, Span;
    var path := ParseTail(num, s[l + 1..]).value;
    assert ParseIndex(num, s) == Some([step] + path);
    Front(num, step, text, path, rest);
    PrintFront(step, text, path, rest);
    BracketPrinted(s, l);
  }

  lemma IndexWritable(num: Strtol, s: string, l: nat)
    requires l == Span(s, "]") < |s| && IndexOk(num, s[..l])
    ensures Writable(num, Index(num(s[..l]).value), s[..l]) && s[l] == ']'
  {
    assert forall i :: 0 <= i < l ==> s[..l][i] == s[i];
  }

  lemma BracketPrinted(s: string, l: nat)
    requires l < |s| && s[l] == ']'
    ensures forall n :: PrintStep(Index(n), s[..l]) + s[l + 1..] == "[" + s
  {
    assert "[" + s[..l] + "]" + s[l + 1..] == "[" + s;
  }

  lemma PrintFront(step: Step, text: string, path: Path, texts: seq<string>)
    requires |texts| == |path|
    ensures PrintSteps([step] + path, [text] + texts) == PrintStep(step, text) + PrintSteps(path, texts)
  {
    assert ([step] + path)[1..] == path && ([text] + texts)[1..] == texts;
  }

  /** A location is accepted exactly if it is the print of a path. */
  lemma {:induction false} AcceptsExactlyPrints(num: Strtol, location: string, path: Path)
    ensures ParseLocation(num, location) == Some(path)
            <==> path != [] && path[0].Name?
                 && exists texts :: AllWritable(num, path, texts) && PrintPath(path, texts) == location
  {
    if ParseLocation(num, location) == Some(path) {
      var texts := NameOf(num, location);
    }
    if path != [] && path[0].Name? {
      if texts :| AllWritable(num, path, texts) && PrintPath(path, texts) == location {
        PrintIsRead(num, path, texts);
      }
    }
  }

  /** A name with the lowest index, then a name and an index with its text in hexadecimal. */
  lemma {:induction false} TwoLocations(num: Strtol)
    requires num("0") == Some(0) && num("0x1f") == Some(31)
    ensures ParseLocation(num, "a[0]") == Some([Name("a"), Index(0)])
    ensures ParseLocation(num, "a.b[0x1f].c") == Some([Name("a"), Name("b"), Index(31), Name("c")])
  {
    hide ParseName, ParseTail;
    PrintIsRead(num, [Name("a"), Index(0)], ["", "0"]);
    PrintIsRead(num, [Name("a"), Name("b"), Index(31), Name("c")], ["", "", "0x1f", ""]);
    Printed("a[0]", "a.b[0x1f].c");
  }

  lemma {:induction false} Printed(s: string, t: string)
    requires s == "a[0]" && t == "a.b[0x1f].c"
    ensures PrintPath([Name("a"), Index(0)], ["", "0"]) == s
    ensures PrintPath([Name("a"), Name("b"), Index(31), Name("c")], ["", "", "0x1f", ""]) == t
  {
    assert PrintSteps([Index(0)], ["0"]) == "[0]";
    assert PrintSteps([Name("c")], [""]) == ".c";
    assert PrintSteps([Index(31), Name("c")], ["0x1f", ""]) == "[0x1f]" + ".c";
    assert PrintSteps([Name("b"), Index(31), Name("c")], ["", "0x1f", ""]) == ".b" + ("[0x1f]" + ".c");
  }

  // ---------- what they lead to ----------

  /** The entry with the key, and the item at the index. */
  lemma {:induction false} StepLeads(m: Mem, o: MObject, i: nat, rest: Path)
    requires ValidMem(m) && o in m && i < |m[o].items|
    ensures m[o].kind == DictKind ==> Resolve(m, o, [Name(m[o].keys[i])] + rest) == Resolve(m, m[o].items[i], rest)
    ensures m[o].kind == ArrayKind ==> Resolve(m, o, [Index(i)] + rest) == Resolve(m, m[o].items[i], rest)
  {
    assert m[o].Valid();
    assert forall step: Step :: ([step] + rest)[0] == step && ([step] + rest)[1..] == rest;
    if m[o].kind == DictKind {
      At(m[o], Name(m[o].keys[i]), i);
    }
  }

  /** A lookup finds what the path of the printed location leads to, and nothing for any other text. */
  lemma {:induction false} LookedExactly(m: Mem, num: Strtol, ns: MObject, location: string, path: Path,
                                         texts: seq<string>, obj: MObject)
    requires ValidMem(m)
    requires path != [] && path[0].Name? && AllWritable(num, path, texts)
    ensures Looked(m, num, ns, PrintPath(path, texts)) == Resolve(m, ns, path)
    ensures Looked(m, num, ns, location) == Some(obj) ==>
              exists p: Path, t :: p != [] && p[0].Name? && AllWritable(num, p, t) && PrintPath(p, t) == location
                                   && Resolve(m, ns, p) == Some(obj)
  {
    PrintIsRead(num, path, texts);
    if Looked(m, num, ns, location) == Some(obj) {
      var p := ParseLocation(num, location).value;
      AcceptsExactlyPrints(num, location, p);
      var t :| AllWritable(num, p, t) && PrintPath(p, t) == location;
    }
  }
}
