/** mnamespace.c and strstcpy.c: how a location such as `a.b[3].c` is read. */
module Locations {
  import opened Options
  import opened Objects
  import opened ObjectPaths

  /** How many characters come before the first stop character. */
  function Span(s: string, stop: string): (n: nat)
    ensures n <= |s| && (n < |s| ==> s[n] in stop)
    ensures forall i :: 0 <= i < n ==> s[i] !in stop
  {
    if s == "" || s[0] in stop then 0 else 1 + Span(s[1..], stop)
  }

  lemma {:induction false} SpanIs(s: string, stop: string, n: nat)
    requires n <= |s| && (n < |s| ==> s[n] in stop) && forall i :: 0 <= i < n ==> s[i] !in stop
    ensures Span(s, stop) == n
  {
    if n > 0 {
      SpanIs(s[1..], stop, n - 1);
    }
  }

  /** The first loop of strstcpy: copies while there is room for one more character behind. */
  method CopyFront(dst: array<char>, src: string, from: nat, stop: string) returns (k: nat)
    requires from <= |src|
    modifies dst
    ensures from + k <= |src| && forall i :: from <= i < from + k ==> src[i] !in stop
    ensures dst.Length == 0 ==> k == 0
    ensures dst.Length > 0 ==> k < dst.Length && dst[..k] == src[from..from + k] && dst[k..] == old(dst[k..])
    ensures k < dst.Length - 1 ==> from + k == |src| || src[from + k] in stop
  {
    k := 0;
    while k < dst.Length - 1 && from + k < |src| && src[from + k] !in stop
      invariant from + k <= |src| && (if dst.Length == 0 then k == 0 else k < dst.Length)
      invariant dst[..k] == src[from..from + k] && dst[k..] == old(dst[k..])
      invariant forall i :: from <= i < from + k ==> src[i] !in stop
    {
      ghost var was := dst[..];
      dst[k] := src[from + k];
      assert dst[..k + 1] == was[..k] + [src[from + k]];
      assert dst[k + 1..] == was[k..][1..] == old(dst[k..])[1..];
      k := k + 1;
    }
  }

  /** strstcpy: copies up to a stop character or the end of `src + from`, never past the room in
      `dst`, and counts what an unlimited copy would have copied. */
  method Strstcpy(dst: array<char>, src: string, from: nat, stop: string) returns (n: nat)
    requires from <= |src|
    modifies dst
    ensures n == Span(src[from..], stop)
    ensures dst.Length > 0 ==>
      var k := if n < dst.Length then n else dst.Length - 1;
      dst[..k] == src[from..][..k] && dst[k] == '\0' && dst[k + 1..] == old(dst[k + 1..])
  {
    var k := CopyFront(dst, src, from, stop);
    assert src[from..from + k] == src[from..][..k];
    if dst.Length > 0 {
      ghost var was := dst[..];
      assert was[k + 1..] == was[k..][1..] == old(dst[k..])[1..] == old(dst[k + 1..]);
      dst[k] := '\0';
      assert dst[..k] == was[..k] && dst[k + 1..] == was[k + 1..];
    }
    n := k;
    while from + n < |src| && src[from + n] !in stop
      invariant k <= n && from + n <= |src| && (n > k ==> k >= dst.Length - 1)
      invariant forall i :: from <= i < from + n ==> src[i] !in stop
      modifies {}
    {
      n := n + 1;
    }
    SpanIs(src[from..], stop, n);
  }

  const MAX_ID := 256
  const MAX_INDEX_TEXT := 32
  const INT_MAX := 0x7fff_ffff

  /** strtol(s, &end, 0), none if `end` is not at the end of `s`. */
  type Strtol = string -> Option<int>

  /** array_ndx, on the characters in front of the bracket. */
  predicate IndexOk(num: Strtol, s: string) {
    0 < |s| < MAX_INDEX_TEXT && num(s).Some? && 0 <= num(s).value <= INT_MAX
  }

  ghost function Then(step: Step, rest: Option<Path>): (r: Option<Path>)
    ensures r.Some? <==> rest.Some?
  {
    if rest.None? then None else Some([step] + rest.value)
  }

  /** A name, up to a dot, a bracket or the end. */
  ghost function ParseName(num: Strtol, s: string): Option<Path>
    decreases |s|, 1
  {
    var l := Span(s, ".[");
    if l == 0 || l >= MAX_ID then None else Then(Name(s[..l]), ParseTail(num, s[l..]))
  }

  /** What may follow a complete step. */
  ghost function ParseTail(num: Strtol, s: string): Option<Path>
    decreases |s|, 0
  {
    if s == "" then Some([])
    else if s[0] == '.' then ParseName(num, s[1..])
    else if s[0] == '[' then ParseIndex(num, s[1..])
    else None
  }

  ghost function ParseIndex(num: Strtol, s: string): Option<Path>
    decreases |s|, 1
  {
    var l := Span(s, "]");
    if l == |s| || !IndexOk(num, s[..l]) then None else Then(Index(num(s[..l]).value), ParseTail(num, s[l + 1..]))
  }

  /** The steps of a location; none if it is malformed. */
  ghost function ParseLocation(num: Strtol, location: string): Option<Path> {
    ParseName(num, location)
  }

  lemma TailShape(num: Strtol, s: string)
    requires s != "" && ParseTail(num, s).Some?
    ensures ParseTail(num, s).value != [] && (s[0] == '.' || s[0] == '[')
    ensures ParseTail(num, s).value[0].Name? <==> s[0] == '.'
  {
  }

  /** array_ndx: `skip` counts the characters read. */
  method ArrayNdx(num: Strtol, location: string, o: nat) returns (ndx: Option<nat>, skip: nat)
    requires o <= |location|
    ensures var s := location[o..];
      var l := Span(s, "]");
      if l == |s| || !IndexOk(num, s[..l]) then ndx == None
      else ndx == Some(num(s[..l]).value) && skip == l + 1
  {
    var buf := new char[MAX_INDEX_TEXT];
    skip := Strstcpy(buf, location, o, "]");
    if skip >= buf.Length {
      return None, 0;
    }
    if skip == 0 || o + skip == |location| {
      return None, skip;
    }
    var v := num(buf[..skip]);
    skip := skip + 1;
    if v.None? || v.value < 0 || v.value > INT_MAX {
      return None, skip;
    }
    ndx := Some(v.value);
  }

  /** The name at offset `at`, if it fits the buffer. */
  method ReadName(location: string, at: nat) returns (l: nat, name: string)
    requires at <= |location|
    ensures l == Span(location[at..], ".[") && (l < MAX_ID ==> name == location[at..][..l])
  {
    var buf := new char[MAX_ID];
    l := Strstcpy(buf, location, at, ".[");
    name := if l < buf.Length then buf[..l] else "";
  }
}
