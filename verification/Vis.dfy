/** vis.c with the flag VIS_OCTAL: making bytes visible, so that they can be read back. */
module Vis {
  import opened Options

  newtype Byte = b: int | 0 <= b < 256

  const BACKSLASH: Byte := 92
  const ZERO: Byte := 48

  /** isvisible: graphic ASCII characters, and space, tab and newline. */
  predicate Visible(c: Byte) {
    33 <= c <= 126 || c == 32 || c == 9 || c == 10
  }

  /** The characters vis writes for one byte. */
  function Enc(c: Byte): (e: seq<Byte>)
    ensures 1 <= |e| <= 4
  {
    if Visible(c) then (if c == BACKSLASH then [c, c] else [c])
    else [BACKSLASH, c / 64 % 8 + ZERO, c / 8 % 8 + ZERO, c % 8 + ZERO]
  }

  /** Graphic characters, space, tab and newline stay as they are, a backslash is doubled, and any other byte
      becomes a backslash and three octal digits. */
  lemma {:induction false} EncExactly(c: Byte)
    ensures 33 <= c <= 91 || 93 <= c <= 126 || c == 32 || c == 9 || c == 10 ==> Enc(c) == [c]
    ensures c == 92 ==> Enc(c) == [92, 92]
    ensures c <= 8 || 11 <= c <= 31 || 127 <= c ==>
              && |Enc(c)| == 4 && Enc(c)[0] == 92
              && (forall i :: 1 <= i <= 3 ==> 48 <= Enc(c)[i] <= 55)
              && (Enc(c)[1] as int - 48) * 64 + (Enc(c)[2] as int - 48) * 8 + (Enc(c)[3] as int - 48) == c as int
  {
    Digits(c);
  }

  function Encoded(s: seq<Byte>): seq<Byte> {
    if s == [] then [] else Enc(s[0]) + Encoded(s[1..])
  }

  predicate Octal(c: Byte) {
    ZERO <= c <= ZERO + 7
  }

  /** Reads an encoding from the left; none if it is no encoding. */
  function Decoded(e: seq<Byte>): Option<seq<Byte>>
    decreases |e|
  {
    if e == [] then Some([])
    else if e[0] != BACKSLASH then Put(e[0], Decoded(e[1..]))
    else if |e| >= 2 && e[1] == BACKSLASH then Put(BACKSLASH, Decoded(e[2..]))
    else if |e| >= 4 && Octal(e[1]) && e[1] <= ZERO + 3 && Octal(e[2]) && Octal(e[3]) then
      Put((e[1] - ZERO) * 64 + (e[2] - ZERO) * 8 + (e[3] - ZERO), Decoded(e[4..]))
    else None
  }

  function Put(c: Byte, rest: Option<seq<Byte>>): Option<seq<Byte>> {
    if rest.None? then None else Some([c] + rest.value)
  }

  lemma Digits(c: Byte)
    ensures c / 64 % 8 <= 3 && c / 8 % 8 <= 7 && c / 64 % 8 * 64 + c / 8 % 8 * 8 + c % 8 == c
  {
  }

  lemma DecodeOne(c: Byte, rest: seq<Byte>)
    ensures Decoded(Enc(c) + rest) == Put(c, Decoded(rest))
  {
    var e := Enc(c) + rest;
    assert e[|Enc(c)|..] == rest;
    if !Visible(c) {
      Digits(c);
      assert e[1] == c / 64 % 8 + ZERO && e[2] == c / 8 % 8 + ZERO && e[3] == c % 8 + ZERO;
    }
  }

  /** Every byte string can be read back from its encoding. */
  lemma {:induction false} RoundTrip(s: seq<Byte>)
    ensures Decoded(Encoded(s)) == Some(s)
  {
    if s != [] {
      RoundTrip(s[1..]);
      DecodeOne(s[0], Encoded(s[1..]));
      assert [s[0]] + s[1..] == s;
    }
  }

  /** Different byte strings have different encodings. */
  lemma Injective(s: seq<Byte>, t: seq<Byte>)
    requires Encoded(s) == Encoded(t)
    ensures s == t
  {
    RoundTrip(s);
    RoundTrip(t);
  }

  lemma {:induction false} EncodedJoin(s: seq<Byte>, t: seq<Byte>)
    ensures Encoded(s + t) == Encoded(s) + Encoded(t)
  {
    if s == [] {
      assert s + t == t;
    } else {
      assert (s + t)[1..] == s[1..] + t;
      EncodedJoin(s[1..], t);
    }
  }

  lemma EncodedNext(s: seq<Byte>, k: nat)
    requires k < |s|
    ensures Encoded(s[..k + 1]) == Encoded(s[..k]) + Enc(s[k])
    ensures |Encoded(s[k..])| == |Enc(s[k])| + |Encoded(s[k + 1..])|
  {
    assert s[..k + 1] == s[..k] + [s[k]] && [s[k]][1..] == [];
    EncodedJoin(s[..k], [s[k]]);
    assert s[k..][1..] == s[k + 1..];
  }

  // ---------- vis and strnvis ----------

  /** vis: writes the characters at `at`, and a terminator. */
  method VisAt(dst: array<Byte>, at: nat, c: Byte) returns (end: nat)
    requires at + |Enc(c)| < dst.Length
    modifies dst
    ensures end == at + |Enc(c)| && dst[at..end] == Enc(c) && dst[end] == 0
    ensures dst[..at] == old(dst[..at]) && dst[end + 1..] == old(dst[end + 1..])
  {
    end := at;
    if Visible(c) {
      dst[end] := c;
      end := end + 1;
      if c == BACKSLASH {
        dst[end] := BACKSLASH;
        end := end + 1;
      }
    } else {
      dst[end] := BACKSLASH;
      dst[end + 1] := c / 64 % 8 + ZERO;
      dst[end + 2] := c / 8 % 8 + ZERO;
      dst[end + 3] := c % 8 + ZERO;
      end := end + 4;
    }
    dst[end] := 0;
  }

  /** No longer prefix of whole encodings fits. */
  ghost predicate Longest(src: seq<Byte>, k: nat, room: nat) {
    && k <= |src| && |Encoded(src[..k])| <= room
    && (k < |src| ==> |Encoded(src[..k + 1])| > room)
  }

  lemma {:induction false} LongestIsLongest(src: seq<Byte>, k: nat, room: nat, j: nat)
    requires Longest(src, k, room) && k < j <= |src|
    ensures |Encoded(src[..j])| > room
    decreases j
  {
    if j > k + 1 {
      LongestIsLongest(src, k, room, j - 1);
      EncodedNext(src, j - 1);
    }
  }

  /** strnvis: the longest prefix of whole encodings that leaves room for the terminator, and the
      length of the full encoding, except that the length is 0 when there is room for the terminator
      only. */
  method Strnvis(dst: array<Byte>, src: seq<Byte>, siz: nat) returns (n: nat, ghost k: nat)
    requires siz <= dst.Length && 0 !in src
    modifies dst
    ensures siz > 0 ==> Longest(src, k, siz - 1) && dst[..|Encoded(src[..k])|] == Encoded(src[..k])
    ensures siz > 0 ==> dst[|Encoded(src[..k])|] == 0
    ensures n == if siz == 1 then 0 else |Encoded(src)|
    ensures dst[siz..] == old(dst[siz..])
  {
    var d, p, i := 0, 0, 0;
    var end := siz - 1;
    var stuck := false;
    hide Encoded, Enc;
    while p < |src| && d < end && !stuck
      invariant 0 <= p <= |src| && 0 <= d && (d <= end || d == 0) && 0 <= i <= 4
      invariant d == |Encoded(src[..p])| && dst[..d] == Encoded(src[..p]) && dst[siz..] == old(dst[siz..])
      invariant (d > 0 ==> i > 0) && (end <= 0 ==> i == 0 && p == 0 && !stuck)
      invariant stuck ==> p < |src| && d + |Enc(src[p])| > end && d + i > end
      decreases |src| - p, !stuck
    {
      EncodedNext(src, p);
      d, i, stuck := PutNext(dst, d, end, src[p]);
      p := if stuck then p else p + 1;
    }
    if siz > 0 {
      dst[d] := 0;
    }
    k := p;
    n := d;
    EncodedJoin(src[..p], src[p..]);
    assert src[..p] + src[p..] == src;
    if p < |src| {
      EncodedNext(src, p);
      EncSize(src[p]);
    } else {
      EncodedEmpty(src, p);
    }
    if d + i > end {
      var rest := RestLength(src, p);
      n := d + rest;
    }
  }

  lemma EncodedEmpty(src: seq<Byte>, p: nat)
    requires p == |src|
    ensures Encoded(src[p..]) == []
  {
  }

  lemma EncSize(c: Byte)
    ensures |Enc(c)| >= 1
  {
  }

  /** One round of the loop: the whole encoding of `c`, or nothing. `i` is the size the source keeps,
      which counts one for a backslash that fits. */
  method PutNext(dst: array<Byte>, d: nat, end: nat, c: Byte) returns (d': nat, i: nat, stuck: bool)
    requires d < end < dst.Length
    modifies dst
    ensures 1 <= i <= 4 && dst[end + 1..] == old(dst[end + 1..])
    ensures stuck == (d + |Enc(c)| > end)
    ensures stuck ==> d' == d && dst[..d] == old(dst[..d]) && d + i > end
    ensures !stuck ==> d' == d + |Enc(c)| && dst[..d'] == old(dst[..d]) + Enc(c)
  {
    d', i, stuck := d, 1, false;
    if Visible(c) {
      dst[d] := c;
      d' := d + 1;
      if c == BACKSLASH {
        if d' < end {
          dst[d'] := BACKSLASH;
          d' := d' + 1;
        } else {
          d', i, stuck := d' - 1, 2, true;
        }
      }
    } else {
      var tbuf := new Byte[5];
      i := VisAt(tbuf, 0, c);
      if d + i <= end {
        forall j | 0 <= j < i {
          dst[d + j] := tbuf[j];
        }
        d' := d + i;
        assert dst[d..d'] == tbuf[0..i];
      } else {
        stuck := true;
      }
    }
  }

  /** What the rest of the string takes. */
  method RestLength(src: seq<Byte>, from: nat) returns (n: nat)
    requires from <= |src|
    ensures n == |Encoded(src[from..])|
  {
    var tbuf := new Byte[5];
    var p := from;
    n := 0;
    while p < |src|
      invariant from <= p <= |src| && n + |Encoded(src[p..])| == |Encoded(src[from..])|
    {
      EncodedNext(src, p);
      var l := VisAt(tbuf, 0, src[p]);
      n, p := n + l, p + 1;
    }
  }
}
