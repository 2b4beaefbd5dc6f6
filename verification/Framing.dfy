/** buffer.h and cnct_io.c: a receive buffer, and cutting requests out of it. */
module Framing {
  import opened Options
  import opened Sequences
  import opened WriteQueue

  const TELNET_SUFFIX := "\r\n"

  /** `t` stands in `s` at place `i`. */
  predicate OccursAt(s: string, t: string, i: nat) {
    i + |t| <= |s| && s[i..i + |t|] == t
  }

  lemma Mismatch(s: string, t: string, i: nat, j: nat)
    requires i + |t| <= |s| && j < |t| && s[i + j] != t[j]
    ensures !OccursAt(s, t, i)
  {
    assert s[i..i + |t|][j] == s[i + j];
  }

  class Buffer {
    const buf: array<char>
    var pos: nat

    ghost predicate Valid()
      reads this
    {
      pos <= buf.Length
    }

    /** What has been received and not yet cut. */
    ghost function Contents(): string
      requires Valid()
      reads this, buf
    {
      buf[..pos]
    }

    constructor (size: nat)
      ensures Valid() && Contents() == "" && buf.Length == size && fresh(buf)
    {
      buf, pos := new char[size], 0;
    }

    /** buffer_space */
    method Space() returns (n: nat)
      requires Valid()
      ensures n == buf.Length - pos
    {
      n := buf.Length - pos;
    }

    /** The receive call writes at the start of the free space, and buffer_shift takes it in. */
    method Receive(chunk: string) returns (ok: bool)
      requires Valid()
      modifies this`pos, buf
      ensures Valid() && ok == (old(pos) + |chunk| <= buf.Length)
      ensures Contents() == if ok then old(Contents()) + chunk else old(Contents())
    {
      if buf.Length < pos + |chunk| {
        return false;
      }
      forall i | 0 <= i < |chunk| {
        buf[pos + i] := chunk[i];
      }
      pos := pos + |chunk|;
      ok := true;
    }

    /** buffer_clean: drops the first `len` bytes. */
    method Clean(len: nat)
      requires Valid() && len <= pos
      modifies this`pos, buf
      ensures Valid() && Contents() == old(Contents())[len..]
    {
      forall i | 0 <= i < pos - len {
        buf[i] := buf[len + i];
      }
      pos := pos - len;
    }

    /** buffer_cut: takes the first `len` bytes out, if there are so many. */
    method Cut(len: nat) returns (ok: bool, cut: string)
      requires Valid()
      modifies this`pos, buf
      ensures Valid() && ok == (len <= old(pos))
      ensures ok ==> |cut| == len && cut + Contents() == old(Contents())
      ensures !ok ==> Contents() == old(Contents())
    {
      if pos < len {
        return false, "";
      }
      cut := buf[..len];
      Clean(len);
      ok := true;
    }

    /** buffer_find: the first place of the string, or -1. */
    method Find(t: string) returns (r: int)
      requires Valid()
      ensures r == -1 || (r >= 0 && OccursAt(Contents(), t, r))
      ensures forall i: nat :: (r == -1 || i < r) ==> !OccursAt(Contents(), t, i)
    {
      var l := |t|;
      if l > pos {
        return -1;
      }
      var i := 0;
      while i < pos - l + 1
        invariant 0 <= i <= pos - l + 1
        invariant forall k: nat :: k < i ==> !OccursAt(Contents(), t, k)
      {
        var j := 0;
        while j < l && buf[i + j] == t[j]
          invariant 0 <= j <= l && buf[i..i + j] == t[..j]
        {
          j := j + 1;
        }
        assert OccursAt(Contents(), t, i) ==> Contents()[i..i + l] == t;
        if j == l {
          assert Contents()[i..i + l] == buf[i..i + l] && t[..l] == t;
          return i;
        }
        Mismatch(Contents(), t, i, j);
        i := i + 1;
      }
      r := -1;
    }
  }

  /** A request ends with CRLF, and has no CRLF before that. */
  predicate IsRequest(line: string) {
    |line| >= 2 && OccursAt(line, TELNET_SUFFIX, |line| - 2)
    && forall i: nat :: i < |line| - 2 ==> !OccursAt(line, TELNET_SUFFIX, i)
  }

  /** That is: carriage return and line feed at its end, and nowhere before. */
  lemma {:induction false} RequestExactly(line: string)
    ensures IsRequest(line) <==>
            && |line| >= 2 && line[|line| - 2] == '\r' && line[|line| - 1] == '\n'
            && forall i :: 0 <= i < |line| - 2 ==> !(line[i] == '\r' && line[i + 1] == '\n')
  {
    var n := |line| - 2;
    forall i: nat | i <= n ensures OccursAt(line, TELNET_SUFFIX, i) <==> line[i] == '\r' && line[i + 1] == '\n' {
      var part := line[i..i + 2];
      assert part == TELNET_SUFFIX <==> part[0] == '\r' && part[1] == '\n';
    }
    if n >= 0 {
      assert OccursAt(line, TELNET_SUFFIX, n) <==> line[n] == '\r' && line[n + 1] == '\n';
    }
    if IsRequest(line) {
      forall i | 0 <= i < n ensures !(line[i] == '\r' && line[i + 1] == '\n') {
        assert !OccursAt(line, TELNET_SUFFIX, i);
      }
    }
    if n >= 0 && line[n] == '\r' && line[n + 1] == '\n'
       && forall i :: 0 <= i < n ==> !(line[i] == '\r' && line[i + 1] == '\n') {
      forall i: nat | i < n ensures !OccursAt(line, TELNET_SUFFIX, i) {
        assert !(line[i] == '\r' && line[i + 1] == '\n');
      }
      assert IsRequest(line);
    }
  }

  class Connection {
    const input: Buffer
    var requests: seq<string>
    ghost var received: string

    /** Nothing received is lost or repeated: it has been cut into requests, or is in the buffer. */
    ghost predicate Valid()
      reads this, input, input.buf
    {
      && input.Valid() && Joined(requests) + input.Contents() == received
      && (forall i :: 0 <= i < |requests| ==> IsRequest(requests[i]))
    }

    constructor (size: nat)
      ensures Valid() && received == "" && requests == [] && fresh(input) && fresh(input.buf)
    {
      input := new Buffer(size);
      requests, received := [], "";
    }

    /** process_cnct: one receive call yields `chunk`, or fails; at most one request is cut and handed
        on, and `served` says whether it was carried out. */
    method ProcessCnct(chunk: Option<string>, served: bool) returns (r: int)
      requires Valid() && (chunk.Some? ==> |chunk.value| <= input.buf.Length - input.pos)
      modifies this, input`pos, input.buf
      ensures Valid()
      ensures var taken := chunk.Some? && old(input.pos) < input.buf.Length;
        && received == old(received) + (if taken then chunk.value else "")
        && (!taken ==> r == -1 && requests == old(requests))
        && (taken && requests == old(requests) ==> r == 0)
        && (taken && requests != old(requests) ==> r == if served then 1 else -1)
        && (r == 0 && chunk.value != "" ==> forall i: nat :: !OccursAt(input.Contents(), TELNET_SUFFIX, i))
      ensures requests == old(requests)
              || (|requests| == |old(requests)| + 1 && requests[..|old(requests)|] == old(requests))
    {
      var spc := input.Space();
      if spc == 0 || chunk.None? {
        return -1;
      }
      if chunk.value == "" {
        return 0;
      }
      ghost var old_contents := input.Contents();
      var _ := input.Receive(chunk.value);
      Assoc(Joined(requests), old_contents, chunk.value);
      received := received + chunk.value;
      var cut := CutRequest();
      r := if !cut then 0 else if served then 1 else -1;
    }

    /** Cuts the first request out of the buffer, if there is one. */
    method CutRequest() returns (cut: bool)
      requires Valid()
      modifies this, input`pos, input.buf
      ensures Valid() && received == old(received)
      ensures cut ==> |requests| == |old(requests)| + 1 && requests[..|old(requests)|] == old(requests)
      ensures !cut ==> requests == old(requests) && forall i: nat :: !OccursAt(input.Contents(), TELNET_SUFFIX, i)
    {
      ghost var contents := input.Contents();
      var pos := input.Find(TELNET_SUFFIX);
      if pos == -1 {
        return false;
      }
      var _, line := input.Cut(pos + 2);
      assert line == contents[..pos + 2];
      FirstIsRequest(contents, pos, line);
      JoinedSnoc(requests, line);
      Assoc(Joined(requests), line, input.Contents());
      requests := requests + [line];
      cut := true;
    }
  }

  lemma FirstIsRequest(s: string, pos: nat, line: string)
    requires OccursAt(s, TELNET_SUFFIX, pos) && line == s[..pos + 2]
    requires forall i: nat :: i < pos ==> !OccursAt(s, TELNET_SUFFIX, i)
    ensures IsRequest(line)
  {
    forall i: nat | i < pos ensures !OccursAt(line, TELNET_SUFFIX, i) {
      assert |TELNET_SUFFIX| == 2 && line[i..i + 2] == s[i..i + 2] && !OccursAt(s, TELNET_SUFFIX, i);
    }
    assert line[pos..pos + 2] == s[pos..pos + 2];
  }
}
