/** process.c: cutting a stream into lines, with a fixed buffer. */
module LineSplitter {

  const OVERRUN := "..."

  // ---------- the line machine, one character at a time ----------

  datatype Machine = Machine(partial: string, out: seq<string>)

  /** A partial line that fills the buffer of `size` is given up, and becomes the mark. */
  function Relieved(size: nat, s: string): string {
    if |s| + 1 == size then OVERRUN else s
  }

  function Fed(size: nat, m: Machine, c: char): Machine {
    var s := Relieved(size, m.partial) + [c];
    if c == '\n' then Machine("", m.out + [s]) else Machine(s, m.out)
  }

  function FedAll(size: nat, m: Machine, s: string): Machine {
    if s == "" then m else Fed(size, FedAll(size, m, s[..|s| - 1]), s[|s| - 1])
  }

  lemma {:induction false} FedJoin(size: nat, m: Machine, s: string, t: string)
    ensures FedAll(size, m, s + t) == FedAll(size, FedAll(size, m, s), t)
  {
    if t == "" {
      assert s + t == s;
    } else {
      assert (s + t)[..|s + t| - 1] == s + t[..|t| - 1];
      FedJoin(size, m, s, t[..|t| - 1]);
    }
  }

  // ---------- lines of a string ----------

  /** The part behind the last newline. */
  function Tail(s: string): (r: string)
    ensures '\n' !in r && |r| <= |s|
  {
    if s == "" || s[|s| - 1] == '\n' then "" else Tail(s[..|s| - 1]) + [s[|s| - 1]]
  }

  /** The lines, each with its newline. */
  function Lines(s: string): seq<string> {
    if s == "" then []
    else
      var init := s[..|s| - 1];
      if s[|s| - 1] == '\n' then Lines(init) + [Tail(init) + "\n"] else Lines(init)
  }

  lemma {:induction false} NoLine(s: string)
    requires '\n' !in s
    ensures Lines(s) == [] && Tail(s) == s
  {
    if s != "" {
      NoLine(s[..|s| - 1]);
    }
  }

  lemma {:induction false} FirstLine(s: string, t: string)
    requires '\n' !in s
    ensures Lines(s + "\n" + t) == [s + "\n"] + Lines(t) && Tail(s + "\n" + t) == Tail(t)
  {
    var all := s + "\n" + t;
    if t == "" {
      assert all[..|all| - 1] == s;
      NoLine(s);
    } else {
      assert all[..|all| - 1] == s + "\n" + t[..|t| - 1];
      FirstLine(s, t[..|t| - 1]);
    }
  }

  /** As long as the buffer has room, the machine cuts lines like `Lines`. */
  lemma {:induction false} MachineLines(size: nat, m: Machine, s: string, chunk: string)
    requires size >= 5 && s == Relieved(size, m.partial) && '\n' !in s && |s| + 1 < size
    requires 0 < |chunk| && |s| + |chunk| < size
    ensures FedAll(size, m, chunk) == Machine(Tail(s + chunk), m.out + Lines(s + chunk))
  {
    var init := chunk[..|chunk| - 1];
    assert (s + chunk)[..|s + chunk| - 1] == s + init;
    if init == "" {
      NoLine(s);
      assert s + init == s;
      assert FedAll(size, m, init) == m;
    } else {
      MachineLines(size, m, s, init);
    }
  }

  /** The machine cannot tell a full partial line from the mark that replaces it. */
  lemma {:induction false} SameRelieved(size: nat, m: Machine, m': Machine, s: string)
    requires m.out == m'.out && Relieved(size, m.partial) == Relieved(size, m'.partial) && s != ""
    ensures FedAll(size, m, s) == FedAll(size, m', s)
  {
    if |s| > 1 {
      SameRelieved(size, m, m', s[..|s| - 1]);
    } else {
      assert s[..|s| - 1] == "";
    }
  }

  /** Without a newline and with room, the characters join the partial line. */
  lemma {:induction false} Joins(size: nat, m: Machine, s: string)
    requires '\n' !in s && |m.partial| + |s| < size
    ensures FedAll(size, m, s) == Machine(m.partial + s, m.out)
  {
    if s == "" {
      assert m.partial + s == m.partial;
    } else {
      var init := s[..|s| - 1];
      Joins(size, m, init);
      assert m.partial + init + [s[|s| - 1]] == m.partial + s;
    }
  }

  /** A line that fills the buffer is lost up to there: what follows is handed on behind three dots. */
  lemma {:induction false} OverrunLine(size: nat, s: string, t: string)
    requires '\n' !in s && '\n' !in t && |s| + 1 == size && t != "" && |t| + 4 < size
    ensures FedAll(size, Machine("", []), s + (t + "\n")) == Machine("", ["..." + t + "\n"])
  {
    Joins(size, Machine("", []), s);
    assert "" + s == s;
    FedJoin(size, Machine("", []), s, t + "\n");
    SameRelieved(size, Machine(s, []), Machine("...", []), t + "\n");
    FedJoin(size, Machine("...", []), t, "\n");
    Joins(size, Machine("...", []), t);
    assert "\n"[..0] == "";
  }

  /** While no partial line fills the buffer, the messages are the lines of the stream. */
  lemma {:induction false} ShortLines(size: nat, s: string)
    requires forall k :: 0 <= k <= |s| ==> |Tail(s[..k])| + 1 < size
    ensures FedAll(size, Machine("", []), s) == Machine(Tail(s), Lines(s))
  {
    if s != "" {
      var init := s[..|s| - 1];
      assert |Tail(init)| + 1 < size;
      forall k | 0 <= k <= |init| ensures |Tail(init[..k])| + 1 < size {
        assert init[..k] == s[..k];
      }
      ShortLines(size, init);
    }
  }

  // ---------- process_buffer ----------

  /** The messages handed to the callback. */
  class Log {
    var messages: seq<string>

    method Process(message: string)
      modifies this
      ensures messages == old(messages) + [message]
    {
      messages := messages + [message];
    }
  }

  /** The buffer holds the C string `s`. */
  ghost predicate HasString(buf: array<char>, s: string)
    reads buf
  {
    |s| < buf.Length && buf[..|s|] == s && buf[|s|] == '\0' && '\0' !in s
  }

  /** The buffer starts with `s`, terminated or not. */
  ghost predicate Starts(buf: array<char>, s: string)
    reads buf
  {
    |s| < buf.Length && buf[..|s|] == s
  }

  /** strchr(cur, '\n'), or the end of the string. */
  method FindNewline(buf: array<char>, cur: nat, ghost s: string) returns (ln: nat)
    requires HasString(buf, s) && cur <= |s|
    ensures cur <= ln <= |s| && '\n' !in s[cur..ln] && (ln < |s| ==> s[ln] == '\n')
    ensures buf[ln] == '\n' <==> ln < |s|
  {
    ln := cur;
    while buf[ln] != '\0' && buf[ln] != '\n'
      invariant cur <= ln <= |s| && '\n' !in s[cur..ln]
      decreases |s| - ln
    {
      ln := ln + 1;
    }
  }

  /** Hands over every complete line, and moves what is left to the front. */
  method ProcessBuffer(buf: array<char>, log: Log, ghost s: string) returns (n: nat)
    requires HasString(buf, s)
    modifies buf, log
    ensures log.messages == old(log.messages) + Lines(s)
    ensures HasString(buf, Tail(s)) && n == |Tail(s)|
  {
    var cur := 0;
    var ln := FindNewline(buf, cur, s);
    ghost var told: seq<string> := [];
    assert s[0..] == s;
    hide Lines, Tail;
    while buf[ln] == '\n'
      invariant cur <= ln <= |s| && '\n' !in s[cur..ln] && (ln < |s| ==> s[ln] == '\n')
      invariant buf[ln] == '\n' <==> ln < |s|
      invariant Lines(s) == told + Lines(s[cur..]) && Tail(s) == Tail(s[cur..])
      invariant log.messages == old(log.messages) + told
      modifies log
      decreases |s| - cur
    {
      SameSlice(buf, s, cur, ln + 1);
      log.Process(buf[cur..ln + 1]);
      NextLine(s, cur, ln);
      Regroup(old(log.messages), told, s[cur..ln + 1], Lines(s[ln + 1..]));
      told := told + [s[cur..ln + 1]];
      cur := ln + 1;
      ln := FindNewline(buf, cur, s);
    }
    assert s[cur..ln] == s[cur..];
    NoLine(s[cur..]);
    n := ln - cur;
    MoveFront(buf, cur, n, s);
  }

  lemma {:induction false} SameSlice(buf: array<char>, s: string, i: nat, j: nat)
    requires HasString(buf, s) && i <= j <= |s|
    ensures buf[i..j] == s[i..j]
  {
    forall k | 0 <= k < j - i ensures buf[i..j][k] == s[i..j][k] {
      assert buf[..|s|][i + k] == s[i + k];
    }
  }

  lemma {:induction false} NextLine(s: string, cur: nat, ln: nat)
    requires cur <= ln < |s| && '\n' !in s[cur..ln] && s[ln] == '\n'
    ensures Lines(s[cur..]) == [s[cur..ln + 1]] + Lines(s[ln + 1..]) && Tail(s[cur..]) == Tail(s[ln + 1..])
  {
    assert s[cur..] == s[cur..ln] + "\n" + s[ln + 1..] && s[cur..ln + 1] == s[cur..ln] + "\n";
    FirstLine(s[cur..ln], s[ln + 1..]);
  }

  lemma {:induction false} Regroup(a: seq<string>, b: seq<string>, x: string, c: seq<string>)
    ensures a + b + [x] == a + (b + [x]) && b + ([x] + c) == b + [x] + c
  {
  }

  /** memmove(buf, cur, n + 1) */
  method MoveFront(buf: array<char>, cur: nat, n: nat, ghost s: string)
    requires HasString(buf, s) && cur + n == |s|
    modifies buf
    ensures HasString(buf, s[cur..])
  {
    forall i | 0 <= i <= n {
      buf[i] := buf[cur + i];
    }
  }

  // ---------- reading ----------

  datatype ReadResult = Data(chunk: string) | End | Interrupted | Again | Failed

  /** The other end of the file descriptor. Each read yields any part of what is left, or nothing for
      one of the usual reasons; it is interrupted or has to wait finitely often. */
  class Stream {
    var left: string
    var hiccups: nat
    ghost var last: ReadResult

    method Read(room: nat) returns (r: ReadResult)
      requires room > 0
      modifies this
      ensures r.Data? ==> 0 < |r.chunk| <= room && old(left) == r.chunk + left && hiccups == old(hiccups)
      ensures !r.Data? ==> left == old(left)
      ensures r == Interrupted || r == Again ==> hiccups < old(hiccups)
      ensures last == r
    {
      r :| r == End || r == Failed || (hiccups > 0 && (r == Interrupted || r == Again))
           || (left != "" && r == Data(left[..1]));
      if r == Interrupted || r == Again {
        hiccups := hiccups - 1;
      } else if r.Data? {
        var k: nat :| 1 <= k <= room && k <= |left|;
        r := Data(left[..k]);
        left := left[k..];
      }
      last := r;
    }
  }

  /** strcpy(buf, OVERRUN) */
  method Mark(buf: array<char>)
    requires buf.Length >= 5
    modifies buf
    ensures HasString(buf, OVERRUN)
  {
    buf[0], buf[1], buf[2], buf[3] := '.', '.', '.', '\0';
  }

  method Store(buf: array<char>, pos: nat, chunk: string, ghost s: string)
    requires pos == |s| && pos + |chunk| < buf.Length && buf[..pos] == s && '\0' !in s && '\0' !in chunk
    modifies buf
    ensures HasString(buf, s + chunk)
  {
    forall i | 0 <= i < |chunk| {
      buf[pos + i] := chunk[i];
    }
    buf[pos + |chunk|] := '\0';
  }

  /** What the reader knows: the machine up to the mark, and the messages. */
  ghost predicate InStep(size: nat, s: string, m: Machine) {
    Relieved(size, s) == Relieved(size, m.partial) && '\n' !in s && '\0' !in s && |s| < size
  }

  lemma {:induction false} ChunkStep(size: nat, s: string, m: Machine, chunk: string)
    requires size >= 5 && InStep(size, s, m) && s == Relieved(size, s) && chunk != "" && |s| + |chunk| < size
    requires '\0' !in chunk
    ensures FedAll(size, m, chunk) == Machine(Tail(s + chunk), m.out + Lines(s + chunk))
    ensures '\0' !in Tail(s + chunk)
  {
    SameRelieved(size, m, Machine(s, m.out), chunk);
    MachineLines(size, Machine(s, m.out), s, chunk);
    TailPart(s + chunk);
  }

  lemma {:induction false} TailPart(s: string)
    requires '\0' !in s
    ensures '\0' !in Tail(s)
  {
    if s != "" && s[|s| - 1] != '\n' {
      TailPart(s[..|s| - 1]);
    }
  }

  /** A full buffer gives its partial line up. */
  method Relieve(buf: array<char>, pos: nat, ghost s: string, ghost m: Machine) returns (pos': nat, ghost s': string)
    requires buf.Length >= 5 && pos == |s| && InStep(buf.Length, s, m) && Starts(buf, s)
    modifies buf
    ensures pos' == |s'| && pos' + 1 < buf.Length && Starts(buf, s') && (old(HasString(buf, s)) ==> HasString(buf, s'))
    ensures s' == Relieved(buf.Length, s) == Relieved(buf.Length, s') && InStep(buf.Length, s', m)
  {
    pos', s' := pos, s;
    if buf.Length - pos - 1 == 0 {
      Mark(buf);
      pos', s' := |OVERRUN|, OVERRUN;
    }
  }

  /** A nonempty read, stored and cut into lines. */
  method TakeChunk(buf: array<char>, pos: nat, chunk: string, log: Log, ghost s: string, ghost m: Machine)
    returns (n: nat)
    requires buf.Length >= 5 && pos == |s| && chunk != "" && '\0' !in chunk && pos + |chunk| < buf.Length
    requires Starts(buf, s) && InStep(buf.Length, s, m) && s == Relieved(buf.Length, s)
    modifies buf, log
    ensures var m' := FedAll(buf.Length, m, chunk);
      && HasString(buf, m'.partial) && Starts(buf, m'.partial) && n == |m'.partial|
      && InStep(buf.Length, m'.partial, m')
      && Reported(old(log.messages), log.messages, buf.Length, m, chunk, m')
  {
    Store(buf, pos, chunk, s);
    ChunkStep(buf.Length, s, m, chunk);
    n := ProcessBuffer(buf, log, s + chunk);
  }

  /** The messages of a run of the machine on `got`, after the messages that were there. */
  ghost predicate Reported(was: seq<string>, now: seq<string>, size: nat, m: Machine, got: string, m': Machine) {
    m' == FedAll(size, m, got) && m.out <= m'.out && now == was + m'.out[|m.out|..]
  }

  lemma {:induction false} ReportedNext(was: seq<string>, now: seq<string>, next: seq<string>, size: nat,
                                        m: Machine, got: string, m1: Machine, chunk: string, m2: Machine)
    requires Reported(was, now, size, m, got, m1) && Reported(now, next, size, m1, chunk, m2)
    ensures Reported(was, next, size, m, got + chunk, m2)
  {
    FedJoin(size, m, got, chunk);
    hide FedAll;
    SliceChain(m.out, m1.out, m2.out, was);
  }

  lemma {:induction false} SliceChain(a: seq<string>, b: seq<string>, c: seq<string>, was: seq<string>)
    requires a <= b <= c
    ensures was + b[|a|..] + c[|b|..] == was + c[|a|..]
  {
  }

  lemma {:induction false} NothingReported(was: seq<string>, size: nat, m: Machine)
    ensures Reported(was, was, size, m, "", m)
  {
  }

  /** One round of either loop: makes room, reads, and cuts what was read into lines. */
  method Round(stream: Stream, log: Log, buf: array<char>, pos: nat, ghost s: string, ghost m: Machine)
    returns (r: ReadResult, pos': nat, ghost s': string, ghost chunk: string, ghost m': Machine)
    requires buf.Length >= 5 && '\0' !in stream.left && pos == |s| && InStep(buf.Length, s, m) && Starts(buf, s)
    modifies stream, log, buf
    ensures old(stream.left) == chunk + stream.left && '\0' !in stream.left
    ensures r.Data? || r == Interrupted ==> |stream.left| + stream.hiccups < old(|stream.left| + stream.hiccups)
    ensures Reported(old(log.messages), log.messages, buf.Length, m, chunk, m') && stream.last == r
    ensures pos' == |s'| && InStep(buf.Length, s', m') && Starts(buf, s')
    ensures old(HasString(buf, s)) ==> HasString(buf, s')
  {
    hide FedAll, Reported, Relieved, InStep, Starts, HasString;
    chunk, m' := "", m;
    NothingReported(log.messages, buf.Length, m);
    pos', s' := Relieve(buf, pos, s, m);
    r := stream.Read(buf.Length - pos' - 1);
    if r.Data? {
      chunk := r.chunk;
      pos' := TakeChunk(buf, pos', r.chunk, log, s', m);
      m' := FedAll(buf.Length, m, r.chunk);
      s' := m'.partial;
    }
  }

  lemma {:induction false} MoreGot(all: string, got: string, left: string, chunk: string, left': string)
    requires all == got + left && left == chunk + left'
    ensures all == (got + chunk) + left'
  {
  }

  /** process_input: whatever the sizes of the reads, the messages are those of the line machine on
      the characters read. */
  method ProcessInput(stream: Stream, log: Log, size: nat) returns (ghost got: string, ghost m: Machine)
    requires size >= 5 && '\0' !in stream.left
    modifies stream, log
    ensures old(stream.left) == got + stream.left && !stream.last.Data? && stream.last != Interrupted
    ensures Reported(old(log.messages), log.messages, size, Machine("", []), got, m)
  {
    var buf := new char[size];
    got, m := ReadLoop(stream, log, buf);
  }

  method ReadLoop(stream: Stream, log: Log, buf: array<char>) returns (ghost got: string, ghost m: Machine)
    requires buf.Length >= 5 && '\0' !in stream.left
    modifies stream, log, buf
    ensures old(stream.left) == got + stream.left && !stream.last.Data? && stream.last != Interrupted
    ensures Reported(old(log.messages), log.messages, buf.Length, Machine("", []), got, m)
  {
    var pos := 0;
    ghost var s := "";
    got, m := "", Machine("", []);
    assert InStep(buf.Length, s, m);
    assert Starts(buf, s);
    hide FedAll, Reported, Relieved, InStep, Starts, HasString;
    NothingReported(log.messages, buf.Length, m);
    while true
      invariant pos == |s| && InStep(buf.Length, s, m) && Starts(buf, s) && '\0' !in stream.left
      invariant old(stream.left) == got + stream.left
      invariant Reported(old(log.messages), log.messages, buf.Length, Machine("", []), got, m)
      decreases |stream.left| + stream.hiccups
    {
      ghost var now, left := log.messages, stream.left;
      var r;
      ghost var chunk, m1;
      r, pos, s, chunk, m1 := Round(stream, log, buf, pos, s, m);
      ReportedNext(old(log.messages), now, log.messages, buf.Length, Machine("", []), got, m, chunk, m1);
      MoreGot(old(stream.left), got, left, chunk, stream.left);
      got, m := got + chunk, m1;
      if r.End? || r.Failed? || r.Again? {
        return;
      }
    }
  }

  /** strlen */
  method StringLength(buf: array<char>, ghost s: string) returns (n: nat)
    requires HasString(buf, s)
    ensures n == |s|
  {
    n := 0;
    while buf[n] != '\0'
      invariant n <= |s|
      decreases |s| - n
    {
      n := n + 1;
    }
  }

  /** process_nonblock: reads until it would have to wait, or until the end or an error, when it asks for the
      connection to be closed. Between calls the buffer holds the partial line, or the mark for it, so that
      any run of calls goes on where the line machine stands. */
  method ProcessNonblock(stream: Stream, log: Log, buf: array<char>, ghost s0: string, ghost m0: Machine)
    returns (closing: bool, ghost got: string, ghost s: string, ghost m: Machine)
    requires buf.Length >= 5 && '\0' !in stream.left && HasString(buf, s0) && InStep(buf.Length, s0, m0)
    modifies stream, log, buf
    ensures old(stream.left) == got + stream.left && HasString(buf, s) && InStep(buf.Length, s, m)
    ensures Reported(old(log.messages), log.messages, buf.Length, m0, got, m)
    ensures if closing then stream.last == End || stream.last == Failed else stream.last == Again
  {
    closing := false;
    got, s, m := "", s0, m0;
    hide FedAll, Reported, Relieved, InStep;
    NothingReported(log.messages, buf.Length, m0);
    while !closing
      invariant HasString(buf, s) && InStep(buf.Length, s, m) && '\0' !in stream.left
      invariant old(stream.left) == got + stream.left
      invariant Reported(old(log.messages), log.messages, buf.Length, m0, got, m)
      invariant closing ==> stream.last == End || stream.last == Failed
      decreases !closing, |stream.left| + stream.hiccups
    {
      ghost var now, left := log.messages, stream.left;
      var pos := StringLength(buf, s);
      var r;
      ghost var chunk, m1;
      r, pos, s, chunk, m1 := Round(stream, log, buf, pos, s, m);
      ReportedNext(old(log.messages), now, log.messages, buf.Length, m0, got, m, chunk, m1);
      MoreGot(old(stream.left), got, left, chunk, stream.left);
      got, m := got + chunk, m1;
      if r.Again? {
        break;
      }
      closing := r.Failed? || r.End?;
    }
  }
}
