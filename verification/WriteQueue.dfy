/** wrbuffer.h and wrbuf_io.c: strings waiting to be sent, and sending them in parts. */
module WriteQueue {
  import opened Options
  import opened Sequences

  ghost function Joined(strings: seq<string>): string {
    if strings == [] then "" else strings[0] + Joined(strings[1..])
  }

  lemma {:induction false} JoinedSnoc(strings: seq<string>, s: string)
    ensures Joined(strings + [s]) == Joined(strings) + s
  {
    if strings == [] {
      assert [s][1..] == [];
    } else {
      assert (strings + [s])[1..] == strings[1..] + [s];
      JoinedSnoc(strings[1..], s);
    }
  }

  /** What is left of the strings, `pos` bytes of the first being gone. */
  ghost function Unsent(queue: seq<string>, pos: nat): string
    requires queue != [] ==> pos <= |queue[0]|
  {
    if queue == [] then "" else queue[0][pos..] + Joined(queue[1..])
  }

  /** What is left of the first `k` strings. */
  ghost function FirstUnsent(queue: seq<string>, pos: nat, k: nat): string
    requires k <= |queue| && (queue != [] ==> pos <= |queue[0]|)
  {
    if k == 0 then "" else queue[0][pos..] + Joined(queue[1..k])
  }

  /** The socket: what has gone out, and what the last send was given and took. A send takes a part of what
      it is given, or fails. */
  class Socket {
    ghost var sent: string
    ghost var asked: nat
    ghost var took: int

    method Send(s: string) returns (n: int)
      requires s != ""
      modifies this
      ensures n <= |s| && sent == old(sent) + if n > 0 then s[..n] else ""
      ensures asked == |s| && took == n
    {
      var k: int :| -1 <= k <= |s|;
      n := k;
      sent := sent + if k > 0 then s[..k] else "";
      asked, took := |s|, n;
    }
  }

  class WriteBuffer {
    var queue: seq<string>
    var pos: nat

    /** The first string is not yet sent in full, unless it is empty. */
    ghost predicate Valid()
      reads this
    {
      if queue == [] then pos == 0 else pos < |queue[0]| || (pos == 0 && queue[0] == "")
    }

    /** What is still to be sent. */
    ghost function Pending(): string
      reads this
      requires Valid()
    {
      Unsent(queue, pos)
    }

    constructor ()
      ensures Valid() && Pending() == "" && queue == []
    {
      queue, pos := [], 0;
    }

    /** wrbuffer_add. An empty string is taken like any other. */
    method Add(s: string)
      requires Valid()
      modifies this
      ensures Valid() && Pending() == old(Pending()) + s && queue == old(queue) + [s]
    {
      JoinedSnoc(if queue == [] then [] else queue[1..], s);
      queue := queue + [s];
      assert queue[1..] == if old(queue) == [] then [] else old(queue)[1..] + [s];
    }

    /** wrbuffer_remained, which asserts that something is left of the first string: none if that fails. */
    method Remained() returns (n: Option<nat>)
      requires Valid()
      ensures n.None? <==> queue != [] && queue[0] == ""
      ensures n.Some? ==> n.value == if queue == [] then 0 else |queue[0]| - pos
      ensures n.Some? && queue != [] ==> n.value > 0
    {
      if queue == [] {
        return Some(0);
      }
      if pos >= |queue[0]| {
        return None;
      }
      n := Some(|queue[0]| - pos);
    }

    /** wrbuffer_shift */
    method Shift(len: nat)
      requires Valid() && queue != [] && len <= |queue[0]| - pos
      modifies this
      ensures Valid() && len <= |old(Pending())| && Pending() == old(Pending())[len..]
      ensures queue == if len == |old(queue)[0]| - old(pos) then old(queue)[1..] else old(queue)
    {
      var nremains := |queue[0]| - pos;
      AfterShift(queue, pos, len);
      if nremains > len {
        pos := pos + len;
      } else {
        pos := 0;
        queue := queue[1..];
      }
    }

    /** send_wrbuffer: sends until a send is partial or fails, and loses and repeats nothing. It aborts exactly
        when an empty string comes to the front because everything before it has been sent in full. */
    method Send(socket: Socket) returns (sentTotal: int, aborted: bool, ghost k: nat)
      requires Valid()
      modifies this, socket
      ensures Valid() && socket.sent + Pending() == old(socket.sent) + old(Pending())
      ensures !aborted && sentTotal >= 0 ==> |socket.sent| == |old(socket.sent)| + sentTotal
      ensures !aborted && old(queue) != [] ==> (sentTotal == -1 <==> socket.took < 0)
      ensures !aborted && sentTotal >= 0 && queue != [] ==> 0 <= socket.took < socket.asked
      ensures sentTotal >= 0 || sentTotal == -1
      ensures |socket.sent| >= |old(socket.sent)|
      ensures k <= |old(queue)| && queue == old(queue)[k..] && forall i :: 0 <= i < k ==> old(queue)[i] != ""
      ensures aborted <==> k < |old(queue)| && old(queue)[k] == ""
      ensures aborted ==> socket.sent == old(socket.sent) + old(FirstBytes(k))
    {
      hide Joined, Unsent, FirstUnsent;
      sentTotal, aborted, k := 0, false, 0;
      while queue != []
        invariant Valid() && sentTotal >= 0 && !aborted
        invariant k <= |old(queue)| && queue == old(queue)[k..] && forall i :: 0 <= i < k ==> old(queue)[i] != ""
        invariant socket.sent + Pending() == old(socket.sent) + old(Pending())
        invariant |socket.sent| == |old(socket.sent)| + sentTotal
        invariant pos == if k == 0 then old(pos) else 0
        invariant k > 0 ==> socket.took >= 0
        decreases |queue|
      {
        var toSend := Remained();
        if toSend.None? {
          aborted := true;
          SentFirst(old(queue), old(pos), k, old(socket.sent), socket.sent);
          return;
        }
        var n := SendHead(socket);
        if n < 0 {
          return -1, false, k;
        }
        sentTotal := sentTotal + n;
        if n == toSend.value {
          k := k + 1;
        }
        if n == 0 || n != toSend.value {
          break;
        }
      }
    }

    /** What is left of the first `k` strings. */
    ghost function FirstBytes(k: nat): string
      requires Valid() && k <= |queue|
      reads this
    {
      FirstUnsent(queue, pos, k)
    }

    /** One send of what is left of the first string. */
    method SendHead(socket: Socket) returns (n: int)
      requires Valid() && queue != [] && queue[0] != ""
      modifies this, socket
      ensures Valid() && socket.sent + Pending() == old(socket.sent) + old(Pending())
      ensures n <= |old(queue)[0]| - old(pos) && |socket.sent| == |old(socket.sent)| + if n > 0 then n else 0
      ensures n == |old(queue)[0]| - old(pos) ==> queue == old(queue)[1..] && pos == 0
      ensures n != |old(queue)[0]| - old(pos) ==> queue == old(queue)
      ensures n <= 0 ==> pos == old(pos)
      ensures socket.took == n && socket.asked == |old(queue)[0]| - old(pos)
    {
      ghost var pending, sent, k := Pending(), socket.sent, |queue[0]| - pos;
      assert pending[..k] == queue[0][pos..];
      n := socket.Send(queue[0][pos..]);
      if n > 0 {
        Split(sent, pending, k, n);
        Shift(n);
      }
    }
  }

  lemma {:induction false} UnsentWhole(queue: seq<string>)
    requires queue != []
    ensures Unsent(queue, 0) == Joined(queue)
  {
    assert queue[0][0..] == queue[0];
  }

  lemma {:induction false} UnsentSplit(queue: seq<string>, pos: nat, k: nat)
    requires 0 < k < |queue| && pos <= |queue[0]|
    ensures Unsent(queue, pos) == FirstUnsent(queue, pos, k) + Joined(queue[k..])
  {
    assert queue[1..] == queue[1..k] + queue[k..];
    hide Joined;
    JoinedJoin(queue[1..k], queue[k..]);
    Assoc(queue[0][pos..], Joined(queue[1..k]), Joined(queue[k..]));
  }

  /** Once the first `k` strings have left the queue, exactly their bytes have been sent. */
  lemma {:induction false} SentFirst(queue: seq<string>, pos: nat, k: nat, before: string, sent: string)
    requires k < |queue| && pos <= |queue[0]|
    requires sent + Unsent(queue[k..], if k == 0 then pos else 0) == before + Unsent(queue, pos)
    ensures sent == before + FirstUnsent(queue, pos, k)
  {
    hide Unsent, Joined;
    if k == 0 {
      assert queue[0..] == queue;
      Cancel(sent, before, Unsent(queue, pos));
      assert before + "" == before;
    } else {
      hide FirstUnsent;
      UnsentWhole(queue[k..]);
      UnsentSplit(queue, pos, k);
      var first, rest := FirstUnsent(queue, pos, k), Joined(queue[k..]);
      Assoc(before, first, rest);
      Cancel(sent, before + first, rest);
    }
  }

  lemma Cancel(a: string, b: string, c: string)
    requires a + c == b + c
    ensures a == b
  {
    assert |a| == |b|;
    assert (a + c)[..|a|] == a && (b + c)[..|a|] == b;
  }

  lemma {:induction false} JoinedJoin(a: seq<string>, b: seq<string>)
    ensures Joined(a + b) == Joined(a) + Joined(b)
  {
    if a == [] {
      assert a + b == b;
    } else {
      assert (a + b)[1..] == a[1..] + b;
      JoinedJoin(a[1..], b);
    }
  }

  /** A buffer that was given an empty string fails the assertion at the next send. */
  method EmptyStringAborts(socket: Socket) returns (aborted: bool)
    modifies socket
    ensures aborted && socket.sent == old(socket.sent)
  {
    var buffer := new WriteBuffer();
    buffer.Add("");
    var total;
    ghost var k;
    total, aborted, k := buffer.Send(socket);
  }

  /** Dropping the first `len` bytes of what is left of the first string. */
  lemma AfterShift(queue: seq<string>, pos: nat, len: nat)
    requires queue != [] && pos + len <= |queue[0]|
    ensures var all := queue[0][pos..] + Joined(queue[1..]);
      && len <= |all| && all[len..] == queue[0][pos + len..] + Joined(queue[1..])
      && (pos + len == |queue[0]| ==> all[len..] == Joined(queue[1..]))
    ensures |queue| > 1 ==> Joined(queue[1..]) == queue[1][0..] + Joined(queue[1..][1..])
  {
    hide Joined;
    if |queue| > 1 {
      JoinedHead(queue[1..]);
    }
  }

  lemma JoinedHead(strings: seq<string>)
    requires strings != []
    ensures Joined(strings) == strings[0][0..] + Joined(strings[1..])
  {
  }

  lemma Split(sent: string, pending: string, k: nat, n: nat)
    requires n <= k <= |pending|
    ensures sent + pending[..k][..n] + pending[n..] == sent + pending
  {
  }
}
