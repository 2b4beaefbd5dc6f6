/**
 poll_server.c with cnct.c: the server thread's atomic actions, interleaved with the database
 threads that answer in any order through the control pipe. A slot is used again for a new
 client while answers for older ones may still be on their way.
 */
module PollServer {

  datatype CnctState = Open | Wait | Shut

  /** One `?key` request: the slot and the client (counted from the first accepted) it came from. */
  datatype Request = Request(slot: nat, client: nat, id: nat)

  /** A slot: its fd (only whether it is open), `struct cnct`, its write buffer, and the client
      it was last given to. */
  datatype Slot = Slot(open: bool, state: CnctState, queueCnt: int, wrbuf: seq<Request>, client: nat)

  /** `inDb` are requests handed to the database, `pipe` answers written to the control pipe and
      not yet read. The rest are histories: all requests, the answers put into a write buffer,
      those found late, those sent, and all answers written to the pipe and read from it. */
  datatype State = State(slots: seq<Slot>, inDb: seq<Request>, pipe: seq<Request>,
                         clients: nat, asked: seq<Request>, delivered: seq<Request>, dropped: seq<Request>,
                         sent: seq<Request>, written: seq<Request>, read: seq<Request>)

  ghost predicate Init(s: State) {
    && (forall n :: 0 <= n < |s.slots| ==> s.slots[n] == Slot(false, Shut, 0, [], 0))
    && s.inDb == [] && s.pipe == [] && s.clients == 0 && s.asked == [] && s.delivered == [] && s.dropped == []
    && s.sent == [] && s.written == [] && s.read == []
  }

  // ---------- cnct.c ----------

  function IncQueueCnt(c: Slot): Slot {
    c.(queueCnt := c.queueCnt + 1)
  }

  function DecQueueCnt(c: Slot): Slot {
    c.(queueCnt := c.queueCnt - 1, state := if c.state == Wait && c.queueCnt == 1 then Shut else c.state)
  }

  function ShutdownCnct(c: Slot): Slot {
    c.(state := if c.queueCnt == 0 then Shut else Wait)
  }

  /** reset_poll_cnct, its pollfd having an open fd. */
  function ResetPollCnct(c: Slot): Slot {
    c.(queueCnt := 0, state := if c.open then Open else Shut)
  }

  // ---------- poll_server.c ----------

  /** The slot add_fd takes: the first one that is shut. */
  function FirstShut(slots: seq<Slot>, from: nat): nat
    decreases |slots| - from
  {
    if from >= |slots| || slots[from].state == Shut then from else FirstShut(slots, from + 1)
  }

  /** The search loop of add_fd; -1 when every slot is taken. */
  method AddFd(slots: seq<Slot>) returns (nslot: int)
    ensures nslot == if FirstShut(slots, 0) < |slots| then FirstShut(slots, 0) else -1
    ensures nslot != -1 ==> 0 <= nslot < |slots| && slots[nslot].state == Shut
    ensures forall i :: 0 <= i < (if nslot == -1 then |slots| else nslot) ==> slots[i].state != Shut
  {
    var i := 0;
    while i < |slots|
      invariant 0 <= i <= |slots| && FirstShut(slots, 0) == FirstShut(slots, i)
      invariant forall j :: 0 <= j < i ==> slots[j].state != Shut
    {
      if slots[i].state == Shut {
        return i;
      }
      i := i + 1;
    }
    return -1;
  }

  datatype Step = Accept | Get(n: nat) | Remove(n: nat) | ReadControl | Send(n: nat, count: nat) | DbAnswer(k: nat)

  /** The assertions in inc_queue_cnt and dec_queue_cnt, where a step gets to one. */
  predicate AssertionsHold(s: State, step: Step)
    requires Enabled(s, step)
  {
    match step
    case Get(n) => s.slots[n].state == Open
    case ReadControl => s.slots[s.pipe[0].slot].queueCnt >= 1
    case _ => true
  }

  predicate Enabled(s: State, step: Step) {
    match step
    case Accept => FirstShut(s.slots, 0) < |s.slots|
    case Get(n) => n < |s.slots| && s.slots[n].open
    case Remove(n) => n < |s.slots| && s.slots[n].open
    case ReadControl => s.pipe != [] && s.pipe[0].slot < |s.slots|
    case Send(n, count) => n < |s.slots| && s.slots[n].open && count <= |s.slots[n].wrbuf|
    case DbAnswer(k) => k < |s.inDb|
  }

  function With(s: State, n: nat, c: Slot): State
    requires n < |s.slots|
  {
    s.(slots := s.slots[n := c])
  }

  function Next(s: State, step: Step): State
    requires Enabled(s, step)
  {
    match step
    case Accept => // accept_connection, add_fd
      var n := FirstShut(s.slots, 0);
      With(s, n, ResetPollCnct(s.slots[n].(open := true, client := s.clients))).(clients := s.clients + 1)
    case Get(n) => // process_cmd: the count goes up before the database gets the request
      var r := Request(n, s.slots[n].client, |s.asked|);
      With(s, n, IncQueueCnt(s.slots[n])).(inDb := s.inDb + [r], asked := s.asked + [r])
    case Remove(n) => // remove_connection
      With(s, n, ShutdownCnct(s.slots[n]).(open := false, wrbuf := []))
    case ReadControl => // one round of process_control's loop
      var r := s.pipe[0];
      var c, s' := DecQueueCnt(s.slots[r.slot]), s.(pipe := s.pipe[1..], read := s.read + [r]);
      if c.open then With(s', r.slot, c.(wrbuf := c.wrbuf + [r])).(delivered := s.delivered + [r])
      else With(s', r.slot, c).(dropped := s.dropped + [r])
    case Send(n, count) => // send_wrbuffer
      With(s, n, s.slots[n].(wrbuf := s.slots[n].wrbuf[count..])).(sent := s.sent + s.slots[n].wrbuf[..count])
    case DbAnswer(k) => // async_response in a database thread
      s.(inDb := s.inDb[..k] + s.inDb[k + 1..], pipe := s.pipe + [s.inDb[k]], written := s.written + [s.inDb[k]])
  }

  ghost predicate Reaches(s: State, run: seq<Step>, s': State)
    decreases |run|
  {
    if run == [] then s' == s
    else Enabled(s, run[0]) && Reaches(Next(s, run[0]), run[1..], s')
  }

  // ---------- what every step keeps ----------

  /** How many of `rs` belong to slot `n`. */
  ghost function Count(rs: seq<Request>, n: nat): nat {
    if rs == [] then 0 else Count(rs[..|rs| - 1], n) + if rs[|rs| - 1].slot == n then 1 else 0
  }

  lemma {:induction false} CountJoin(a: seq<Request>, b: seq<Request>, n: nat)
    ensures Count(a + b, n) == Count(a, n) + Count(b, n)
  {
    if b == [] {
      assert a + b == a;
    } else {
      assert (a + b)[..|a + b| - 1] == a + b[..|b| - 1];
      CountJoin(a, b[..|b| - 1], n);
    }
  }

  lemma {:induction false} CountSplit(rs: seq<Request>, k: nat, n: nat)
    requires k < |rs|
    ensures Count(rs, n) == Count(rs[..k] + rs[k + 1..], n) + Count([rs[k]], n)
    ensures Count([rs[k]], n) == if rs[k].slot == n then 1 else 0
  {
    assert rs == rs[..k] + ([rs[k]] + rs[k + 1..]);
    CountJoin(rs[..k], [rs[k]] + rs[k + 1..], n);
    CountJoin([rs[k]], rs[k + 1..], n);
    CountJoin(rs[..k], rs[k + 1..], n);
    assert [rs[k]][..0] == [];
  }

  lemma {:induction false} CountSnoc(rs: seq<Request>, r: Request, n: nat)
    ensures Count(rs + [r], n) == Count(rs, n) + if r.slot == n then 1 else 0
  {
    assert (rs + [r])[..|rs|] == rs;
  }

  lemma {:induction false} CountZero(rs: seq<Request>, n: nat)
    requires Count(rs, n) == 0
    ensures forall r :: r in rs ==> r.slot != n
  {
    if rs != [] {
      CountZero(rs[..|rs| - 1], n);
    }
  }

  /** The life cycle: a client's fd is open exactly in state Open; Wait means answers are due, Shut that none is. */
  ghost predicate LifeCycle(c: Slot) {
    && (c.state == Open <==> c.open) && c.queueCnt >= 0
    && (c.state == Wait ==> c.queueCnt > 0) && (c.state == Shut ==> c.queueCnt == 0)
    && (!c.open ==> c.wrbuf == [])
  }

  /** Every request of `rs` comes from the client its slot was last given to. */
  ghost predicate Current(slots: seq<Slot>, rs: seq<Request>) {
    forall r :: r in rs ==> r.slot < |slots| && r.client == slots[r.slot].client
  }

  ghost predicate Inv(s: State) {
    && (forall n :: 0 <= n < |s.slots| ==> LifeCycle(s.slots[n]))
    && (forall n :: 0 <= n < |s.slots| ==> s.slots[n].queueCnt == Count(s.inDb, n) + Count(s.pipe, n))
    && Current(s.slots, s.inDb) && Current(s.slots, s.pipe)
    && (forall n :: 0 <= n < |s.slots| ==>
          forall r :: r in s.slots[n].wrbuf ==> r.slot == n && r.client == s.slots[n].client)
  }

  /** How often `r` occurs in `rs`. */
  ghost function Times(rs: seq<Request>, r: Request): nat {
    if rs == [] then 0 else Times(rs[..|rs| - 1], r) + if rs[|rs| - 1] == r then 1 else 0
  }

  lemma {:induction false} TimesJoin(a: seq<Request>, b: seq<Request>, r: Request)
    ensures Times(a + b, r) == Times(a, r) + Times(b, r)
  {
    if b == [] {
      assert a + b == a;
    } else {
      assert (a + b)[..|a + b| - 1] == a + b[..|b| - 1];
      TimesJoin(a, b[..|b| - 1], r);
    }
  }

  lemma {:induction false} TimesSnoc(rs: seq<Request>, x: Request, r: Request)
    ensures Times(rs + [x], r) == Times(rs, r) + if x == r then 1 else 0
  {
    assert (rs + [x])[..|rs|] == rs;
  }

  lemma {:induction false} TimesSplit(rs: seq<Request>, k: nat, r: Request)
    requires k < |rs|
    ensures Times(rs, r) == Times(rs[..k] + rs[k + 1..], r) + if rs[k] == r then 1 else 0
  {
    assert rs == rs[..k] + [rs[k]] + rs[k + 1..];
    TimesJoin(rs[..k] + [rs[k]], rs[k + 1..], r);
    TimesSnoc(rs[..k], rs[k], r);
    TimesJoin(rs[..k], rs[k + 1..], r);
  }

  /** Every request is in the database, in the pipe, delivered or dropped, and in one of them only. */
  ghost predicate Accounted(s: State, r: Request) {
    Times(s.asked, r) == Times(s.inDb, r) + Times(s.pipe, r) + Times(s.delivered, r) + Times(s.dropped, r)
  }

  lemma {:induction false} GetKeepsAccount(s: State, n: nat, r: Request)
    requires Accounted(s, r) && Enabled(s, Get(n))
    ensures Accounted(Next(s, Get(n)), r)
  {
    var x := Request(n, s.slots[n].client, |s.asked|);
    hide Times;
    TimesSnoc(s.asked, x, r);
    TimesSnoc(s.inDb, x, r);
  }

  lemma {:induction false} ReadControlKeepsAccount(s: State, r: Request)
    requires Accounted(s, r) && Enabled(s, ReadControl)
    ensures Accounted(Next(s, ReadControl), r)
  {
    hide Times;
    TimesSplit(s.pipe, 0, r);
    assert s.pipe[..0] + s.pipe[1..] == s.pipe[1..];
    TimesSnoc(s.delivered, s.pipe[0], r);
    TimesSnoc(s.dropped, s.pipe[0], r);
  }

  lemma {:induction false} StepKeepsAccount(s: State, step: Step, r: Request)
    requires Accounted(s, r) && Enabled(s, step)
    ensures Accounted(Next(s, step), r)
  {
    hide Times;
    match step
    case Get(n) => GetKeepsAccount(s, n, r);
    case ReadControl => ReadControlKeepsAccount(s, r);
    case DbAnswer(k) =>
      TimesSplit(s.inDb, k, r);
      TimesSnoc(s.pipe, s.inDb[k], r);
    case _ =>
  }

  /** Requests are numbered in the order they are asked, so none is asked twice. */
  ghost predicate Numbered(rs: seq<Request>) {
    forall i :: 0 <= i < |rs| ==> rs[i].id == i
  }

  lemma {:induction false} StepKeepsNumbers(s: State, step: Step)
    requires Numbered(s.asked) && Enabled(s, step)
    ensures Numbered(Next(s, step).asked)
  {
  }

  lemma {:induction false} NumberedOnce(rs: seq<Request>, r: Request)
    requires Numbered(rs)
    ensures Times(rs, r) <= 1 && (Times(rs, r) > 0 ==> r.id < |rs|)
  {
    if rs != [] {
      NumberedOnce(rs[..|rs| - 1], r);
    }
  }

  lemma {:induction false} FirstShutIsShut(slots: seq<Slot>, from: nat)
    requires FirstShut(slots, from) < |slots|
    ensures slots[FirstShut(slots, from)].state == Shut
    decreases |slots| - from
  {
    if slots[from].state != Shut {
      FirstShutIsShut(slots, from + 1);
    }
  }

  lemma {:induction false} AcceptKeepsInv(s: State)
    requires Inv(s) && Enabled(s, Accept)
    ensures Inv(Next(s, Accept))
  {
    var n := FirstShut(s.slots, 0);
    FirstShutIsShut(s.slots, 0);
    CountZero(s.inDb, n);
    CountZero(s.pipe, n);
  }

  lemma {:induction false} GetKeepsInv(s: State, n: nat)
    requires Inv(s) && Enabled(s, Get(n))
    ensures Inv(Next(s, Get(n)))
  {
    var r := Request(n, s.slots[n].client, |s.asked|);
    forall k: nat ensures Count(s.inDb + [r], k) == Count(s.inDb, k) + if k == n then 1 else 0 {
      CountSnoc(s.inDb, r, k);
    }
  }

  lemma {:induction false} TailCount(pipe: seq<Request>, k: nat)
    requires pipe != []
    ensures Count(pipe, k) == Count(pipe[1..], k) + if k == pipe[0].slot then 1 else 0
  {
    CountSplit(pipe, 0, k);
    assert pipe[..0] + pipe[1..] == pipe[1..];
  }

  lemma {:induction false} ReadControlKeepsInv(s: State)
    requires Inv(s) && Enabled(s, ReadControl)
    ensures Inv(Next(s, ReadControl))
  {
    var r := s.pipe[0];
    forall k: nat ensures Count(s.pipe, k) == Count(s.pipe[1..], k) + if k == r.slot then 1 else 0 {
      TailCount(s.pipe, k);
    }
    assert Current(s.slots, s.pipe[1..]) by {
      assert forall x :: x in s.pipe[1..] ==> x in s.pipe;
    }
    assert r in s.pipe;
    hide Count;
    assert s.slots[r.slot].queueCnt >= 1 && r.client == s.slots[r.slot].client;
    ReadControlSlots(s, Next(s, ReadControl), r);
  }

  /** Only the slot of the answer changes, and it keeps its client. */
  lemma {:induction false} ReadControlSlots(s: State, s': State, r: Request)
    requires Inv(s) && s.pipe != [] && r == s.pipe[0] && r.slot < |s.slots| && s' == Next(s, ReadControl)
    requires s.slots[r.slot].queueCnt >= 1 && r.client == s.slots[r.slot].client && Current(s.slots, s.pipe[1..])
    requires forall k: nat :: Count(s.pipe, k) == Count(s.pipe[1..], k) + if k == r.slot then 1 else 0
    ensures Inv(s')
  {
    hide Count;
    var c := DecQueueCnt(s.slots[r.slot]);
    var c' := if c.open then c.(wrbuf := c.wrbuf + [r]) else c;
    assert LifeCycle(c') && s'.slots == s.slots[r.slot := c'];
    assert Current(s'.slots, s.inDb) && Current(s'.slots, s.pipe[1..]);
  }

  lemma {:induction false} DbAnswerKeepsInv(s: State, k: nat)
    requires Inv(s) && Enabled(s, DbAnswer(k))
    ensures Inv(Next(s, DbAnswer(k)))
  {
    var r, rest := s.inDb[k], s.inDb[..k] + s.inDb[k + 1..];
    forall n: nat
      ensures Count(s.inDb, n) == Count(rest, n) + (if n == r.slot then 1 else 0)
      ensures Count(s.pipe + [r], n) == Count(s.pipe, n) + if n == r.slot then 1 else 0
    {
      CountSplit(s.inDb, k, n);
      CountSnoc(s.pipe, r, n);
    }
    assert forall x :: x in rest ==> x in s.inDb;
  }

  lemma {:induction false} StepKeepsInv(s: State, step: Step)
    requires Inv(s) && Enabled(s, step)
    ensures Inv(Next(s, step)) && AssertionsHold(s, step)
  {
    StepKeepsAssertions(s, step);
    match step
    case Accept => AcceptKeepsInv(s);
    case Get(n) => GetKeepsInv(s, n);
    case ReadControl => ReadControlKeepsInv(s);
    case DbAnswer(k) => DbAnswerKeepsInv(s, k);
    case Remove(n) => SlotKeepsInv(s, step, n);
    case Send(n, _) => SlotKeepsInv(s, step, n);
  }

  lemma {:induction false} StepKeepsAssertions(s: State, step: Step)
    requires Inv(s) && Enabled(s, step)
    ensures AssertionsHold(s, step)
  {
    if step.ReadControl? {
      TailCount(s.pipe, s.pipe[0].slot);
    }
  }

  lemma {:induction false} SlotKeepsInv(s: State, step: Step, n: nat)
    requires Inv(s) && Enabled(s, step) && (step == Remove(n) || (step.Send? && step.n == n))
    ensures Inv(Next(s, step))
  {
    hide Count;
  }

  lemma {:induction false} RunKeepsInv(s: State, run: seq<Step>, s': State)
    requires Inv(s) && Reaches(s, run, s')
    ensures Inv(s')
    decreases |run|
  {
    if run != [] {
      StepKeepsInv(s, run[0]);
      RunKeepsInv(Next(s, run[0]), run[1..], s');
    }
  }

  lemma {:induction false} RunKeepsAccount(s: State, run: seq<Step>, s': State, r: Request)
    requires Accounted(s, r) && Numbered(s.asked) && Reaches(s, run, s')
    ensures Accounted(s', r) && Numbered(s'.asked)
    decreases |run|
  {
    if run != [] {
      hide Times, Accounted, Next, Numbered;
      StepKeepsAccount(s, run[0], r);
      StepKeepsNumbers(s, run[0]);
      RunKeepsAccount(Next(s, run[0]), run[1..], s', r);
    }
  }

  lemma {:induction false} Reached(s0: State, run: seq<Step>, s: State)
    requires Init(s0) && Reaches(s0, run, s)
    ensures Inv(s)
  {
    RunKeepsInv(s0, run, s);
  }

  // ---------- main results ----------

  /** queue_cnt counts exactly the slot's requests still in the database and its answers still in the pipe. */
  lemma {:induction false} CountIsInFlight(s0: State, run: seq<Step>, s: State, n: nat)
    requires Init(s0) && Reaches(s0, run, s) && n < |s.slots|
    ensures s.slots[n].queueCnt == Count(s.inDb, n) + Count(s.pipe, n)
    ensures s.slots[n].state == Wait ==> s.slots[n].queueCnt > 0
    ensures s.slots[n].state == Shut ==> s.slots[n].queueCnt == 0
  {
    Reached(s0, run, s);
  }

  /** No assertion of cnct.c ever fails. */
  lemma {:induction false} AssertionsNeverFail(s0: State, run: seq<Step>, s: State, step: Step)
    requires Init(s0) && Reaches(s0, run, s) && Enabled(s, step)
    ensures AssertionsHold(s, step)
  {
    Reached(s0, run, s);
    StepKeepsInv(s, step);
  }

  /** An answer read from the pipe goes to the client that asked, or to nobody. */
  lemma {:induction false} AnswerReachesItsClient(s0: State, run: seq<Step>, s: State)
    requires Init(s0) && Reaches(s0, run, s) && Enabled(s, ReadControl)
    ensures var r, s' := s.pipe[0], Next(s, ReadControl);
      if s.slots[r.slot].open
      then r.client == s.slots[r.slot].client && s'.slots[r.slot].wrbuf == s.slots[r.slot].wrbuf + [r]
      else s'.dropped == s.dropped + [r] && s'.delivered == s.delivered && s'.slots[r.slot].wrbuf == []
  {
    Reached(s0, run, s);
    assert s.pipe[0] in s.pipe;
  }

  /** Everything ever sent to a client, now or later, answers that client's own requests. */
  lemma {:induction false} SentToItsClient(s0: State, run: seq<Step>, s: State, n: nat, i: nat)
    requires Init(s0) && Reaches(s0, run, s) && n < |s.slots| && i < |s.slots[n].wrbuf|
    ensures s.slots[n].open && s.slots[n].wrbuf[i].slot == n && s.slots[n].wrbuf[i].client == s.slots[n].client
  {
    Reached(s0, run, s);
    assert s.slots[n].wrbuf[i] in s.slots[n].wrbuf;
  }

  /** A slot given to a new client has nothing in flight. */
  lemma {:induction false} NewClientStartsClean(s0: State, run: seq<Step>, s: State)
    requires Init(s0) && Reaches(s0, run, s) && Enabled(s, Accept)
    ensures var n := FirstShut(s.slots, 0);
      Count(s.inDb, n) == 0 && Count(s.pipe, n) == 0 && s.slots[n].wrbuf == []
  {
    Reached(s0, run, s);
    FirstShutIsShut(s.slots, 0);
  }

  /** No request is lost, repeated or answered twice. */
  lemma {:induction false} RequestsConserved(s0: State, run: seq<Step>, s: State, r: Request)
    requires Init(s0) && Reaches(s0, run, s)
    ensures Times(s.asked, r) == Times(s.inDb, r) + Times(s.pipe, r) + Times(s.delivered, r) + Times(s.dropped, r)
    ensures Times(s.asked, r) <= 1
  {
    RunKeepsAccount(s0, run, s, r);
    NumberedOnce(s.asked, r);
  }

  /** The assertion in destroy_cnct, once the database is destroyed, holds for exactly the slots
      with no answer left unread in the pipe. */
  lemma {:induction false} DestroyAssertion(s0: State, run: seq<Step>, s: State, n: nat)
    requires Init(s0) && Reaches(s0, run, s) && s.inDb == [] && n < |s.slots|
    ensures s.slots[n].queueCnt == 0 <==> forall r :: r in s.pipe ==> r.slot != n
  {
    Reached(s0, run, s);
    if s.slots[n].queueCnt == 0 {
      CountZero(s.pipe, n);
    } else {
      CountPositive(s.pipe, n);
    }
  }

  /** One slot that is accepted on, asked on, closed and answered: the answer is still unread. */
  lemma {:induction false} DestroyAssertionFails(s0: State, s: State)
    requires Init(s0) && |s0.slots| == 1
    requires s == State([Slot(false, Wait, 1, [], 0)], [], [Request(0, 0, 0)], 1, [Request(0, 0, 0)], [], [], [],
                        [Request(0, 0, 0)], [])
    ensures Reaches(s0, [Accept, Get(0), Remove(0), DbAnswer(0)], s) && s.inDb == [] && s.slots[0].queueCnt != 0
  {
    var r := Request(0, 0, 0);
    var s1 := State([Slot(true, Open, 0, [], 0)], [], [], 1, [], [], [], [], [], []);
    var s2 := State([Slot(true, Open, 1, [], 0)], [r], [], 1, [r], [], [], [], [], []);
    var s3 := State([Slot(false, Wait, 1, [], 0)], [r], [], 1, [r], [], [], [], [], []);
    assert s0.slots == [Slot(false, Shut, 0, [], 0)];
    assert Next(s0, Accept) == s1;
    assert Next(s1, Get(0)) == s2;
    assert Next(s2, Remove(0)) == s3;
    assert Next(s3, DbAnswer(0)) == s;
    hide Next;
    assert Reaches(s, [], s);
    ReachesOne(s3, DbAnswer(0), [], s);
    ReachesOne(s2, Remove(0), [DbAnswer(0)], s);
    ReachesOne(s1, Get(0), [Remove(0), DbAnswer(0)], s);
    ReachesOne(s0, Accept, [Get(0), Remove(0), DbAnswer(0)], s);
  }

  lemma {:induction false} ReachesOne(s: State, step: Step, run: seq<Step>, s': State)
    requires Enabled(s, step) && Reaches(Next(s, step), run, s')
    ensures Reaches(s, [step] + run, s')
  {
    assert ([step] + run)[1..] == run;
  }

  lemma {:induction false} CountPositive(rs: seq<Request>, n: nat)
    requires Count(rs, n) > 0
    ensures exists r :: r in rs && r.slot == n
  {
    if rs[|rs| - 1].slot == n {
      assert rs[|rs| - 1] in rs;
    } else {
      CountPositive(rs[..|rs| - 1], n);
      var r :| r in rs[..|rs| - 1] && r.slot == n;
      assert r in rs;
    }
  }

  // ---------- clients ----------

  /** A client number names one client: live slots have different ones, and those of all requests and answers
      have been given out. */
  ghost predicate ClientsInv(s: State) {
    && (forall n :: 0 <= n < |s.slots| && s.slots[n].state != Shut ==> s.slots[n].client < s.clients)
    && (forall i, j :: 0 <= i < j < |s.slots| && s.slots[i].state != Shut && s.slots[j].state != Shut ==>
          s.slots[i].client != s.slots[j].client)
    && (forall r :: r in s.asked ==> r.client < s.clients)
    && (forall r :: r in s.delivered || r in s.sent ==> r.client < s.clients)
  }

  /** The slot of an answer in the pipe is not shut, and still the client's. */
  lemma {:induction false} PipeSlot(s: State)
    requires Inv(s) && s.pipe != []
    ensures var r := s.pipe[0];
      r.slot < |s.slots| && s.slots[r.slot].state != Shut && r.client == s.slots[r.slot].client
  {
    assert s.pipe[0] in s.pipe;
    TailCount(s.pipe, s.pipe[0].slot);
  }

  lemma {:induction false} StepKeepsClients(s: State, step: Step)
    requires Inv(s) && ClientsInv(s) && Enabled(s, step)
    ensures ClientsInv(Next(s, step))
  {
    hide Count, FirstShut, Current;
    match step
    case Accept => FirstShutIsShut(s.slots, 0);
    case ReadControl => PipeSlot(s);
    case Send(n, count) =>
      forall r | r in s.slots[n].wrbuf[..count] ensures r.client < s.clients {
        assert r in s.slots[n].wrbuf && LifeCycle(s.slots[n]);
      }
    case _ =>
  }

  /** The requests of one client, in order. */
  ghost function Of(rs: seq<Request>, client: nat): seq<Request> {
    if rs == [] then []
    else Of(rs[..|rs| - 1], client) + if rs[|rs| - 1].client == client then [rs[|rs| - 1]] else []
  }

  lemma {:induction false} OfSnoc(rs: seq<Request>, r: Request, client: nat)
    ensures Of(rs + [r], client) == Of(rs, client) + if r.client == client then [r] else []
  {
    assert (rs + [r])[..|rs|] == rs;
  }

  lemma {:induction false} OfJoin(a: seq<Request>, b: seq<Request>, client: nat)
    ensures Of(a + b, client) == Of(a, client) + Of(b, client)
  {
    if b == [] {
      assert a + b == a;
    } else {
      assert (a + b)[..|a + b| - 1] == a + b[..|b| - 1];
      OfJoin(a, b[..|b| - 1], client);
    }
  }

  /** All of one client, or none of it. */
  lemma {:induction false} OfAll(rs: seq<Request>, c: nat, client: nat)
    requires forall r :: r in rs ==> r.client == c
    ensures Of(rs, client) == if c == client then rs else []
  {
    if rs != [] {
      OfAll(rs[..|rs| - 1], c, client);
      assert rs[|rs| - 1] in rs;
    }
  }

  lemma {:induction false} OfNone(rs: seq<Request>, client: nat)
    requires forall r :: r in rs ==> r.client < client
    ensures Of(rs, client) == []
  {
    if rs != [] {
      OfNone(rs[..|rs| - 1], client);
      assert rs[|rs| - 1] in rs;
    }
  }

  /** What was delivered for the client of an open slot has been sent, or waits in the buffer, in order. */
  ghost predicate SentInv(s: State) {
    forall n :: 0 <= n < |s.slots| && s.slots[n].open ==>
      Of(s.delivered, s.slots[n].client) == Of(s.sent, s.slots[n].client) + s.slots[n].wrbuf
  }

  lemma {:induction false} SendKeepsSent(s: State, n: nat, count: nat)
    requires Inv(s) && ClientsInv(s) && SentInv(s) && Enabled(s, Send(n, count))
    ensures SentInv(Next(s, Send(n, count)))
  {
    hide Of, Count, Current;
    var s', now := Next(s, Send(n, count)), s.slots[n].wrbuf[..count];
    assert forall r :: r in now ==> r in s.slots[n].wrbuf;
    assert now + s.slots[n].wrbuf[count..] == s.slots[n].wrbuf;
    forall k | 0 <= k < |s'.slots| && s'.slots[k].open
      ensures Of(s'.delivered, s'.slots[k].client) == Of(s'.sent, s'.slots[k].client) + s'.slots[k].wrbuf
    {
      assert LifeCycle(s.slots[k]) && LifeCycle(s.slots[n]);
      OfJoin(s.sent, now, s.slots[k].client);
      OfAll(now, s.slots[n].client, s.slots[k].client);
    }
  }

  lemma {:induction false} ReadControlKeepsSent(s: State)
    requires Inv(s) && ClientsInv(s) && SentInv(s) && Enabled(s, ReadControl)
    ensures SentInv(Next(s, ReadControl))
  {
    hide Of, Count, Current;
    var s', r := Next(s, ReadControl), s.pipe[0];
    PipeSlot(s);
    forall k | 0 <= k < |s'.slots| && s'.slots[k].open
      ensures Of(s'.delivered, s'.slots[k].client) == Of(s'.sent, s'.slots[k].client) + s'.slots[k].wrbuf
    {
      assert LifeCycle(s.slots[k]);
      OfSnoc(s.delivered, r, s.slots[k].client);
      assert Of(s.sent, s.slots[k].client) + s.slots[k].wrbuf + [r]
             == Of(s.sent, s.slots[k].client) + (s.slots[k].wrbuf + [r]);
    }
  }

  lemma {:induction false} StepKeepsSent(s: State, step: Step)
    requires Inv(s) && ClientsInv(s) && SentInv(s) && Enabled(s, step)
    ensures SentInv(Next(s, step))
  {
    match step
    case Accept =>
      hide Of, Count, Current, FirstShut;
      FirstShutIsShut(s.slots, 0);
      OfNone(s.delivered, s.clients);
      OfNone(s.sent, s.clients);
      assert LifeCycle(s.slots[FirstShut(s.slots, 0)]);
    case ReadControl => ReadControlKeepsSent(s);
    case Send(n, count) => SendKeepsSent(s, n, count);
    case _ =>
  }

  lemma {:induction false} RunKeepsSent(s: State, run: seq<Step>, s': State)
    requires Inv(s) && ClientsInv(s) && SentInv(s) && Reaches(s, run, s')
    ensures Inv(s') && ClientsInv(s') && SentInv(s')
    decreases |run|
  {
    if run != [] {
      hide Inv, ClientsInv, SentInv, Next;
      StepKeepsInv(s, run[0]);
      StepKeepsClients(s, run[0]);
      StepKeepsSent(s, run[0]);
      RunKeepsSent(Next(s, run[0]), run[1..], s');
    }
  }

  /** In every run two slots in use have different clients, and a new client has a number that no slot in use
      and no request had before. */
  lemma {:induction false} ClientsDiffer(s0: State, run: seq<Step>, s: State, i: nat, j: nat)
    requires Init(s0) && Reaches(s0, run, s) && i < j < |s.slots|
    ensures s.slots[i].state != Shut && s.slots[j].state != Shut ==> s.slots[i].client != s.slots[j].client
    ensures Enabled(s, Accept) ==>
      var c := Next(s, Accept).slots[FirstShut(s.slots, 0)].client;
      && (forall r :: r in s.asked ==> r.client != c)
      && (forall n :: 0 <= n < |s.slots| && s.slots[n].state != Shut ==> s.slots[n].client != c)
  {
    RunKeepsSent(s0, run, s);
  }

  /** The answers put into the buffer of an open slot for its client are those sent, followed by those that
      still wait, in order: sending loses and repeats nothing. */
  lemma {:induction false} SentInOrder(s0: State, run: seq<Step>, s: State, n: nat)
    requires Init(s0) && Reaches(s0, run, s) && n < |s.slots| && s.slots[n].open
    ensures Of(s.delivered, s.slots[n].client) == Of(s.sent, s.slots[n].client) + s.slots[n].wrbuf
  {
    RunKeepsSent(s0, run, s);
  }

  lemma {:induction false} RunKeepsPipe(s: State, run: seq<Step>, s': State)
    requires Reaches(s, run, s') && s.read + s.pipe == s.written
    ensures s'.read + s'.pipe == s'.written
    decreases |run|
  {
    if run != [] {
      var s1 := Next(s, run[0]);
      StepKeepsPipe(s, run[0]);
      RunKeepsPipe(s1, run[1..], s');
    }
  }

  lemma {:induction false} StepKeepsPipe(s: State, step: Step)
    requires Enabled(s, step) && s.read + s.pipe == s.written
    ensures var s' := Next(s, step);
      s'.read + s'.pipe == s'.written
  {
    match step
    case ReadControl => assert s.read + [s.pipe[0]] + s.pipe[1..] == s.read + s.pipe;
    case DbAnswer(k) => assert s.read + (s.pipe + [s.inDb[k]]) == s.read + s.pipe + [s.inDb[k]];
    case _ =>
  }

  /** The control pipe hands the answers on in the order in which they were written. */
  lemma {:induction false} PipeInOrder(s0: State, run: seq<Step>, s: State)
    requires Init(s0) && Reaches(s0, run, s)
    ensures s.read + s.pipe == s.written
  {
    RunKeepsPipe(s0, run, s);
  }
}
