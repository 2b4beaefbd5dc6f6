/**
 db_parallel.c on the queues of req_queue_cnd.c: the workers, the clients and destroy run on the real
 queue operations, step by step. What they do is what the database with atomic queues does.
 */
module DbThreads {
  import opened Options
  import opened KeyValue
  import Q = CndQueue
  import Db = ParallelDb
  import StringHash

  type Op = Db.Op

  datatype Worker = Popping | Running(op: Op) | Exited

  /** Thread 0 of each queue is the one that calls destroy; the others are clients. */
  datatype Shard = Shard(queue: Q.State<Op>, bound: nat, worker: Worker, db: Contents, answers: seq<Db.Answer>)

  datatype State = State(shards: seq<Shard>, log: seq<Db.Request>, destroyer: Db.Destroyer, aborted: bool)

  ghost predicate Init(s: State) {
    && |s.shards| == Db.N_SUBS && s.log == [] && s.destroyer == Db.NotCalled && !s.aborted
    && forall h :: 0 <= h < Db.N_SUBS ==>
         && Q.Init(s.shards[h].queue) && s.shards[h].queue.threads != []
         && s.shards[h] == Shard(s.shards[h].queue, 0, Popping, map[], [])
  }

  /** A client calls geta or set; a client goes on inside push; a worker goes on inside pop; a worker
      wakes up for no reason; a worker serves its request; destroy goes on. */
  datatype Step = Call(i: nat, op: Op) | Client(h: nat, i: nat) | Pop(h: nat) | Spurious(h: nat) | Serve(h: nat)
    | Destroy

  ghost function PopStep(q: Q.State<Op>): Q.Step<Op> {
    if q.pc == Q.Idle then Q.CallPop else Q.StepPop
  }

  ghost function StopStep(q: Q.State<Op>): Q.Step<Op>
    requires q.threads != []
  {
    if q.threads[0] == Q.Outside then Q.BeginStop(0) else Q.StepThread(0)
  }

  ghost predicate Enabled(s: State, step: Step) {
    && !s.aborted && s.destroyer != Db.Destroyed && |s.shards| == Db.N_SUBS
    && match step
       case Call(i, op) =>
         Db.AssertionHolds(op.key) ==>
           0 < i && Q.Enabled(s.shards[StringHash.Hash(op.key)].queue, Q.BeginPush(i, op))
       case Client(h, i) => h < |s.shards| && 0 < i && Q.Enabled(s.shards[h].queue, Q.StepThread(i))
       case Pop(h) =>
         h < |s.shards| && s.shards[h].worker.Popping? && Q.Enabled(s.shards[h].queue, PopStep(s.shards[h].queue))
       case Spurious(h) => h < |s.shards| && Q.Enabled(s.shards[h].queue, Q.SpuriousWake)
       case Serve(h) => h < |s.shards| && s.shards[h].worker.Running?
       case Destroy =>
         match s.destroyer
         case NotCalled => true
         case Stopping(i) =>
           i < |s.shards| && s.shards[i].queue.threads != []
           && Q.Enabled(s.shards[i].queue, StopStep(s.shards[i].queue))
         case Joining(i) =>
           i < |s.shards| && s.shards[i].queue.threads != []
           && if s.shards[i].queue.threads[0] == Q.Outside then s.shards[i].worker.Exited?
              else Q.Enabled(s.shards[i].queue, Q.StepThread(0))
  }

  /** A shard after a step of its queue: the worker has what pop returned. */
  ghost function Moved(d: Shard, step: Q.Step<Op>): Shard
    requires Q.Enabled(d.queue, step)
  {
    var worker :=
      match Q.Observed(d.queue, step)
      case Popped(op) => Running(op)
      case PoppedNull => Exited
      case _ => d.worker;
    d.(queue := Q.Next(d.queue, step), worker := worker)
  }

  ghost function Logged(log: seq<Db.Request>, e: Q.Event<Op>): seq<Db.Request> {
    if e.Pushed? then log + [Db.Request(|log|, e.request)] else log
  }

  /** The state after a step of one queue. */
  ghost function At(s: State, h: nat, step: Q.Step<Op>): State
    requires h < |s.shards| && Q.Enabled(s.shards[h].queue, step)
  {
    s.(shards := s.shards[h := Moved(s.shards[h], step)], log := Logged(s.log, Q.Observed(s.shards[h].queue, step)))
  }

  /** The body of the worker's loop; `mine` are the requests pushed to the shard so far. */
  ghost function Served(mine: seq<Db.Request>, d: Shard): Shard
    requires d.worker.Running?
  {
    var n := |d.queue.popped|;
    var id := if 0 < n <= |mine| then mine[n - 1].id else 0;
    match d.worker.op
    case Get(key) => d.(worker := Popping, answers := d.answers + [Db.Answer(id, Lookup(d.db, key))])
    case Set(key, value) => d.(worker := Popping, db := Updated(d.db, key, value))
  }

  ghost function Next(s: State, step: Step): State
    requires Enabled(s, step)
  {
    match step
    case Call(i, op) =>
      if !Db.AssertionHolds(op.key) then s.(aborted := true)
      else At(s, StringHash.Hash(op.key), Q.BeginPush(i, op))
    case Client(h, i) => At(s, h, Q.StepThread(i))
    case Pop(h) => At(s, h, PopStep(s.shards[h].queue))
    case Spurious(h) => At(s, h, Q.SpuriousWake)
    case Serve(h) => s.(shards := s.shards[h := Served(Db.Mine(s.log, h), s.shards[h])])
    case Destroy =>
      match s.destroyer
      case NotCalled => s.(destroyer := Db.Stopping(0))
      case Stopping(i) =>
        var s' := At(s, i, StopStep(s.shards[i].queue));
        if s.shards[i].queue.threads[0] == Q.HoldStop then
          s'.(shards := s'.shards[i := s'.shards[i].(bound := |s.log|)], destroyer := Db.Joining(i))
        else s'
      case Joining(i) =>
        if s.shards[i].queue.threads[0] == Q.Outside then
          s.(destroyer := if i + 1 == |s.shards| then Db.Destroyed else Db.Stopping(i + 1))
        else At(s, i, Q.StepThread(0))
  }

  ghost predicate Reaches(s: State, run: seq<Step>, s': State)
    decreases |run|
  {
    if run == [] then s' == s
    else Enabled(s, run[0]) && Reaches(Next(s, run[0]), run[1..], s')
  }

  // ---------- one shard ----------

  ghost function Ops(rs: seq<Db.Request>): seq<Op> {
    seq(|rs|, i requires 0 <= i < |rs| => rs[i].op)
  }

  /** Only destroy stops the queue, and only clients push, each to the shard of its key. */
  ghost predicate Roles(h: nat, threads: seq<Q.ThreadPc<Op>>) {
    threads != [] && forall i :: 0 <= i < |threads| ==> Role(h, i, threads[i])
  }

  ghost predicate Role(h: nat, i: nat, pc: Q.ThreadPc<Op>) {
    && (pc.WantPush? || pc.HoldPush? ==>
          0 < i && Db.AssertionHolds(pc.request.key) && StringHash.Hash(pc.request.key) == h)
    && (pc.WantStop? || pc.HoldStop? ==> i == 0)
  }

  /** The worker is outside pop while it has a request, which is the last one popped, or has left. */
  ghost predicate Working(d: Shard) {
    && (!d.worker.Popping? ==> d.queue.pc == Q.Idle)
    && (d.worker.Running? ==> d.queue.popped != [] && d.worker.op == d.queue.popped[|d.queue.popped| - 1])
  }

  ghost predicate ShardInv(mine: seq<Db.Request>, h: nat, d: Shard) {
    && Q.Inv(d.queue) && Ops(mine) == d.queue.pushed && Roles(h, d.queue.threads) && Working(d)
  }

  /** The shard with an atomic queue. */
  ghost function Abstract(mine: seq<Db.Request>, h: nat, d: Shard): Db.Shard
    requires ShardInv(mine, h, d)
  {
    var n := |d.queue.popped|;
    assert n <= |d.queue.pushed| == |Ops(mine)|;
    var (worker, done) :=
      match d.worker
      case Popping => (Db.Popping, mine[..n])
      case Exited => (Db.Exited, mine[..n])
      case Running(_) => (Db.Running(mine[n - 1]), mine[..n - 1]);
    Db.Shard(mine[n..], d.queue.running, d.bound, worker, d.db, d.answers, done)
  }

  lemma {:induction false} MineSnoc(log: seq<Db.Request>, r: Db.Request, h: nat)
    ensures Db.Mine(log + [r], h)
            == if StringHash.Hash(r.op.key) == h then Db.Mine(log, h) + [r] else Db.Mine(log, h)
  {
    assert (log + [r])[..|log|] == log;
  }

  /** What a step of a queue adds to its histories, and how it looks from outside. */
  lemma {:induction false} Histories(q: Q.State<Op>, step: Q.Step<Op>)
    requires Q.Inv(q) && Q.Enabled(q, step)
    ensures var (q', e) := (Q.Next(q, step), Q.Observed(q, step));
      && Q.Inv(q') && Q.Atomic(Q.Abstract(q), e, Q.Abstract(q'))
      && q'.pushed == (if e.Pushed? then q.pushed + [e.request] else q.pushed)
      && q'.popped == (if e.Popped? then q.popped + [e.request] else q.popped)
  {
    hide Q.Inv, Q.Pop, Q.Run, Q.CanPop, Q.CanRun, Q.ReturnsNull;
    Q.StepKeepsInv(q, step);
    match step
    case StepPop =>
      Q.PopRefines(q);
      PopHistories(q);
    case StepThread(i) =>
      Q.ThreadRefines(q, i);
      ThreadHistories(q, i);
    case _ =>
  }

  lemma PopHistories(q: Q.State<Op>)
    requires Q.CanPop(q)
    ensures var (q', e) := (Q.Pop(q), Q.Observed(q, Q.StepPop));
      !e.Pushed? && q'.pushed == q.pushed && q'.popped == if e.Popped? then q.popped + [e.request] else q.popped
  {
  }

  lemma ThreadHistories(q: Q.State<Op>, i: nat)
    requires Q.CanRun(q, i)
    ensures var (q', e) := (Q.Run(q, i), Q.Observed(q, Q.StepThread(i)));
      !e.Popped? && q'.popped == q.popped && q'.pushed == if e.Pushed? then q.pushed + [e.request] else q.pushed
  {
  }

  /** The steps the parts of the program take. */
  ghost predicate Allowed(h: nat, d: Shard, step: Q.Step<Op>) {
    match step
    case CallPop => d.worker.Popping?
    case StepPop => d.worker.Popping?
    case BeginPush(i, op) => 0 < i && Db.AssertionHolds(op.key) && StringHash.Hash(op.key) == h
    case BeginStop(i) => i == 0
    case _ => true
  }

  lemma PopKeepsThreads(q: Q.State<Op>)
    requires Q.CanPop(q)
    ensures Q.Pop(q).threads == q.threads
  {
  }

  lemma {:induction false} KeepsRoles(h: nat, d: Shard, step: Q.Step<Op>)
    requires Q.Enabled(d.queue, step) && Allowed(h, d, step) && Roles(h, d.queue.threads)
    ensures Roles(h, Q.Next(d.queue, step).threads)
    ensures var e := Q.Observed(d.queue, step);
      e.Pushed? ==> Db.AssertionHolds(e.request.key) && StringHash.Hash(e.request.key) == h
  {
    hide Db.AssertionHolds, StringHash.Hash, Q.Pop, Q.CanPop;
    var threads, threads' := d.queue.threads, Q.Next(d.queue, step).threads;
    if step == Q.StepPop {
      PopKeepsThreads(d.queue);
    }
    forall k | 0 <= k < |threads'| ensures Role(h, k, threads'[k]) {
      assert Role(h, k, threads[k]);
    }
  }

  lemma {:induction false} KeepsWorker(h: nat, d: Shard, step: Q.Step<Op>)
    requires Q.Enabled(d.queue, step) && Allowed(h, d, step) && Working(d)
    ensures Working(Moved(d, step))
  {
    hide Q.Pop, Q.Run, Q.CanPop, Q.CanRun, Q.ReturnsNull;
    match step
    case StepPop => PopKeepsWorker(d);
    case StepThread(i) => ThreadKeepsWorker(d, i);
    case _ =>
  }

  lemma PopKeepsWorker(d: Shard)
    requires Q.CanPop(d.queue) && d.worker.Popping?
    ensures Working(Moved(d, Q.StepPop))
  {
  }

  lemma ThreadKeepsWorker(d: Shard, i: nat)
    requires Q.CanRun(d.queue, i) && Working(d)
    ensures Working(Moved(d, Q.StepThread(i)))
  {
  }

  /** One step of a queue, seen by its shard. */
  lemma {:induction false} MovedInv(log: seq<Db.Request>, h: nat, d: Shard, step: Q.Step<Op>)
    requires ShardInv(Db.Mine(log, h), h, d) && Q.Enabled(d.queue, step) && Allowed(h, d, step)
    ensures var e := Q.Observed(d.queue, step);
      && ShardInv(Db.Mine(Logged(log, e), h), h, Moved(d, step))
      && (e.Pushed? ==> Db.AssertionHolds(e.request.key) && StringHash.Hash(e.request.key) == h)
  {
    hide Db.Mine, StringHash.Hash, Q.Inv, Q.Atomic, Q.Abstract, Roles, Q.Enabled, Q.Next;
    var e := Q.Observed(d.queue, step);
    Histories(d.queue, step);
    KeepsRoles(h, d, step);
    KeepsWorker(h, d, step);
    if e.Pushed? {
      var r := Db.Request(|log|, e.request);
      MineSnoc(log, r, h);
      OpsSnoc(Db.Mine(log, h), r);
    }
  }

  lemma {:induction false} OpsSnoc(rs: seq<Db.Request>, r: Db.Request)
    ensures Ops(rs + [r]) == Ops(rs) + [r.op]
  {
  }

  /** The requests not yet popped are the content of the queue. */
  lemma {:induction false} Unpopped(mine: seq<Db.Request>, h: nat, d: Shard)
    requires ShardInv(mine, h, d)
    ensures var (n, content) := (|d.queue.popped|, Q.Abstract(d.queue).content);
      && n <= |mine| && |mine[n..]| == |content| && (content != [] ==> mine[n].op == content[0])
  {
    var q := d.queue;
    assert q.pushed == q.popped + (q.local + q.shared);
    assert |Ops(mine)| == |mine|;
    assert Ops(mine[|q.popped|..]) == Ops(mine)[|q.popped|..] == q.pushed[|q.popped|..];
  }

  lemma PopsForWorker(h: nat, d: Shard, step: Q.Step<Op>)
    requires Q.Enabled(d.queue, step) && Allowed(h, d, step)
    ensures var e := Q.Observed(d.queue, step);
      e.Popped? || e.PoppedNull? ==> d.worker.Popping?
  {
  }

  lemma InShard(mine: seq<Db.Request>, h: nat, d: Shard)
    requires ShardInv(mine, h, d)
    ensures Q.Inv(d.queue)
  {
  }

  /** What a step of the queue does to the shard with an atomic queue. */
  ghost predicate Moves(a: Db.Shard, e: Q.Event<Op>, r: Db.Request, a': Db.Shard) {
    match e
    case Internal => a' == a
    case Pushed(_) => a' == a.(queue := a.queue + [r])
    case Popped(_) =>
      a.worker.Popping? && a.queue != [] && a' == a.(worker := Db.Running(a.queue[0]), queue := a.queue[1..])
    case PoppedNull => a.worker.Popping? && a.queue == [] && !a.running && a' == a.(worker := Db.Exited)
    case Stopped => a' == a.(running := false)
  }

  lemma PoppedFits(mine: seq<Db.Request>, h: nat, d: Shard)
    requires ShardInv(mine, h, d)
    ensures |d.queue.popped| <= |mine|
  {
    Unpopped(mine, h, d);
  }

  lemma {:induction false} SliceMore<T>(s: seq<T>, more: seq<T>, n: nat)
    requires n <= |s|
    ensures (s + more)[n..] == s[n..] + more && (s + more)[..n] == s[..n]
    ensures n > 0 ==> (s + more)[..n - 1] == s[..n - 1] && (s + more)[n - 1] == s[n - 1]
  {
  }

  /** A push, or a step that leaves the requests as they are. */
  lemma {:induction false} AbstractAfter(mine: seq<Db.Request>, more: seq<Db.Request>, h: nat, d: Shard, d': Shard)
    requires ShardInv(mine, h, d) && ShardInv(mine + more, h, d')
    requires d'.queue.popped == d.queue.popped && d' == d.(queue := d'.queue)
    ensures var a := Abstract(mine, h, d);
      Abstract(mine + more, h, d') == a.(queue := a.queue + more, running := d'.queue.running)
  {
    hide Q.Inv, Roles, Ops;
    PoppedFits(mine, h, d);
    SliceMore(mine, more, |d.queue.popped|);
  }

  /** A request passes to the worker. */
  lemma {:induction false} AbstractTaken(mine: seq<Db.Request>, h: nat, d: Shard, d': Shard, op: Op)
    requires ShardInv(mine, h, d) && ShardInv(mine, h, d') && d.worker.Popping?
    requires d'.queue.popped == d.queue.popped + [op] && d' == d.(queue := d'.queue, worker := Running(op))
    ensures var a := Abstract(mine, h, d);
      a.queue != []
      && Abstract(mine, h, d') == a.(worker := Db.Running(a.queue[0]), queue := a.queue[1..],
                                     running := d'.queue.running)
  {
    hide Q.Inv, Q.Abstract, Roles, Ops;
    var n := |d.queue.popped|;
    Unpopped(mine, h, d');
    assert mine[..n + 1][..n] == mine[..n];
  }

  lemma {:induction false} MovedAbstract(mine: seq<Db.Request>, mine': seq<Db.Request>, h: nat, d: Shard,
                                         step: Q.Step<Op>, r: Db.Request)
    requires ShardInv(mine, h, d) && Q.Enabled(d.queue, step) && Allowed(h, d, step)
    requires ShardInv(mine', h, Moved(d, step))
    requires mine' == if Q.Observed(d.queue, step).Pushed? then mine + [r] else mine
    ensures Moves(Abstract(mine, h, d), Q.Observed(d.queue, step), r, Abstract(mine', h, Moved(d, step)))
  {
    hide ShardInv, Abstract, Q.Enabled, Q.Next, Q.Observed, Allowed;
    PopsForWorker(h, d, step);
    var d', e := Moved(d, step), Q.Observed(d.queue, step);
    InShard(mine, h, d);
    Histories(d.queue, step);
    ShardShows(mine, h, d);
    assert mine + [] == mine;
    match e
    case Popped(op) => AbstractTaken(mine, h, d, d', op);
    case Pushed(_) => AbstractAfter(mine, [r], h, d, d');
    case PoppedNull => AbstractLeft(mine, h, d, d');
    case _ => AbstractAfter(mine, [], h, d, d');
  }

  /** The worker leaves. */
  lemma {:induction false} AbstractLeft(mine: seq<Db.Request>, h: nat, d: Shard, d': Shard)
    requires ShardInv(mine, h, d) && ShardInv(mine, h, d') && d.worker.Popping?
    requires d'.queue.popped == d.queue.popped && d' == d.(queue := d'.queue, worker := Exited)
    ensures var a := Abstract(mine, h, d);
      Abstract(mine, h, d') == a.(worker := Db.Exited, running := d'.queue.running)
  {
    hide Q.Inv, Roles, Ops;
  }

  lemma {:induction false} ShardShows(mine: seq<Db.Request>, h: nat, d: Shard)
    requires ShardInv(mine, h, d)
    ensures var a := Abstract(mine, h, d);
      && a.running == d.queue.running && (a.worker.Popping? <==> d.worker.Popping?)
      && |a.queue| == |Q.Abstract(d.queue).content|
  {
    hide Q.Inv, Q.Abstract, Roles, Ops;
    Unpopped(mine, h, d);
  }

  lemma {:induction false} ServedAbstract(mine: seq<Db.Request>, h: nat, d: Shard)
    requires ShardInv(mine, h, d) && d.worker.Running?
    ensures ShardInv(mine, h, Served(mine, d))
    ensures var a := Abstract(mine, h, d);
      Db.CanWork(a) && Abstract(mine, h, Served(mine, d)) == Db.Worked(a)
  {
    hide Q.Inv, Roles;
    var q, n := d.queue, |d.queue.popped|;
    InShard(mine, h, d);
    Unpopped(mine, h, d);
    PoppedFirst(q);
    assert Ops(mine)[n - 1] == mine[n - 1].op;
    assert mine[..n - 1] + [mine[n - 1]] == mine[..n];
  }

  lemma PoppedFirst(q: Q.State<Op>)
    requires Q.Inv(q)
    ensures q.popped <= q.pushed
  {
    assert q.pushed == q.popped + (q.local + q.shared);
  }

  // ---------- the whole database ----------

  ghost predicate Shards(s: State) {
    |s.shards| == Db.N_SUBS && forall h :: 0 <= h < Db.N_SUBS ==> ShardInv(Db.Mine(s.log, h), h, s.shards[h])
  }

  /** Thread 0 is on its way to stop a queue only while destroy is stopping that queue. */
  ghost predicate Stopper(s: State, h: nat)
    requires h < |s.shards|
  {
    var threads := s.shards[h].queue.threads;
    threads != [] && (threads[0].WantStop? || threads[0].HoldStop? ==> s.destroyer == Db.Stopping(h))
  }

  ghost predicate Inv(s: State) {
    && Shards(s) && forall h :: 0 <= h < Db.N_SUBS ==> Stopper(s, h)
  }

  ghost function AbstractState(s: State): Db.State
    requires Shards(s)
  {
    Db.State(seq(Db.N_SUBS, h requires 0 <= h < Db.N_SUBS && Shards(s) => Abstract(Db.Mine(s.log, h), h, s.shards[h])),
             s.log, s.destroyer, s.aborted)
  }

  /** The step of the database with atomic queues, if the step shows. */
  ghost function AbstractStep(s: State, step: Step): Option<Db.Step>
    requires Enabled(s, step)
  {
    match step
    case Call(_, op) => if Db.AssertionHolds(op.key) then None else Some(Db.Push(op))
    case Client(h, i) => OfQueue(h, Q.Observed(s.shards[h].queue, Q.StepThread(i)))
    case Pop(h) => OfQueue(h, Q.Observed(s.shards[h].queue, PopStep(s.shards[h].queue)))
    case Spurious(_) => None
    case Serve(h) => Some(Db.Work(h))
    case Destroy =>
      match s.destroyer
      case NotCalled => Some(Db.Destroy)
      case Stopping(i) => if s.shards[i].queue.threads[0].HoldStop? then Some(Db.Destroy) else None
      case Joining(i) => if s.shards[i].queue.threads[0].Outside? then Some(Db.Destroy) else None
  }

  ghost function OfQueue(h: nat, e: Q.Event<Op>): Option<Db.Step> {
    match e
    case Pushed(op) => Some(Db.Push(op))
    case Popped(_) => Some(Db.Work(h))
    case PoppedNull => Some(Db.Work(h))
    case _ => None
  }

  /** The database with atomic queues takes the step, or stays where it is. */
  ghost predicate Follows(a: Db.State, step: Option<Db.Step>, a': Db.State) {
    if step.None? then a' == a else Db.Enabled(a, step.value) && a' == Db.Next(a, step.value)
  }

  lemma {:induction false} AtShards(s: State, h: nat, step: Q.Step<Op>)
    requires Shards(s) && h < |s.shards| && Q.Enabled(s.shards[h].queue, step) && Allowed(h, s.shards[h], step)
    ensures Shards(At(s, h, step))
    ensures var e := Q.Observed(s.shards[h].queue, step);
      && (e.Pushed? ==> Db.AssertionHolds(e.request.key) && StringHash.Hash(e.request.key) == h)
      && (forall k :: 0 <= k < Db.N_SUBS && k != h ==> Db.Mine(At(s, h, step).log, k) == Db.Mine(s.log, k))
  {
    hide ShardInv, Db.Mine, StringHash.Hash, Q.Enabled, Moved, Allowed;
    var d, s' := s.shards[h], At(s, h, step);
    var e := Q.Observed(d.queue, step);
    MovedInv(s.log, h, d, step);
    forall k | 0 <= k < Db.N_SUBS
      ensures k != h ==> Db.Mine(s'.log, k) == Db.Mine(s.log, k)
      ensures ShardInv(Db.Mine(s'.log, k), k, s'.shards[k])
    {
      if e.Pushed? {
        MineSnoc(s.log, Db.Request(|s.log|, e.request), k);
      }
    }
  }

  /** A step of one queue, seen by the whole database. */
  lemma {:induction false} AtFollows(s: State, h: nat, step: Q.Step<Op>)
    requires Shards(s) && h < |s.shards| && Q.Enabled(s.shards[h].queue, step) && Allowed(h, s.shards[h], step)
    requires !s.aborted && s.destroyer != Db.Destroyed
    ensures Shards(At(s, h, step))
    ensures var (e, a, a') := (Q.Observed(s.shards[h].queue, step), AbstractState(s), AbstractState(At(s, h, step)));
      if e.Stopped? then a' == a.(shards := a.shards[h := a.shards[h].(running := false)])
      else Follows(a, OfQueue(h, e), a')
  {
    hide ShardInv, Abstract, Db.Mine, StringHash.Hash, Db.AssertionHolds, Q.Enabled, Moved, Allowed;
    AtShards(s, h, step);
    var d, s' := s.shards[h], At(s, h, step);
    var e := Q.Observed(d.queue, step);
    var mine, mine' := Db.Mine(s.log, h), Db.Mine(s'.log, h);
    if e.Pushed? {
      MineSnoc(s.log, Db.Request(|s.log|, e.request), h);
    }
    var r := if e.Pushed? then Db.Request(|s.log|, e.request) else Db.Request(0, Db.Get(""));
    MovedAbstract(mine, mine', h, d, step, r);
    var a, a' := AbstractState(s), AbstractState(s');
    assert a'.shards == a.shards[h := a'.shards[h]];
  }

  lemma {:induction false} AtStopper(s: State, h: nat, step: Q.Step<Op>, k: nat)
    requires Shards(s) && h < |s.shards| && k < |s.shards| && Stopper(s, k)
    requires Q.Enabled(s.shards[h].queue, step)
    requires step.BeginStop? ==> step.id == 0 && s.destroyer == Db.Stopping(h)
    ensures Stopper(At(s, h, step), k)
  {
    hide ShardInv, Db.Mine, StringHash.Hash, Q.Pop, Q.CanPop;
    if step == Q.StepPop {
      PopKeepsThreads(s.shards[h].queue);
    }
  }

  /** No part of the program but destroy stops a queue. */
  lemma {:induction false} NotStopped(s: State, h: nat, step: Q.Step<Op>)
    requires Shards(s) && h < |s.shards| && Q.Enabled(s.shards[h].queue, step)
    requires step.StepThread? ==> 0 < step.id || !s.shards[h].queue.threads[0].HoldStop?
    ensures Q.Observed(s.shards[h].queue, step) != Q.Stopped
  {
    hide Q.Inv, Db.Mine, StringHash.Hash;
    assert Roles(h, s.shards[h].queue.threads);
    assert step.StepThread? ==> Role(h, step.id, s.shards[h].queue.threads[step.id]);
  }

  /** A step of one queue that does not stop it. */
  lemma {:induction false} QueueStep(s: State, h: nat, step: Q.Step<Op>)
    requires Inv(s) && !s.aborted && s.destroyer != Db.Destroyed && h < |s.shards|
    requires Q.Enabled(s.shards[h].queue, step) && Allowed(h, s.shards[h], step)
    requires step.StepThread? ==> 0 < step.id || !s.shards[h].queue.threads[0].HoldStop?
    requires step.BeginStop? ==> s.destroyer == Db.Stopping(h)
    ensures Inv(At(s, h, step))
    ensures Follows(AbstractState(s), OfQueue(h, Q.Observed(s.shards[h].queue, step)), AbstractState(At(s, h, step)))
  {
    hide ShardInv, Stopper, Abstract, Db.Mine, AbstractState, Q.Enabled, Follows;
    AtFollows(s, h, step);
    NotStopped(s, h, step);
    forall k | 0 <= k < Db.N_SUBS ensures Stopper(At(s, h, step), k) {
      AtStopper(s, h, step, k);
    }
  }

  lemma {:induction false} ServeStep(s: State, h: nat)
    requires Inv(s) && Enabled(s, Serve(h))
    ensures Inv(Next(s, Serve(h)))
    ensures Follows(AbstractState(s), Some(Db.Work(h)), AbstractState(Next(s, Serve(h))))
  {
    hide ShardInv, Abstract, Db.Mine, Db.Worked, Db.CanWork;
    var s' := Next(s, Serve(h));
    ServedAbstract(Db.Mine(s.log, h), h, s.shards[h]);
    forall k | 0 <= k < Db.N_SUBS ensures Stopper(s', k) {
      assert Stopper(s, k);
    }
    assert Shards(s');
    var a, a' := AbstractState(s), AbstractState(s');
    assert a'.shards == a.shards[h := a'.shards[h]];
  }

  /** stop sets the flag: destroy goes on to join the worker. */
  lemma {:induction false} StopNow(s: State, i: nat)
    requires Inv(s) && s.destroyer == Db.Stopping(i) && Enabled(s, Destroy)
    requires s.shards[i].queue.threads[0].HoldStop?
    ensures Inv(Next(s, Destroy))
    ensures Follows(AbstractState(s), Some(Db.Destroy), AbstractState(Next(s, Destroy)))
  {
    hide ShardInv, Abstract, Db.Mine, StringHash.Hash;
    var s1, s' := At(s, i, Q.StepThread(0)), Next(s, Destroy);
    AtFollows(s, i, Q.StepThread(0));
    assert Stopper(s, i);
    forall h | 0 <= h < Db.N_SUBS
      ensures Stopper(s', h) && ShardInv(Db.Mine(s'.log, h), h, s'.shards[h])
    {
      assert Stopper(s, h);
      Bounded(Db.Mine(s'.log, h), h, s1.shards[h], |s.log|);
    }
    assert Shards(s');
    var a, a1, a' := AbstractState(s), AbstractState(s1), AbstractState(s');
    Bounded(Db.Mine(s'.log, i), i, s1.shards[i], |s.log|);
    assert a'.shards == a1.shards[i := a1.shards[i].(bound := |s.log|)];
  }

  lemma Bounded(mine: seq<Db.Request>, h: nat, d: Shard, bound: nat)
    requires ShardInv(mine, h, d)
    ensures ShardInv(mine, h, d.(bound := bound))
    ensures Abstract(mine, h, d.(bound := bound)) == Abstract(mine, h, d).(bound := bound)
  {
  }

  lemma {:induction false} DestroyStep(s: State)
    requires Inv(s) && Enabled(s, Destroy)
    ensures Inv(Next(s, Destroy))
    ensures Follows(AbstractState(s), AbstractStep(s, Destroy), AbstractState(Next(s, Destroy)))
  {
    hide ShardInv, Db.Mine, StringHash.Hash;
    var s' := Next(s, Destroy);
    match s.destroyer
    case NotCalled => DestroyerMoves(s, s'.destroyer);
    case Stopping(i) =>
      assert Stopper(s, i);
      if s.shards[i].queue.threads[0].HoldStop? {
        StopNow(s, i);
      } else {
        StopperIsSilent(s, i, StopStep(s.shards[i].queue));
        QueueStep(s, i, StopStep(s.shards[i].queue));
      }
    case Joining(i) =>
      assert Stopper(s, i);
      if s.shards[i].queue.threads[0].Outside? {
        DestroyerMoves(s, s'.destroyer);
      } else {
        StopperIsSilent(s, i, Q.StepThread(0));
        QueueStep(s, i, Q.StepThread(0));
      }
  }

  /** Nothing else that thread 0 does shows. */
  lemma {:induction false} StopperIsSilent(s: State, i: nat, step: Q.Step<Op>)
    requires Shards(s) && i < |s.shards| && (step == Q.BeginStop(0) || step == Q.StepThread(0))
    requires s.shards[i].queue.threads != [] && !s.shards[i].queue.threads[0].HoldStop?
    ensures OfQueue(i, Q.Observed(s.shards[i].queue, step)) == None
  {
    hide Q.Inv, Db.Mine, StringHash.Hash;
    assert Role(i, 0, s.shards[i].queue.threads[0]);
  }

  /** Destroy turns to the next queue, or to its first. */
  lemma {:induction false} DestroyerMoves(s: State, d: Db.Destroyer)
    requires Inv(s) && Enabled(s, Destroy) && !s.destroyer.Stopping?
    requires s.destroyer.Joining? ==> s.shards[s.destroyer.i].queue.threads[0].Outside?
    requires d == Next(s, Destroy).destroyer
    ensures Inv(s.(destroyer := d))
    ensures Follows(AbstractState(s), Some(Db.Destroy), AbstractState(s.(destroyer := d)))
  {
    hide ShardInv, Db.Mine, StringHash.Hash;
    var s' := s.(destroyer := d);
    assert Shards(s');
    forall h | 0 <= h < Db.N_SUBS ensures Stopper(s', h) {
      assert Stopper(s, h);
    }
    assert AbstractState(s').shards == AbstractState(s).shards;
  }

  /** Every step is one step of the database with atomic queues, or does not show. */
  lemma {:induction false} StepFollows(s: State, step: Step)
    requires Inv(s) && Enabled(s, step)
    ensures Inv(Next(s, step))
    ensures Follows(AbstractState(s), AbstractStep(s, step), AbstractState(Next(s, step)))
  {
    hide ShardInv, Db.Mine, StringHash.Hash, Stopper, Q.Enabled;
    match step
    case Call(i, op) =>
      if Db.AssertionHolds(op.key) {
        QueueStep(s, StringHash.Hash(op.key), Q.BeginPush(i, op));
      } else {
        Aborts(s, op);
      }
    case Client(h, i) => QueueStep(s, h, Q.StepThread(i));
    case Pop(h) => QueueStep(s, h, PopStep(s.shards[h].queue));
    case Spurious(h) => QueueStep(s, h, Q.SpuriousWake);
    case Serve(h) => ServeStep(s, h);
    case Destroy => DestroyStep(s);
  }

  lemma {:induction false} Aborts(s: State, op: Op)
    requires Inv(s) && !s.aborted && s.destroyer != Db.Destroyed && !Db.AssertionHolds(op.key)
    ensures Inv(s.(aborted := true))
    ensures Follows(AbstractState(s), Some(Db.Push(op)), AbstractState(s.(aborted := true)))
  {
    hide ShardInv, Db.Mine, Db.AssertionHolds;
    var s' := s.(aborted := true);
    assert Shards(s');
    forall h | 0 <= h < Db.N_SUBS ensures Stopper(s', h) {
      assert Stopper(s, h);
    }
    assert AbstractState(s').shards == AbstractState(s).shards;
  }

  // ---------- runs ----------

  ghost function AbstractRun(s: State, run: seq<Step>): seq<Db.Step>
    decreases |run|
  {
    if run == [] || !Enabled(s, run[0]) then []
    else
      var rest := AbstractRun(Next(s, run[0]), run[1..]);
      match AbstractStep(s, run[0])
      case None => rest
      case Some(a) => [a] + rest
  }

  lemma {:induction false} RunFollows(s: State, run: seq<Step>, s': State)
    requires Inv(s) && Reaches(s, run, s')
    ensures Inv(s') && Db.Reaches(AbstractState(s), AbstractRun(s, run), AbstractState(s'))
    decreases |run|
  {
    if run != [] {
      hide Inv, AbstractState, AbstractStep, Enabled, Next;
      var s1 := Next(s, run[0]);
      StepFollows(s, run[0]);
      RunFollows(s1, run[1..], s');
      var rest := AbstractRun(s1, run[1..]);
      if AbstractStep(s, run[0]).Some? {
        assert ([AbstractStep(s, run[0]).value] + rest)[1..] == rest;
      }
    }
  }

  lemma {:induction false} Begins(s: State)
    requires Init(s)
    ensures Inv(s) && Db.Init(AbstractState(s))
  {
    forall h | 0 <= h < Db.N_SUBS
      ensures ShardInv(Db.Mine(s.log, h), h, s.shards[h]) && Stopper(s, h)
      ensures Abstract(Db.Mine(s.log, h), h, s.shards[h]) == Db.Shard([], true, 0, Db.Popping, map[], [], [])
    {
    }
  }

  /** A run of the threads shows a run of the database with atomic queues. */
  lemma {:induction false} Refines(s0: State, run: seq<Step>, s: State)
    requires Init(s0) && Reaches(s0, run, s)
    ensures Shards(s0) && Db.Init(AbstractState(s0)) && Shards(s)
    ensures Db.Reaches(AbstractState(s0), AbstractRun(s0, run), AbstractState(s))
  {
    Begins(s0);
    RunFollows(s0, run, s);
  }

  lemma {:induction false} SameAnswers(s: State, h: nat)
    requires Shards(s) && h < Db.N_SUBS
    ensures AbstractState(s).shards[h].answers == s.shards[h].answers
    ensures AbstractState(s).shards[h].bound == s.shards[h].bound
  {
    assert ShardInv(Db.Mine(s.log, h), h, s.shards[h]);
  }

  /** Whatever the interleaving inside push, pop and stop, each answer is the one the sequential map
      gives at the place of its request, and no request is answered twice or by another shard. */
  lemma {:induction false} ThreadedAnswers(s0: State, run: seq<Step>, s: State, h: nat, k: nat, id: nat)
    requires Init(s0) && Reaches(s0, run, s) && h < |s.shards|
    ensures k < |s.shards[h].answers| ==>
      var a := s.shards[h].answers[k];
      && a.id < |s.log| && s.log[a.id].op.Get? && StringHash.Hash(s.log[a.id].op.key) == h
      && a.value == Lookup(Db.Replay(s.log[..a.id]), s.log[a.id].op.key)
      && Db.Latest(s.log[..a.id], s.log[a.id].op.key, a.value)
    ensures Db.Answers(s.shards[h].answers, id) <=
            if id < |s.log| && s.log[id].op.Get? && StringHash.Hash(s.log[id].op.key) == h then 1 else 0
  {
    hide Db.Init, Db.Reaches, Db.Latest, ShardInv, StringHash.Hash, Lookup;
    Refines(s0, run, s);
    SameAnswers(s, h);
    if k < |s.shards[h].answers| {
      Db.AnswersAreSequential(AbstractState(s0), AbstractRun(s0, run), AbstractState(s), h, k);
    }
    Db.AnsweredAtMostOnce(AbstractState(s0), AbstractRun(s0, run), AbstractState(s), h, id);
  }

  /** When destroy has joined the workers, every get pushed before its queue was stopped has been
      answered exactly once. */
  lemma {:induction false} ThreadedDestroy(s0: State, run: seq<Step>, s: State, id: nat)
    requires Init(s0) && Reaches(s0, run, s) && s.destroyer == Db.Destroyed
    requires id < |s.log| && s.log[id].op.Get?
    ensures |s.shards| == Db.N_SUBS
    ensures forall h :: 0 <= h < Db.N_SUBS && h == StringHash.Hash(s.log[id].op.key) && id < s.shards[h].bound ==>
              Db.Answers(s.shards[h].answers, id) == 1
  {
    hide Db.Init, Db.Reaches, ShardInv, StringHash.Hash;
    Refines(s0, run, s);
    Db.DestroyAnswersAll(AbstractState(s0), AbstractRun(s0, run), AbstractState(s), id);
    forall h | 0 <= h < Db.N_SUBS
      ensures AbstractState(s).shards[h].answers == s.shards[h].answers
      ensures AbstractState(s).shards[h].bound == s.shards[h].bound
    {
      SameAnswers(s, h);
    }
  }
}
