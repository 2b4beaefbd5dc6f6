/**
 db_parallel.c: one worker per shard, each popping its own queue. Pushes by any threads and
 worker steps interleave freely. The queue is the atomic one that CndQueue refines.
 */
module ParallelDb {
  import opened Options
  import opened Keys
  import opened Powers
  import opened StringHash
  import opened KeyValue

  const N_SUBS := 0xff

  datatype Op = Get(key: Key) | Set(key: Key, value: Option<string>)

  /** A queued request; `id` is its place in the order of pushes. */
  datatype Request = Request(id: nat, op: Op)

  /** One call of the result function. */
  datatype Answer = Answer(id: nat, value: Option<string>)

  datatype Worker = Popping | Running(request: Request) | Exited

  /** `bound` is how many requests had been pushed to all shards when this one was stopped. */
  datatype Shard = Shard(queue: seq<Request>, running: bool, bound: nat, worker: Worker, db: Contents,
                         answers: seq<Answer>, done: seq<Request>)

  /** destroy stops and joins the workers one after the other. */
  datatype Destroyer = NotCalled | Stopping(i: nat) | Joining(i: nat) | Destroyed

  /** `aborted` once an assertion has failed. */
  datatype State = State(shards: seq<Shard>, log: seq<Request>, destroyer: Destroyer, aborted: bool)

  ghost predicate Init(s: State) {
    && |s.shards| == N_SUBS && s.log == [] && s.destroyer == NotCalled && !s.aborted
    && forall h :: 0 <= h < N_SUBS ==> s.shards[h] == Shard([], true, 0, Popping, map[], [], [])
  }

  datatype Step = Push(op: Op) | Work(h: nat) | Destroy

  /** The assertion in get_queue, which geta and set reach first. */
  ghost predicate AssertionHolds(key: Key) {
    Hash(key) < N_SUBS
  }

  ghost predicate CanWork(d: Shard) {
    !d.worker.Exited? && (d.worker.Popping? ==> d.queue != [] || !d.running)
  }

  /** One step of db_thread. */
  ghost function Worked(d: Shard): Shard
    requires CanWork(d)
  {
    match d.worker
    case Popping =>
      if d.queue != [] then d.(worker := Running(d.queue[0]), queue := d.queue[1..])
      else d.(worker := Exited)
    case Running(r) =>
      match r.op
      case Get(key) =>
        d.(worker := Popping, done := d.done + [r], answers := d.answers + [Answer(r.id, Lookup(d.db, key))])
      case Set(key, value) =>
        d.(worker := Popping, done := d.done + [r], db := Updated(d.db, key, value))
  }

  /** Nothing runs after an abort. A shard takes requests even after destroy has stopped it, until the
      queues are freed. */
  ghost predicate Enabled(s: State, step: Step) {
    !s.aborted &&
    match step
    case Push(_) => |s.shards| == N_SUBS && s.destroyer != Destroyed
    case Work(h) => h < |s.shards| && CanWork(s.shards[h])
    case Destroy =>
      match s.destroyer
      case NotCalled => true
      case Stopping(i) => i < |s.shards|
      case Joining(i) => i < |s.shards| && s.shards[i].worker == Exited
      case Destroyed => false
  }

  ghost function Next(s: State, step: Step): State
    requires Enabled(s, step)
  {
    match step
    case Push(op) =>
      var h, r := Hash(op.key), Request(|s.log|, op);
      if !AssertionHolds(op.key) then s.(aborted := true)
      else s.(shards := s.shards[h := s.shards[h].(queue := s.shards[h].queue + [r])], log := s.log + [r])
    case Work(h) => s.(shards := s.shards[h := Worked(s.shards[h])])
    case Destroy =>
      match s.destroyer
      case NotCalled => s.(destroyer := Stopping(0))
      case Stopping(i) =>
        s.(shards := s.shards[i := s.shards[i].(running := false, bound := |s.log|)], destroyer := Joining(i))
      case Joining(i) => s.(destroyer := if i + 1 == |s.shards| then Destroyed else Stopping(i + 1))
  }

  ghost predicate Reaches(s: State, run: seq<Step>, s': State)
    decreases |run|
  {
    if run == [] then s' == s
    else Enabled(s, run[0]) && Reaches(Next(s, run[0]), run[1..], s')
  }

  // ---------- the one sequential map ----------

  ghost function Applied(m: Contents, op: Op): Contents {
    if op.Set? then Updated(m, op.key, op.value) else m
  }

  /** The database after the requests of `log`, one after the other. */
  ghost function Replay(log: seq<Request>): Contents {
    if log == [] then map[] else Applied(Replay(log[..|log| - 1]), log[|log| - 1].op)
  }

  /** The requests of `log` that go to shard `h`. */
  ghost function Mine(log: seq<Request>, h: nat): seq<Request> {
    if log == [] then []
    else
      var rest, r := Mine(log[..|log| - 1], h), log[|log| - 1];
      if Hash(r.op.key) == h then rest + [r] else rest
  }

  /** The answer the sequential map gives to each get of `rs`. */
  ghost function Expected(log: seq<Request>, rs: seq<Request>): seq<Answer>
    requires forall r :: r in rs ==> r.id <= |log|
  {
    if rs == [] then []
    else
      var before, r := Expected(log, rs[..|rs| - 1]), rs[|rs| - 1];
      match r.op
      case Get(key) => before + [Answer(r.id, Lookup(Replay(log[..r.id]), key))]
      case Set(_, _) => before
  }

  lemma {:induction false} AppliedAt(m: Contents, m': Contents, op: Op, key: Key)
    requires Lookup(m, key) == Lookup(m', key)
    ensures Lookup(Applied(m, op), key) == Lookup(Applied(m', op), key)
    ensures op.key != key ==> Lookup(Applied(m, op), key) == Lookup(m, key)
  {
  }

  /** A key's value depends only on its own shard's requests. */
  lemma {:induction false} ReplayByShard(log: seq<Request>, key: Key)
    ensures Lookup(Replay(Mine(log, Hash(key))), key) == Lookup(Replay(log), key)
  {
    hide Hash, Lookup, Applied;
    if log != [] {
      var init, r, h := log[..|log| - 1], log[|log| - 1], Hash(key);
      ReplayByShard(init, key);
      AppliedAt(Replay(init), Replay(Mine(init, h)), r.op, key);
      if Hash(r.op.key) == h {
        ReplaySnoc(Mine(init, h), r);
      }
    }
  }

  ghost predicate Numbered(log: seq<Request>) {
    forall i :: 0 <= i < |log| ==> log[i].id == i
  }

  /** What comes before a request in its shard's sequence is what was pushed to the shard before it. */
  lemma {:induction false} MineBefore(log: seq<Request>, h: nat, a: seq<Request>, r: Request, b: seq<Request>)
    requires Numbered(log) && Mine(log, h) == a + [r] + b
    ensures r.id < |log| && log[r.id] == r && Hash(r.op.key) == h && Mine(log[..r.id], h) == a
  {
    if log != [] {
      var init, x := log[..|log| - 1], log[|log| - 1];
      if Hash(x.op.key) != h {
        MineBefore(init, h, a, r, b);
        assert init[..r.id] == log[..r.id];
      } else if b == [] {
        assert (a + [r])[|a|] == r && Mine(log, h)[|Mine(log, h)| - 1] == x;
        assert Mine(log, h)[..|a|] == a;
      } else {
        var b' := b[..|b| - 1];
        assert Mine(init, h) == Mine(log, h)[..|Mine(log, h)| - 1] == a + [r] + b';
        MineBefore(init, h, a, r, b');
        assert init[..r.id] == log[..r.id];
      }
    }
  }

  // ---------- what every step keeps ----------

  ghost function InHand(d: Shard): seq<Request> {
    if d.worker.Running? then [d.worker.request] else []
  }

  /** A shard has served a prefix of its requests, each as the sequential map would. */
  ghost predicate Serving(log: seq<Request>, h: nat, d: Shard) {
    && d.done + InHand(d) + d.queue == Mine(log, h)
    && d.db == Replay(d.done)
    && (forall r :: r in d.done ==> r.id < |log|)
    && d.answers == Expected(log, d.done)
    && (!d.running ==> d.bound <= |log|)
    && (d.worker.Exited? ==> !d.running && |Mine(log[..d.bound], h)| <= |d.done|)
  }

  /** Workers run until destroy reaches their shard, and have left once it has joined them. */
  ghost predicate Stage(d: Destroyer, h: nat, shard: Shard) {
    match d
    case NotCalled => shard.running
    case Stopping(i) => if h < i then shard.worker == Exited else shard.running
    case Joining(i) => if h < i then shard.worker == Exited else if h == i then !shard.running else shard.running
    case Destroyed => shard.worker == Exited
  }

  ghost predicate Inv(s: State) {
    && |s.shards| == N_SUBS && Numbered(s.log)
    && (forall h :: 0 <= h < N_SUBS ==> Serving(s.log, h, s.shards[h]))
    && (forall h :: 0 <= h < N_SUBS ==> Stage(s.destroyer, h, s.shards[h]))
  }

  lemma {:induction false} ExpectedGrows(log: seq<Request>, x: Request, rs: seq<Request>)
    requires forall r :: r in rs ==> r.id < |log|
    ensures Expected(log + [x], rs) == Expected(log, rs)
  {
    if rs != [] {
      ExpectedGrows(log, x, rs[..|rs| - 1]);
      var id := rs[|rs| - 1].id;
      assert (log + [x])[..id] == log[..id];
    }
  }

  lemma {:induction false} ReplaySnoc(a: seq<Request>, r: Request)
    ensures Replay(a + [r]) == Applied(Replay(a), r.op)
  {
    assert (a + [r])[..|a|] == a;
  }

  lemma {:induction false} MineGrows(log: seq<Request>, h: nat, n: nat)
    requires n <= |log|
    ensures Mine(log[..n], h) <= Mine(log, h)
  {
    if n < |log| {
      MineGrows(log[..|log| - 1], h, n);
      assert log[..|log| - 1][..n] == log[..n];
    } else {
      assert log[..n] == log;
    }
  }

  lemma {:induction false} WorkKeeps(log: seq<Request>, h: nat, d: Shard)
    requires Numbered(log) && Serving(log, h, d) && CanWork(d)
    ensures Serving(log, h, Worked(d))
  {
    if d.worker.Popping? {
      if d.queue != [] {
        assert d.done + [] + d.queue == d.done + [d.queue[0]] + d.queue[1..];
      } else {
        MineGrows(log, h, d.bound);
      }
    } else {
      var r := d.worker.request;
      MineBefore(log, h, d.done, r, d.queue);
      ReplayByShard(log[..r.id], r.op.key);
      ReplaySnoc(d.done, r);
      assert (d.done + [r])[..|d.done|] == d.done;
      assert (d.done + [r]) + [] + d.queue == d.done + [r] + d.queue;
    }
  }

  lemma {:induction false} PushKeeps(log: seq<Request>, h: nat, d: Shard, r: Request)
    requires Numbered(log) && r.id == |log| && Serving(log, h, d)
    ensures Numbered(log + [r])
    ensures Serving(log + [r], h, if Hash(r.op.key) == h then d.(queue := d.queue + [r]) else d)
  {
    ExpectedGrows(log, r, d.done);
    assert (log + [r])[..|log|] == log;
    assert !d.running ==> (log + [r])[..d.bound] == log[..d.bound];
    assert d.done + InHand(d) + (d.queue + [r]) == Mine(log, h) + [r];
  }

  lemma {:induction false} PushKeepsAll(s: State, op: Op)
    requires Inv(s) && Enabled(s, Push(op)) && AssertionHolds(op.key)
    ensures Inv(Next(s, Push(op)))
  {
    var s' := Next(s, Push(op));
    forall h | 0 <= h < N_SUBS ensures Serving(s'.log, h, s'.shards[h]) {
      PushKeeps(s.log, h, s.shards[h], Request(|s.log|, op));
    }
  }

  lemma {:induction false} StepKeepsInv(s: State, step: Step)
    requires Inv(s) && Enabled(s, step)
    ensures Inv(Next(s, step))
  {
    var s' := Next(s, step);
    match step {
      case Push(op) =>
        if AssertionHolds(op.key) {
          PushKeepsAll(s, op);
        }
      case Work(h) =>
        WorkKeeps(s.log, h, s.shards[h]);
      case Destroy =>
    }
  }

  lemma {:induction false} RunKeepsInv(s: State, run: seq<Step>, s': State)
    requires Inv(s) && Reaches(s, run, s')
    ensures Inv(s')
    decreases |run|
  {
    if run != [] {
      StepKeepsInv(s, run[0]);
      RunKeepsInv(Next(s, run[0]), run[1..], s');
    }
  }

  lemma {:induction false} Reached(s0: State, run: seq<Step>, s: State)
    requires Init(s0) && Reaches(s0, run, s)
    ensures Inv(s)
  {
    RunKeepsInv(s0, run, s);
  }

  // ---------- main results ----------

  /** The last set of the key in `log` had this value; there was none, and there is no value. */
  ghost predicate Latest(log: seq<Request>, key: Key, value: Option<string>) {
    || (value == None && forall j :: 0 <= j < |log| ==> !(log[j].op.Set? && log[j].op.key == key))
    || (exists j :: 0 <= j < |log| && log[j].op == Set(key, value)
                    && forall i :: j < i < |log| ==> !(log[i].op.Set? && log[i].op.key == key))
  }

  lemma {:induction false} ReplayIsLatest(log: seq<Request>, key: Key)
    ensures Latest(log, key, Lookup(Replay(log), key))
  {
    if log != [] {
      var init, n := log[..|log| - 1], |log| - 1;
      ReplayIsLatest(init, key);
      var v := Lookup(Replay(init), key);
      if log[n].op.Set? {
        UpdatedAt(Replay(init), log[n].op.key, log[n].op.value, key);
      }
      hide Lookup, Updated;
      if log[n].op.Set? && log[n].op.key == key {
        assert log[n].op == Set(key, log[n].op.value);
      } else if j :| 0 <= j < n && init[j].op == Set(key, v)
                     && forall i :: j < i < n ==> !(init[i].op.Set? && init[i].op.key == key) {
        assert log[j].op == Set(key, v);
      }
    }
  }

  /** Every answer given so far is the one the sequential map gives at the place of the request: the value
      of the last set of its key that was pushed before it. */
  lemma {:induction false} AnswersAreSequential(s0: State, run: seq<Step>, s: State, h: nat, k: nat)
    requires Init(s0) && Reaches(s0, run, s) && h < |s.shards| && k < |s.shards[h].answers|
    ensures var a := s.shards[h].answers[k];
      && a.id < |s.log| && s.log[a.id].op.Get? && Hash(s.log[a.id].op.key) == h
      && a.value == Lookup(Replay(s.log[..a.id]), s.log[a.id].op.key)
      && Latest(s.log[..a.id], s.log[a.id].op.key, a.value)
  {
    hide Replay, Lookup, Mine, Hash, Stage, Init, Reaches, Latest;
    Reached(s0, run, s);
    var d := s.shards[h];
    var rest := InHand(d) + d.queue;
    assert Serving(s.log, h, d) && d.done + rest == Mine(s.log, h);
    DoneIsLogged(s.log, h, d.done, rest);
    ExpectedIsRight(s.log, d.done, h, k);
    var a := d.answers[k];
    ReplayIsLatest(s.log[..a.id], s.log[a.id].op.key);
  }

  lemma {:induction false} DoneIsLogged(log: seq<Request>, h: nat, a: seq<Request>, b: seq<Request>)
    requires Numbered(log) && Mine(log, h) == a + b
    ensures forall r :: r in a ==> r.id < |log| && log[r.id] == r && Hash(r.op.key) == h
  {
    if a != [] {
      var r := a[|a| - 1];
      assert a + b == a[..|a| - 1] + [r] + b == a[..|a| - 1] + ([r] + b);
      MineBefore(log, h, a[..|a| - 1], r, b);
      DoneIsLogged(log, h, a[..|a| - 1], [r] + b);
    }
  }

  lemma {:induction false} ExpectedIsRight(log: seq<Request>, rs: seq<Request>, h: nat, k: nat)
    requires forall r :: r in rs ==> r.id < |log| && log[r.id] == r && Hash(r.op.key) == h
    requires k < |Expected(log, rs)|
    ensures var a := Expected(log, rs)[k];
      && a.id < |log| && log[a.id].op.Get? && Hash(log[a.id].op.key) == h
      && a.value == Lookup(Replay(log[..a.id]), log[a.id].op.key)
  {
    if k < |Expected(log, rs[..|rs| - 1])| {
      ExpectedIsRight(log, rs[..|rs| - 1], h, k);
    }
  }

  ghost function Requests(rs: seq<Request>, id: nat): nat {
    if rs == [] then 0 else Requests(rs[..|rs| - 1], id) + if rs[|rs| - 1].id == id then 1 else 0
  }

  ghost function Answers(rs: seq<Answer>, id: nat): nat {
    if rs == [] then 0 else Answers(rs[..|rs| - 1], id) + if rs[|rs| - 1].id == id then 1 else 0
  }

  lemma {:induction false} RequestsJoin(a: seq<Request>, b: seq<Request>, id: nat)
    ensures Requests(a + b, id) == Requests(a, id) + Requests(b, id)
  {
    if b == [] {
      assert a + b == a;
    } else {
      assert (a + b)[..|a + b| - 1] == a + b[..|b| - 1];
      RequestsJoin(a, b[..|b| - 1], id);
    }
  }

  lemma {:induction false} MineHasOnce(log: seq<Request>, h: nat, id: nat)
    requires Numbered(log)
    ensures Requests(Mine(log, h), id) == if id < |log| && Hash(log[id].op.key) == h then 1 else 0
  {
    if log != [] {
      var init, x := log[..|log| - 1], log[|log| - 1];
      MineHasOnce(init, h, id);
      if Hash(x.op.key) == h {
        assert Mine(log, h)[..|Mine(log, h)| - 1] == Mine(init, h);
      }
    }
  }

  lemma {:induction false} ExpectedCount(log: seq<Request>, rs: seq<Request>, id: nat)
    requires forall r :: r in rs ==> r.id < |log| && log[r.id] == r
    ensures Answers(Expected(log, rs), id) == if id < |log| && log[id].op.Get? then Requests(rs, id) else 0
  {
    if rs != [] {
      var init, r := rs[..|rs| - 1], rs[|rs| - 1];
      assert log[r.id] == r;
      ExpectedCount(log, init, id);
      if r.op.Get? {
        assert Expected(log, rs)[..|Expected(log, rs)| - 1] == Expected(log, init);
      } else {
        assert Expected(log, rs) == Expected(log, init);
      }
    }
  }

  /** No request is ever answered twice, or by another shard than its key's. */
  lemma {:induction false} AnsweredAtMostOnce(s0: State, run: seq<Step>, s: State, h: nat, id: nat)
    requires Init(s0) && Reaches(s0, run, s) && h < |s.shards|
    ensures Answers(s.shards[h].answers, id) <=
            if id < |s.log| && s.log[id].op.Get? && Hash(s.log[id].op.key) == h then 1 else 0
  {
    Reached(s0, run, s);
    var d := s.shards[h];
    var rest := InHand(d) + d.queue;
    assert d.done + rest == Mine(s.log, h);
    DoneIsLogged(s.log, h, d.done, rest);
    ExpectedCount(s.log, d.done, id);
    RequestsJoin(d.done, rest, id);
    MineHasOnce(s.log, h, id);
  }

  /** When destroy returns, every get pushed before its shard was stopped has been answered exactly once,
      and by no other shard. */
  lemma {:induction false} DestroyAnswersAll(s0: State, run: seq<Step>, s: State, id: nat)
    requires Init(s0) && Reaches(s0, run, s) && s.destroyer == Destroyed
    requires id < |s.log| && s.log[id].op.Get?
    ensures |s.shards| == N_SUBS
    ensures forall h :: 0 <= h < N_SUBS && (h == Hash(s.log[id].op.key) ==> id < s.shards[h].bound) ==>
              Answers(s.shards[h].answers, id) == if h == Hash(s.log[id].op.key) then 1 else 0
  {
    Reached(s0, run, s);
    forall h | 0 <= h < N_SUBS && (h == Hash(s.log[id].op.key) ==> id < s.shards[h].bound)
      ensures Answers(s.shards[h].answers, id) == if h == Hash(s.log[id].op.key) then 1 else 0
    {
      AnsweredOnceExited(s, h, id);
    }
  }

  /** A worker that has left has answered what was pushed to its shard before the stop. */
  lemma {:induction false} AnsweredOnceExited(s: State, h: nat, id: nat)
    requires Inv(s) && h < N_SUBS && s.shards[h].worker == Exited && id < |s.log| && s.log[id].op.Get?
    requires h == Hash(s.log[id].op.key) ==> id < s.shards[h].bound
    ensures Answers(s.shards[h].answers, id) == if h == Hash(s.log[id].op.key) then 1 else 0
  {
    hide Mine, Replay, Expected, Hash, Lookup, Updated, Answers, Requests;
    var d := s.shards[h];
    var rest := InHand(d) + d.queue;
    assert Serving(s.log, h, d) && d.done + rest == Mine(s.log, h);
    DoneIsLogged(s.log, h, d.done, rest);
    ExpectedCount(s.log, d.done, id);
    DoneOnce(s.log, h, d.done, rest, d.bound, id);
  }

  lemma {:induction false} DoneOnce(log: seq<Request>, h: nat, done: seq<Request>, rest: seq<Request>, bound: nat,
                                    id: nat)
    requires Numbered(log) && Mine(log, h) == done + rest && id < |log|
    requires bound <= |log| && |Mine(log[..bound], h)| <= |done| && (Hash(log[id].op.key) == h ==> id < bound)
    ensures Requests(done, id) == if Hash(log[id].op.key) == h then 1 else 0
  {
    hide Mine, Hash, Requests;
    var first := Mine(log[..bound], h);
    MineGrows(log, h, bound);
    RequestsJoin(done, rest, id);
    MineHasOnce(log, h, id);
    MineHasOnce(log[..bound], h, id);
    assert first == done[..|first|] && done == first + done[|first|..];
    RequestsJoin(first, done[|first|..], id);
  }

  /** A get pushed to a shard whose worker has left is never answered, however the run goes on. */
  lemma {:induction false} LateGetIsLost(s0: State, run: seq<Step>, s: State, key: Key, more: seq<Step>, s': State)
    requires Init(s0) && Reaches(s0, run, s) && Enabled(s, Push(Get(key))) && AssertionHolds(key)
    requires s.shards[Hash(key)].worker == Exited && Reaches(Next(s, Push(Get(key))), more, s')
    ensures Hash(key) < |s'.shards| && Answers(s'.shards[Hash(key)].answers, |s.log|) == 0
  {
    Reached(s0, run, s);
    var h := Hash(key);
    var d := s.shards[h];
    var rest := InHand(d) + d.queue;
    assert d.done + rest == Mine(s.log, h);
    ExitedStays(Next(s, Push(Get(key))), more, s', h);
    hide Mine, Hash, Reaches;
    DoneIsLogged(s.log, h, d.done, rest);
    ExpectedCount(s.log, d.done, |s.log|);
  }

  lemma {:induction false} ExitedStays(s: State, run: seq<Step>, s': State, h: nat)
    requires Reaches(s, run, s') && h < |s.shards| && s.shards[h].worker == Exited
    ensures h < |s'.shards| && s'.shards[h].answers == s.shards[h].answers
    decreases |run|
  {
    if run != [] {
      ExitedStays(Next(s, run[0]), run[1..], s', h);
    }
  }

  /** The assertion in get_queue does fail: this key hashes to 255, one past the last shard. */
  lemma {:induction false} AssertionCanFail()
    ensures !AssertionHolds("ddn")
  {
    var s := "ddn";
    assert Pow2(1) == 2;
    assert Shifted(s[0], 0) == 100 && Shifted(s[1], 0) == 100 && Shifted(s[2], 1) == 55;
    assert Sum(s, 1) == 100 && Sum(s, 2) == 200 && Sum(s, 3) == 255;
  }

  /** The first sixteen characters, shifted, add up to 255 modulo 256. */
  ghost predicate SumsTo255(key: Key) {
    Sum(key, if |key| < MAX_HASH then |key| else MAX_HASH) % 0x100 == 0xff
  }

  ghost predicate PushesBadKey(run: seq<Step>) {
    exists i :: 0 <= i < |run| && run[i].Push? && SumsTo255(run[i].op.key)
  }

  /** A run aborts exactly if it pushes such a key, and then that push is its last step. */
  lemma {:induction false} AbortsExactly(s0: State, run: seq<Step>, s: State)
    requires !s0.aborted && Reaches(s0, run, s)
    ensures s.aborted <==> PushesBadKey(run)
    ensures s.aborted ==> run != [] && run[|run| - 1].Push? && SumsTo255(run[|run| - 1].op.key)
    decreases |run|
  {
    if run != [] {
      var s1 := Next(s0, run[0]);
      if s1.aborted {
        assert run[1..] == [];
        assert run[0] == run[|run| - 1];
      } else {
        AbortsExactly(s1, run[1..], s);
        BadKeyLater(run);
        if s.aborted {
          assert run[1..][|run| - 2] == run[|run| - 1];
        }
      }
    }
  }

  lemma {:induction false} BadKeyLater(run: seq<Step>)
    requires run != [] && !(run[0].Push? && SumsTo255(run[0].op.key))
    ensures PushesBadKey(run) <==> PushesBadKey(run[1..])
  {
    if PushesBadKey(run) {
      var i :| 0 <= i < |run| && run[i].Push? && SumsTo255(run[i].op.key);
      assert run[1..][i - 1] == run[i];
    }
    if PushesBadKey(run[1..]) {
      var i :| 0 <= i < |run[1..]| && run[1..][i].Push? && SumsTo255(run[1..][i].op.key);
      assert run[i + 1] == run[1..][i];
    }
  }

  /** Pushing `ddn` first is a run, and it aborts. */
  lemma {:induction false} RunAborts(s0: State, op: Op)
    requires Init(s0) && op.key == "ddn"
    ensures Reaches(s0, [Push(op)], s0.(aborted := true))
  {
    AssertionCanFail();
    hide Hash;
    assert [Push(op)][1..] == [];
  }
}
