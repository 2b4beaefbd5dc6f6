/**
 req_queue_cnd.c as interleaved atomic steps: one consumer in pop, any number of threads in
 push or stop. A thread that holds the mutex stays visible between its steps, so every
 interleaving the mutex and the condition variable allow is a run here.
 */
module CndQueue {

  datatype Owner = Free | Consumer | Thread(id: nat)

  /** Where the consumer is in pop. `Blocked` is inside pthread_cond_wait, `Wake` is on its way
      out of it and still has to get the mutex back. */
  datatype ConsumerPc = Idle | Top | Test | Enter | ReadRunning | Decide | Blocked | Wake | Drain | Leave

  /** Where another thread is: outside, waiting for the mutex, or holding it. */
  datatype ThreadPc<T> = Outside
    | WantPush(request: T) | HoldPush(request: T)
    | WantStop | HoldStop
    | MustSignal | MustUnlock

  /** The queue's fields, the program counters, pop's local `running`, and two histories:
      what was pushed, in lock order, and what pop has returned. */
  datatype State<T> = State(
    shared: seq<T>, local: seq<T>, running: bool, mutex: Owner,
    pc: ConsumerPc, seen: bool,
    threads: seq<ThreadPc<T>>,
    pushed: seq<T>, popped: seq<T>)

  ghost predicate Init<T>(s: State<T>) {
    && s.shared == [] && s.local == [] && s.running && s.mutex == Free && s.pc == Idle
    && (forall i :: 0 <= i < |s.threads| ==> s.threads[i] == Outside)
    && s.pushed == [] && s.popped == []
  }

  datatype Step<T> = CallPop | StepPop | SpuriousWake
    | BeginPush(id: nat, request: T) | BeginStop(id: nat) | StepThread(id: nat)

  /** pop returns null in this state. */
  predicate ReturnsNull<T>(s: State<T>) {
    s.pc == Test && !s.seen && s.shared == []
  }

  predicate CanPop<T>(s: State<T>) {
    s.pc != Idle && s.pc != Blocked && ((s.pc == Enter || s.pc == Wake) ==> s.mutex == Free)
  }

  /** One atomic step of the consumer inside pop. */
  function Pop<T>(s: State<T>): State<T>
    requires CanPop(s)
  {
    match s.pc
    case Top =>
      if s.local != [] then s.(popped := s.popped + [s.local[0]], local := s.local[1..], pc := Idle)
      else s.(pc := Test)
    case Test => if ReturnsNull(s) then s.(pc := Idle) else s.(pc := Enter)
    case Enter => s.(mutex := Consumer, pc := ReadRunning)
    case ReadRunning => s.(seen := s.running, pc := Decide)
    case Decide => if s.seen && s.shared == [] then s.(mutex := Free, pc := Blocked) else s.(pc := Drain)
    case Wake => s.(mutex := Consumer, pc := Drain)
    case Drain =>
      if s.shared != [] then s.(local := s.local + [s.shared[0]], shared := s.shared[1..]) else s.(pc := Leave)
    case Leave => s.(mutex := Free, pc := Top)
  }

  predicate CanRun<T>(s: State<T>, i: nat) {
    && i < |s.threads| && s.threads[i] != Outside
    && (s.threads[i].WantPush? || s.threads[i].WantStop? ==> s.mutex == Free)
  }

  function At<T>(s: State<T>, i: nat, pc: ThreadPc<T>): State<T>
    requires i < |s.threads|
  {
    s.(threads := s.threads[i := pc])
  }

  /** One atomic step of a thread inside push or stop. */
  function Run<T>(s: State<T>, i: nat): State<T>
    requires CanRun(s, i)
  {
    match s.threads[i]
    case WantPush(x) => At(s, i, HoldPush(x)).(mutex := Thread(i))
    case HoldPush(x) => At(s, i, MustSignal).(shared := s.shared + [x], pushed := s.pushed + [x])
    case WantStop => At(s, i, HoldStop).(mutex := Thread(i))
    case HoldStop => At(s, i, MustSignal).(running := false)
    case MustSignal => At(s, i, MustUnlock).(pc := if s.pc == Blocked then Wake else s.pc)
    case MustUnlock => At(s, i, Outside).(mutex := Free)
  }

  predicate Enabled<T>(s: State<T>, step: Step<T>) {
    match step
    case CallPop => s.pc == Idle
    case StepPop => CanPop(s)
    case SpuriousWake => s.pc == Blocked
    case BeginPush(i, _) => i < |s.threads| && s.threads[i] == Outside
    case BeginStop(i) => i < |s.threads| && s.threads[i] == Outside
    case StepThread(i) => CanRun(s, i)
  }

  function Next<T>(s: State<T>, step: Step<T>): State<T>
    requires Enabled(s, step)
  {
    match step
    case CallPop => s.(pc := Top, seen := true)
    case StepPop => Pop(s)
    case SpuriousWake => s.(pc := Wake)
    case BeginPush(i, x) => At(s, i, WantPush(x))
    case BeginStop(i) => At(s, i, WantStop)
    case StepThread(i) => Run(s, i)
  }

  /** `s'` is reached from `s` by the steps of `run`, in this order. */
  ghost predicate Reaches<T>(s: State<T>, run: seq<Step<T>>, s': State<T>)
    decreases |run|
  {
    if run == [] then s' == s
    else Enabled(s, run[0]) && Reaches(Next(s, run[0]), run[1..], s')
  }

  // ---------- what every step keeps ----------

  predicate Holds<T>(pc: ThreadPc<T>) {
    pc.HoldPush? || pc.HoldStop? || pc.MustSignal? || pc.MustUnlock?
  }

  /** The mutex is held by exactly the thread that is between lock and unlock. */
  ghost predicate Locking<T>(s: State<T>) {
    && (s.mutex == Consumer <==> s.pc in {ReadRunning, Decide, Drain, Leave})
    && (s.mutex.Thread? ==> s.mutex.id < |s.threads|)
    && forall i :: 0 <= i < |s.threads| ==> (Holds(s.threads[i]) <==> s.mutex == Thread(i))
  }

  /** The thread holding the mutex is about to signal. */
  ghost predicate SignalComing<T>(s: State<T>) {
    s.mutex.Thread? && s.mutex.id < |s.threads| && s.threads[s.mutex.id] == MustSignal
  }

  /** A blocked consumer has nothing to wait up for, unless the signal is already on its way. */
  ghost predicate NoLostWakeup<T>(s: State<T>) {
    s.pc == Blocked ==> (s.shared == [] && s.running) || SignalComing(s)
  }

  ghost predicate Inv<T>(s: State<T>) {
    && Locking(s)
    && s.popped + s.local + s.shared == s.pushed
    && NoLostWakeup(s)
    && (!s.seen && s.pc != Idle ==> !s.running)
    && (s.pc == Decide ==> s.seen == s.running)
    && (s.pc == Test || s.pc == Enter || s.pc == ReadRunning || s.pc == Decide || s.pc == Blocked ==> s.local == [])
  }

  lemma {:induction false} MoveFirst<T>(a: seq<T>, b: seq<T>, c: seq<T>)
    requires b != []
    ensures (a + [b[0]]) + b[1..] + c == a + b + c
  {
  }

  lemma {:induction false} Shift<T>(a: seq<T>, b: seq<T>, c: seq<T>)
    requires c != []
    ensures a + (b + [c[0]]) + c[1..] == a + b + c
  {
  }

  lemma {:induction false} PopKeepsInv<T>(s: State<T>)
    requires Inv(s) && CanPop(s)
    ensures Inv(Pop(s))
  {
    if s.pc == Top && s.local != [] {
      MoveFirst(s.popped, s.local, s.shared);
    } else if s.pc == Drain && s.shared != [] {
      Shift(s.popped, s.local, s.shared);
    }
  }

  lemma {:induction false} RunKeepsInv<T>(s: State<T>, i: nat)
    requires Inv(s) && CanRun(s, i)
    ensures Inv(Run(s, i))
  {
  }

  lemma {:induction false} StepKeepsInv<T>(s: State<T>, step: Step<T>)
    requires Inv(s) && Enabled(s, step)
    ensures Inv(Next(s, step))
  {
    match step
    case StepPop => PopKeepsInv(s);
    case StepThread(i) => RunKeepsInv(s, i);
    case _ =>
  }

  lemma {:induction false} RunKeeps<T>(s: State<T>, run: seq<Step<T>>, s': State<T>)
    requires Inv(s) && Reaches(s, run, s')
    ensures Inv(s')
    decreases run
  {
    if run != [] {
      StepKeepsInv(s, run[0]);
      RunKeeps(Next(s, run[0]), run[1..], s');
    }
  }

  // ---------- the queue its users see ----------

  /** An atomic queue: every operation is one step. */
  datatype Queue<T> = Queue(content: seq<T>, running: bool)

  /** What an observer sees of one step. */
  datatype Event<T> = Internal | Pushed(request: T) | Popped(request: T) | PoppedNull | Stopped

  ghost predicate Atomic<T>(q: Queue<T>, e: Event<T>, q': Queue<T>) {
    match e
    case Internal => q' == q
    case Pushed(x) => q' == q.(content := q.content + [x])
    case Popped(x) => q.content != [] && x == q.content[0] && q' == q.(content := q.content[1..])
    case PoppedNull => q.content == [] && !q.running && q' == q
    case Stopped => q' == q.(running := false)
  }

  ghost function Observed<T>(s: State<T>, step: Step<T>): Event<T> {
    match step
    case StepPop =>
      if s.pc == Top && s.local != [] then Popped(s.local[0])
      else if ReturnsNull(s) then PoppedNull
      else Internal
    case StepThread(i) =>
      if i < |s.threads| && s.threads[i].HoldPush? then Pushed(s.threads[i].request)
      else if i < |s.threads| && s.threads[i] == HoldStop then Stopped
      else Internal
    case _ => Internal
  }

  ghost function Abstract<T>(s: State<T>): Queue<T> {
    Queue(s.local + s.shared, s.running)
  }

  /** Every step of every reachable state is a step of the atomic queue, or changes nothing it shows. */
  lemma {:induction false} Refines<T>(s0: State<T>, run: seq<Step<T>>, s: State<T>, step: Step<T>)
    requires Init(s0) && Reaches(s0, run, s) && Enabled(s, step)
    ensures Atomic(Abstract(s), Observed(s, step), Abstract(Next(s, step)))
  {
    RunKeeps(s0, run, s);
    hide Inv, Reaches;
    match step
    case StepPop => PopRefines(s);
    case StepThread(i) => ThreadRefines(s, i);
    case _ =>
  }

  lemma {:induction false} PopRefines<T>(s: State<T>)
    requires Inv(s) && CanPop(s)
    ensures Atomic(Abstract(s), Observed(s, StepPop), Abstract(Pop(s)))
  {
    if s.pc == Drain && s.shared != [] {
      Shift([], s.local, s.shared);
      assert [] + (s.local + [s.shared[0]]) == s.local + [s.shared[0]] && [] + s.local == s.local;
    } else if s.pc == Top && s.local != [] {
      assert (s.local + s.shared)[1..] == s.local[1..] + s.shared;
    }
  }

  lemma {:induction false} ThreadRefines<T>(s: State<T>, i: nat)
    requires CanRun(s, i)
    ensures Atomic(Abstract(s), Observed(s, StepThread(i)), Abstract(Run(s, i)))
  {
    if s.threads[i].HoldPush? {
      var x := s.threads[i].request;
      assert s.local + (s.shared + [x]) == s.local + s.shared + [x];
    }
  }

  // ---------- main results ----------

  /** What pop has returned, what it still holds and what is shared is, in order, what was pushed. */
  lemma {:induction false} Fifo<T>(s0: State<T>, run: seq<Step<T>>, s: State<T>)
    requires Init(s0) && Reaches(s0, run, s)
    ensures s.popped + s.local + s.shared == s.pushed
  {
    RunKeeps(s0, run, s);
  }

  /** pop returns null only after stop, and only when everything pushed has been returned. */
  lemma {:induction false} NullMeansDrained<T>(s0: State<T>, run: seq<Step<T>>, s: State<T>)
    requires Init(s0) && Reaches(s0, run, s) && ReturnsNull(s)
    ensures !s.running && s.popped == s.pushed
  {
    RunKeeps(s0, run, s);
  }

  /** A blocked consumer has an empty queue that is still running, unless a thread with the mutex is
      just about to signal. */
  lemma {:induction false} BlockedMeansEmpty<T>(s0: State<T>, run: seq<Step<T>>, s: State<T>)
    requires Init(s0) && Reaches(s0, run, s) && s.pc == Blocked && !SignalComing(s)
    ensures s.shared == [] && s.local == [] && s.running && s.popped == s.pushed
  {
    RunKeeps(s0, run, s);
  }

  /** No two threads are between lock and unlock. */
  lemma {:induction false} MutualExclusion<T>(s0: State<T>, run: seq<Step<T>>, s: State<T>, i: nat, j: nat)
    requires Init(s0) && Reaches(s0, run, s) && i < |s.threads| && j < |s.threads|
    requires Holds(s.threads[i])
    ensures Holds(s.threads[j]) ==> i == j
    ensures s.pc !in {ReadRunning, Decide, Drain, Leave}
  {
    RunKeeps(s0, run, s);
  }
}
