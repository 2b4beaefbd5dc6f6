/**
 queue_sem.h as interleaved atomic steps of one producer and one consumer: two counting
 semaphores, and no lock around the ring.
 */
module SemRing {
  import opened Options

  /** Where queue_sem_push is: outside, past sem_wait, past the store, past the move of head. */
  datatype PushPc<T> = PushOut | PushIn(entry: T) | Stored | HeadMoved

  /** Where queue_sem_pop is: outside, past sem_wait, past the load, past the clearing, past the move of tail. */
  datatype PopPc<T> = PopOut | PopIn | Loaded(entry: Option<T>) | Cleared(entry: Option<T>)
    | TailMoved(entry: Option<T>)

  /** `pushed` lists the entries in the order they were stored, `popped` what pop has loaded. */
  datatype State<T> = State(
    full: nat, empty: nat, head: nat, tail: nat, q: seq<Option<T>>,
    push: PushPc<T>, pop: PopPc<T>,
    pushed: seq<T>, popped: seq<Option<T>>)

  ghost predicate Init<T>(s: State<T>, size: nat) {
    && size > 0 && s.full == size && s.empty == 0 && s.head == 0 && s.tail == 0
    && |s.q| == size && (forall i :: 0 <= i < size ==> s.q[i] == None)
    && s.push == PushOut && s.pop == PopOut && s.pushed == [] && s.popped == []
  }

  datatype Step<T> = CallPush(entry: T) | StepPush | CallPop | StepPop

  /** The assertion in queue_sem_push. */
  predicate SlotIsNull<T>(s: State<T>) {
    s.push.PushIn? ==> s.head < |s.q| && s.q[s.head].None?
  }

  function Advanced(index: nat, size: nat): nat {
    if index + 1 == size then 0 else index + 1
  }

  predicate Enabled<T>(s: State<T>, step: Step<T>) {
    match step
    case CallPush(_) => s.push == PushOut && s.full > 0
    case StepPush => s.push != PushOut && s.head < |s.q|
    case CallPop => s.pop == PopOut && s.empty > 0
    case StepPop => s.pop != PopOut && s.tail < |s.q|
  }

  function Next<T>(s: State<T>, step: Step<T>): State<T>
    requires Enabled(s, step)
  {
    match step
    case CallPush(x) => s.(full := s.full - 1, push := PushIn(x))
    case StepPush => (
      match s.push
      case PushIn(x) => s.(q := s.q[s.head := Some(x)], push := Stored, pushed := s.pushed + [x])
      case Stored => s.(head := Advanced(s.head, |s.q|), push := HeadMoved)
      case HeadMoved => s.(empty := s.empty + 1, push := PushOut))
    case CallPop => s.(empty := s.empty - 1, pop := PopIn)
    case StepPop => (
      match s.pop
      case PopIn => s.(pop := Loaded(s.q[s.tail]), popped := s.popped + [s.q[s.tail]])
      case Loaded(e) => s.(q := s.q[s.tail := None], pop := Cleared(e))
      case Cleared(e) => s.(tail := Advanced(s.tail, |s.q|), pop := TailMoved(e))
      case TailMoved(_) => s.(full := s.full + 1, pop := PopOut))
  }

  ghost predicate Reaches<T>(s: State<T>, run: seq<Step<T>>, s': State<T>)
    decreases |run|
  {
    if run == [] then s' == s
    else Enabled(s, run[0]) && Reaches(Next(s, run[0]), run[1..], s')
  }

  // ---------- the ring's arithmetic ----------

  /** The slot of the `i`th entry. */
  ghost function Slot(i: nat, size: nat): (r: nat)
    requires size > 0
    ensures r < size
  {
    if i == 0 then 0 else Advanced(Slot(i - 1, size), size)
  }

  lemma {:induction false} SlotAhead(i: nat, d: nat, size: nat)
    requires 0 < size && d <= size
    ensures Slot(i + d, size) == if Slot(i, size) + d < size then Slot(i, size) + d else Slot(i, size) + d - size
  {
    if d > 0 {
      SlotAhead(i, d - 1, size);
    }
  }

  /** Within `size` entries, only the same one has the same slot. */
  lemma {:induction false} SlotOnce(i: nat, j: nat, size: nat)
    requires size > 0 && i - size < j < i + size
    ensures Slot(i, size) == Slot(j, size) ==> i == j
  {
    if i <= j {
      SlotAhead(i, j - i, size);
    } else {
      SlotAhead(j, i - j, size);
    }
  }

  // ---------- what every step keeps ----------

  // How many entries have gone past each point of push and of pop.
  ghost function Entering<T>(s: State<T>): nat {
    |s.pushed| + if s.push.PushIn? then 1 else 0
  }

  ghost predicate Counts<T>(s: State<T>, size: nat) {
    var posted := |s.pushed| - if s.push == Stored || s.push == HeadMoved then 1 else 0;
    var taken := |s.popped| + if s.pop == PopIn then 1 else 0;
    var released := |s.popped| - if s.pop == PopOut || s.pop == PopIn then 0 else 1;
    && s.empty == posted - taken
    && s.full == size + released - Entering(s)
  }

  /** Entries up to this one have been cleared from the ring. */
  ghost function ClearedUpTo<T>(s: State<T>): int {
    |s.popped| - if s.pop.Loaded? then 1 else 0
  }

  ghost predicate Places<T>(s: State<T>, size: nat)
    requires size > 0
  {
    var h := |s.pushed| - if s.push == Stored then 1 else 0;
    var t := |s.popped| - if s.pop.Loaded? || s.pop.Cleared? then 1 else 0;
    h >= 0 && t >= 0 && s.head == Slot(h, size) && s.tail == Slot(t, size)
  }

  /** A slot of the window of `size` entries from the first uncleared one holds its entry once stored, else null. */
  ghost predicate Window<T>(s: State<T>, size: nat)
    requires size > 0 && |s.q| == size && ClearedUpTo(s) >= 0
  {
    forall i: nat :: ClearedUpTo(s) <= i < ClearedUpTo(s) + size ==>
      s.q[Slot(i, size)] == if i < |s.pushed| then Some(s.pushed[i]) else None
  }

  ghost predicate Inv<T>(s: State<T>, size: nat) {
    && size > 0 && |s.q| == size && ClearedUpTo(s) >= 0
    && Counts(s, size) && Places(s, size) && Window(s, size)
    && |s.popped| <= |s.pushed|
    && (forall i :: 0 <= i < |s.popped| ==> s.popped[i] == Some(s.pushed[i]))
    && (s.pop.Loaded? || s.pop.Cleared? || s.pop.TailMoved? ==>
          s.popped != [] && s.pop.entry == s.popped[|s.popped| - 1])
  }

  lemma {:induction false} StoreKeepsWindow<T>(s: State<T>, size: nat)
    requires Inv(s, size) && Enabled(s, StepPush) && s.push.PushIn?
    ensures var s' := Next(s, StepPush);
      |s'.q| == size && ClearedUpTo(s') == ClearedUpTo(s) && Window(s', size)
  {
    var s' := Next(s, StepPush);
    forall i: nat | ClearedUpTo(s') <= i < ClearedUpTo(s') + size
      ensures s'.q[Slot(i, size)] == if i < |s'.pushed| then Some(s'.pushed[i]) else None
    {
      SlotOnce(|s.pushed|, i, size);
    }
  }

  lemma {:induction false} StoreKeepsInv<T>(s: State<T>, size: nat)
    requires Inv(s, size) && Enabled(s, StepPush) && s.push.PushIn?
    ensures Inv(Next(s, StepPush), size)
  {
    StoreKeepsWindow(s, size);
    hide Window;
  }

  lemma {:induction false} LoadKeepsInv<T>(s: State<T>, size: nat)
    requires Inv(s, size) && Enabled(s, StepPop) && s.pop == PopIn
    ensures Inv(Next(s, StepPop), size)
  {
    assert s.q[Slot(|s.popped|, size)] == Some(s.pushed[|s.popped|]);
  }

  lemma {:induction false} ClearKeepsWindow<T>(s: State<T>, size: nat)
    requires Inv(s, size) && Enabled(s, StepPop) && s.pop.Loaded?
    ensures var s' := Next(s, StepPop);
      |s'.q| == size && ClearedUpTo(s') == ClearedUpTo(s) + 1 && Window(s', size)
  {
    var s', c := Next(s, StepPop), ClearedUpTo(s);
    SlotAhead(c, size, size);
    forall i: nat | ClearedUpTo(s') <= i < ClearedUpTo(s') + size
      ensures s'.q[Slot(i, size)] == if i < |s'.pushed| then Some(s'.pushed[i]) else None
    {
      if i < c + size {
        SlotOnce(c, i, size);
      }
    }
  }

  lemma {:induction false} ClearKeepsInv<T>(s: State<T>, size: nat)
    requires Inv(s, size) && Enabled(s, StepPop) && s.pop.Loaded?
    ensures Inv(Next(s, StepPop), size)
  {
    ClearKeepsWindow(s, size);
    hide Window;
  }

  /** The steps that leave the ring as it is. */
  predicate Quiet<T>(s: State<T>, step: Step<T>) {
    !(step == StepPush && s.push.PushIn?) && !(step == StepPop && (s.pop == PopIn || s.pop.Loaded?))
  }

  lemma {:induction false} QuietKeepsWindow<T>(s: State<T>, step: Step<T>, size: nat)
    requires Inv(s, size) && Enabled(s, step) && Quiet(s, step)
    ensures var s' := Next(s, step);
      |s'.q| == size && ClearedUpTo(s') == ClearedUpTo(s) && Window(s', size)
  {
    hide Counts, Places;
  }

  lemma {:induction false} QuietKeepsPlaces<T>(s: State<T>, step: Step<T>, size: nat)
    requires Inv(s, size) && Enabled(s, step) && Quiet(s, step)
    ensures Places(Next(s, step), size)
  {
    hide Counts, Window;
  }

  lemma {:induction false} QuietKeepsInv<T>(s: State<T>, step: Step<T>, size: nat)
    requires Inv(s, size) && Enabled(s, step) && Quiet(s, step)
    ensures Inv(Next(s, step), size)
  {
    hide Window, Places, Advanced, Slot;
    QuietKeepsWindow(s, step, size);
    QuietKeepsPlaces(s, step, size);
  }

  lemma {:induction false} StepKeepsInv<T>(s: State<T>, step: Step<T>, size: nat)
    requires Inv(s, size) && Enabled(s, step)
    ensures Inv(Next(s, step), size)
  {
    hide Inv, Next;
    if step == StepPush && s.push.PushIn? {
      StoreKeepsInv(s, size);
    } else if step == StepPop && s.pop == PopIn {
      LoadKeepsInv(s, size);
    } else if step == StepPop && s.pop.Loaded? {
      ClearKeepsInv(s, size);
    } else {
      QuietKeepsInv(s, step, size);
    }
  }

  lemma {:induction false} RunKeepsInv<T>(s: State<T>, run: seq<Step<T>>, s': State<T>, size: nat)
    requires Inv(s, size) && Reaches(s, run, s')
    ensures Inv(s', size)
    decreases |run|
  {
    if run != [] {
      StepKeepsInv(s, run[0], size);
      RunKeepsInv(Next(s, run[0]), run[1..], s', size);
    }
  }

  // ---------- main results ----------

  /** The semaphores and the threads between their two semaphore calls account for every slot. */
  lemma {:induction false} SlotsAccounted<T>(s0: State<T>, run: seq<Step<T>>, s: State<T>, size: nat)
    requires Init(s0, size) && Reaches(s0, run, s)
    ensures s.full + s.empty + (if s.push == PushOut then 0 else 1) + (if s.pop == PopOut then 0 else 1) == size
  {
    RunKeepsInv(s0, run, s, size);
  }

  /** push always finds its slot null, and both indices stay inside the ring. */
  lemma {:induction false} AssertionHolds<T>(s0: State<T>, run: seq<Step<T>>, s: State<T>, size: nat)
    requires Init(s0, size) && Reaches(s0, run, s)
    ensures SlotIsNull(s) && s.head < |s.q| == size && s.tail < |s.q|
  {
    RunKeepsInv(s0, run, s, size);
    assert s.push.PushIn? ==> s.q[Slot(|s.pushed|, size)] == None;
  }

  /** What pop has loaded is, in order, a prefix of what push has stored; it never loads null. */
  lemma {:induction false} PoppedIsPrefix<T>(s0: State<T>, run: seq<Step<T>>, s: State<T>, size: nat)
    requires Init(s0, size) && Reaches(s0, run, s)
    ensures |s.popped| <= |s.pushed| && forall i :: 0 <= i < |s.popped| ==> s.popped[i] == Some(s.pushed[i])
    ensures s.pop.TailMoved? ==> s.popped != [] && s.pop.entry == s.popped[|s.popped| - 1]
  {
    RunKeepsInv(s0, run, s, size);
  }
}
