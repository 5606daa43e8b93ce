/**
  The worker pool of `libuv/src/threadpool.c`: any number of workers, loops and requests, as
  atomic steps between lock operations.
 */
module ThreadPool {
  import opened Bytes
  import opened Sequences

  const UV_ECANCELED := -125

  datatype Kind = Cpu | FastIo | SlowIo

  /** What `w->work` holds: the callback, nothing once it has run, or `uv__cancelled`. */
  datatype Callback = Set | Null | Cancelled

  /** Where a request is; tied to the queues and to the threads' hands by `Placed`. */
  datatype Place =
    | Submitting | InWork | InSlow | WithWorker(i: nat) | WithCancel | InLoop | InLocal | Delivered

  /**
    A `struct uv__work` with its history: how often the work ran, how often a cancel
    succeeded, and the statuses `done` was called with.
   */
  datatype Request = Request(loop: nat, kind: Kind, work: Callback, ran: nat, cancels: nat,
                             results: seq<int>, at: Place)

  /** A node of the work queue. */
  datatype Item = Work(r: nat) | RunSlow | Exit

  datatype Pc =
    // a worker: `slow` is its `is_slow_work`
    | WantMutex(slow: bool) | Top | Waiting | Woken | Running(r: nat, slow: bool)
    | Ran(r: nat, slow: bool) | Returning(r: nat, slow: bool) | Exited
    // the thread of a loop
    | Idle | WantPost(r: nat) | InPost(r: nat) | WantCancel(r: nat) | HasMutex(r: nat) | HasBoth(r: nat)
    | WantGive(r: nat) | InGive(r: nat) | WantMove | InMove
    // the thread that cleans up
    | Ready | WantExit | InExit | Joining

  /**
    Threads 0 to n - 1 are the workers, thread n + l runs loop l, the last one cleans up.
    Lock 0 is `mutex`, lock l + 1 is the `wq_mutex` of loop l.
   */
  datatype State = State(
    n: nat, pcs: seq<Pc>, locks: seq<Option<nat>>, idle: int, slowRunning: int,
    wq: seq<Item>, slow: seq<nat>, reqs: seq<Request>,
    loopq: seq<seq<nat>>, local: seq<seq<nat>>, async: seq<bool>)

  /** `slow_work_thread_threshold` */
  function Threshold(n: nat): nat { (n + 1) / 2 }

  predicate Shape(s: State) {
    && s.n > 0 && |s.pcs| == s.n + |s.loopq| + 1 && |s.locks| == |s.loopq| + 1
    && |s.local| == |s.loopq| && |s.async| == |s.loopq|
    && forall r :: 0 <= r < |s.reqs| ==> s.reqs[r].loop < |s.loopq|
  }

  predicate Start(s: State) {
    && Shape(s) && s.idle == 0 && s.slowRunning == 0 && s.wq == [] && s.slow == [] && s.reqs == []
    && (forall t :: 0 <= t < |s.pcs| ==>
          s.pcs[t] == if t < s.n then WantMutex(false) else if t < |s.pcs| - 1 then Idle else Ready)
    && (forall k :: 0 <= k < |s.locks| ==> s.locks[k] == None)
    && (forall l :: 0 <= l < |s.loopq| ==> s.loopq[l] == [] && s.local[l] == [] && !s.async[l])
  }

  // ----- steps -----

  predicate SomeWaiting(s: State)
    requires Shape(s)
  {
    exists i :: 0 <= i < s.n && s.pcs[i] == Waiting
  }

  /** `uv_cond_signal` wakes one waiting worker, whichever, if there is one. */
  predicate CanWake(s: State, wake: nat)
    requires Shape(s)
  {
    SomeWaiting(s) ==> wake < s.n && s.pcs[wake] == Waiting
  }

  function Signal(s: State, wake: nat): State
    requires Shape(s) && CanWake(s, wake)
  {
    if SomeWaiting(s) then s.(pcs := s.pcs[wake := Woken]) else s
  }

  function Goto(s: State, t: nat, pc: Pc): State
    requires t < |s.pcs|
  {
    s.(pcs := s.pcs[t := pc])
  }

  function Unlock(s: State, k: nat): State
    requires k < |s.locks|
  {
    s.(locks := s.locks[k := None])
  }

  function Put(s: State, r: nat, at: Place): State
    requires r < |s.reqs|
  {
    s.(reqs := s.reqs[r := s.reqs[r].(at := at)])
  }

  /** The lock a thread is blocked on; a woken worker has to take `mutex` again. */
  function Wants(s: State, t: nat): Option<nat>
    requires t < |s.pcs|
  {
    match s.pcs[t]
    case WantMutex(_) => Some(0)
    case Woken => Some(0)
    case WantPost(_) => Some(0)
    case WantCancel(_) => Some(0)
    case WantExit => Some(0)
    case Ran(r, _) => if r < |s.reqs| then Some(s.reqs[r].loop + 1) else None
    case HasMutex(_) => if t >= s.n then Some(t - s.n + 1) else None
    case WantGive(_) => if t >= s.n then Some(t - s.n + 1) else None
    case WantMove => if t >= s.n then Some(t - s.n + 1) else None
    case _ => None
  }

  function Locked(pc: Pc): Pc {
    match pc
    case WantMutex(_) => Top
    case Woken => Top
    case WantPost(r) => InPost(r)
    case WantCancel(r) => HasMutex(r)
    case WantExit => InExit
    case Ran(r, slow) => Returning(r, slow)
    case HasMutex(r) => HasBoth(r)
    case WantGive(r) => InGive(r)
    case WantMove => InMove
    case _ => pc
  }

  /** Taking a lock.  The counters change right behind the lock they are protected by. */
  function Acquire(s: State, t: nat, k: nat): State
    requires t < |s.pcs| && k < |s.locks|
  {
    s.(locks := s.locks[k := Some(t)], pcs := s.pcs[t := Locked(s.pcs[t])],
       idle := if s.pcs[t] == Woken then s.idle - 1 else s.idle,
       slowRunning := if s.pcs[t] == WantMutex(true) then s.slowRunning - 1 else s.slowRunning)
  }

  /** The condition under which a worker waits. */
  predicate MustWait(s: State) {
    s.wq == [] || (s.wq == [RunSlow] && s.slowRunning >= Threshold(s.n))
  }

  /** One turn of the worker's loop, up to where it gives up `mutex` or starts over. */
  function Turn(s: State, i: nat, wake: nat): State
    requires Shape(s) && i < s.n && s.pcs[i] == Top && CanWake(s, wake)
    requires s.wq != [] && s.wq[0].Work? ==> s.wq[0].r < |s.reqs|
    requires s.slow != [] ==> s.slow[0] < |s.reqs|
  {
    if MustWait(s) then Unlock(Goto(s, i, Waiting), 0).(idle := s.idle + 1)
    else
      match s.wq[0]
      case Exit => Unlock(Goto(Signal(s, wake), i, Exited), 0)
      case Work(r) => Unlock(Goto(Put(s, r, WithWorker(i)), i, Running(r, false)), 0).(wq := s.wq[1..])
      case RunSlow =>
        if s.slowRunning >= Threshold(s.n) then s.(wq := s.wq[1..] + [RunSlow])
        else if s.slow == [] then s.(wq := s.wq[1..])
        else TakeSlow(s, i, wake)
  }

  function TakeSlow(s: State, i: nat, wake: nat): State
    requires Shape(s) && i < s.n && s.pcs[i] == Top && CanWake(s, wake)
    requires s.slow != [] && s.slow[0] < |s.reqs| && s.wq != []
  {
    var r, more := s.slow[0], |s.slow| > 1;
    var s1 := if more && s.idle > 0 then Signal(s, wake) else s;
    Unlock(Goto(Put(s1, r, WithWorker(i)), i, Running(r, true)), 0).(
      wq := s.wq[1..] + (if more then [RunSlow] else []), slow := s.slow[1..], slowRunning := s.slowRunning + 1)
  }

  /** `post` of an item other than slow I/O, with `mutex` held. */
  function Enqueue(s: State, item: Item, wake: nat): State
    requires Shape(s) && CanWake(s, wake)
  {
    (if s.idle > 0 then Signal(s, wake) else s).(wq := s.wq + [item])
  }

  /** The locked part of `post` for a request. */
  function PostRequest(s: State, r: nat, wake: nat): State
    requires Shape(s) && CanWake(s, wake) && r < |s.reqs|
  {
    if s.reqs[r].kind == SlowIo then
      var s1 := Put(s, r, InSlow).(slow := s.slow + [r]);
      if RunSlow in s.wq then s1 else Enqueue(s1, RunSlow, wake)
    else Enqueue(Put(s, r, InWork), Work(r), wake)
  }

  /** `!QUEUE_EMPTY(&w->wq)`: the request is linked into some queue. */
  predicate Linked(s: State, r: nat)
    requires Shape(s) && r < |s.reqs|
  {
    var l := s.reqs[r].loop;
    Work(r) in s.wq || r in s.slow || r in s.loopq[l] || r in s.local[l]
  }

  predicate Cancellable(s: State, r: nat)
    requires Shape(s) && r < |s.reqs|
  {
    Linked(s, r) && s.reqs[r].work != Null
  }

  /** Unlinking a request that is cancelled. */
  function Unlink(s: State, r: nat): State
    requires Shape(s) && r < |s.reqs|
  {
    var q := s.reqs[r];
    s.(wq := Without(s.wq, Work(r)), slow := Without(s.slow, r),
       loopq := s.loopq[q.loop := Without(s.loopq[q.loop], r)],
       local := s.local[q.loop := Without(s.local[q.loop], r)],
       reqs := s.reqs[r := q.(work := Cancelled, cancels := q.cancels + 1, at := WithCancel)])
  }

  /** Appending to a loop's queue and waking the loop up. */
  function Give(s: State, r: nat, q: Request): State
    requires Shape(s) && r < |s.reqs| && q.loop == s.reqs[r].loop
  {
    s.(loopq := s.loopq[q.loop := s.loopq[q.loop] + [r]], async := s.async[q.loop := true],
       reqs := s.reqs[r := q.(at := InLoop)])
  }

  function MoveAll(s: State, l: nat): State
    requires Shape(s) && l < |s.loopq|
  {
    s.(local := s.local[l := s.loopq[l]], loopq := s.loopq[l := []],
       reqs := seq(|s.reqs|, r requires 0 <= r < |s.reqs| =>
         if s.reqs[r].at == InLoop && s.reqs[r].loop == l then s.reqs[r].(at := InLocal) else s.reqs[r]))
  }

  /** `done` is called with the status. */
  function DeliverOne(s: State, l: nat): State
    requires Shape(s) && l < |s.loopq| && s.local[l] != [] && s.local[l][0] < |s.reqs|
  {
    var r := s.local[l][0];
    var q := s.reqs[r];
    var status := if q.work == Cancelled then UV_ECANCELED else 0;
    s.(local := s.local[l := s.local[l][1..]], reqs := s.reqs[r := q.(results := q.results + [status], at := Delivered)])
  }

  datatype Step =
    | Lock(t: nat) | WorkerTurn(i: nat, wake: nat) | Execute(i: nat) | Finish(i: nat) | Spurious(i: nat)
    | Submit(l: nat, kind: Kind) | Post(l: nat, wake: nat)
    | Cancel(l: nat, r: nat) | TestCancel(l: nat) | GiveCancelled(l: nat)
    | WorkDone(l: nat) | Move(l: nat) | Deliver(l: nat)
    | Cleanup | PostExit(wake: nat)

  /** Loop `l`'s thread. */
  function Thread(s: State, l: nat): Pc
    requires Shape(s) && l < |s.loopq|
  {
    s.pcs[s.n + l]
  }

  predicate Enabled(s: State, step: Step)
    requires Shape(s) && Refs(s)
  {
    match step
    case Lock(t) => t < |s.pcs| && Wants(s, t).Some? && Wants(s, t).value < |s.locks| && s.locks[Wants(s, t).value] == None
    case WorkerTurn(i, wake) => i < s.n && s.pcs[i] == Top && CanWake(s, wake)
    case Execute(i) => i < s.n && s.pcs[i].Running?
    case Finish(i) => i < s.n && s.pcs[i].Returning?
    case Spurious(i) => i < s.n && s.pcs[i] == Waiting
    case Submit(l, kind) => l < |s.loopq| && Thread(s, l) == Idle
    case Post(l, wake) => l < |s.loopq| && Thread(s, l).InPost? && CanWake(s, wake)
    case Cancel(l, r) => l < |s.loopq| && Thread(s, l) == Idle && r < |s.reqs| && s.reqs[r].loop == l && s.reqs[r].results == []
    case TestCancel(l) => l < |s.loopq| && Thread(s, l).HasBoth?
    case GiveCancelled(l) => l < |s.loopq| && Thread(s, l).InGive?
    case WorkDone(l) => l < |s.loopq| && Thread(s, l) == Idle && s.local[l] == []
    case Move(l) => l < |s.loopq| && Thread(s, l) == InMove
    case Deliver(l) => l < |s.loopq| && Thread(s, l) == Idle && s.local[l] != []
    case Cleanup => s.pcs[|s.pcs| - 1] == Ready
    case PostExit(wake) => s.pcs[|s.pcs| - 1] == InExit && CanWake(s, wake)
  }

  /** The requests that queues and threads refer to exist, and belong to the loop that refers to them. */
  ghost predicate Refs(s: State)
    requires Shape(s)
  {
    QueueRefs(s) && forall t :: 0 <= t < |s.pcs| ==> NameRef(s, t)
  }

  ghost predicate QueueRefs(s: State)
    requires Shape(s)
  {
    && (forall k :: 0 <= k < |s.wq| && s.wq[k].Work? ==> s.wq[k].r < |s.reqs|)
    && (forall k :: 0 <= k < |s.slow| ==> s.slow[k] < |s.reqs|)
    && (forall l, k :: 0 <= l < |s.loopq| && 0 <= k < |s.loopq[l]| ==> Owns(s, l, s.loopq[l][k]))
    && (forall l, k :: 0 <= l < |s.loopq| && 0 <= k < |s.local[l]| ==> Owns(s, l, s.local[l][k]))
  }

  predicate NameRef(s: State, t: nat)
    requires Shape(s) && t < |s.pcs|
  {
    Names(s.pcs[t]) ==> s.pcs[t].r < |s.reqs| && (t >= s.n ==> Owns(s, t - s.n, s.pcs[t].r))
  }

  predicate Owns(s: State, l: nat, r: nat) {
    r < |s.reqs| && s.reqs[r].loop == l
  }

  predicate Names(pc: Pc) {
    pc.Running? || pc.Ran? || pc.Returning? || pc.WantPost? || pc.InPost? || pc.WantCancel? || pc.HasMutex? ||
    pc.HasBoth? || pc.WantGive? || pc.InGive?
  }

  /** `w->work(w)`, without any lock. */
  function RunWork(s: State, i: nat, pc: Pc): State
    requires i < |s.pcs| && pc.Running? && pc.r < |s.reqs|
  {
    var q := s.reqs[pc.r];
    Goto(s, i, Ran(pc.r, pc.slow)).(reqs := s.reqs[pc.r := q.(ran := q.ran + 1)])
  }

  /** The block under the loop's lock, once the work has run. */
  function Return(s: State, i: nat, pc: Pc): State
    requires Shape(s) && i < |s.pcs| && pc.Returning? && pc.r < |s.reqs|
  {
    var q := s.reqs[pc.r];
    Unlock(Goto(Give(s, pc.r, q.(work := Null)), i, WantMutex(pc.slow)), q.loop + 1)
  }

  function NewRequest(s: State, l: nat, kind: Kind): State
    requires Shape(s) && l < |s.loopq|
  {
    Goto(s, s.n + l, WantPost(|s.reqs|)).(reqs := s.reqs + [Request(l, kind, Set, 0, 0, [], Submitting)])
  }

  /** The block under both locks in `uv__work_cancel`, and what follows when it gives `UV_EBUSY`. */
  function TryCancel(s: State, l: nat, r: nat): State
    requires Shape(s) && l < |s.loopq| && Owns(s, l, r)
  {
    var s1 := if Cancellable(s, r) then Goto(Unlink(s, r), s.n + l, WantGive(r)) else Goto(s, s.n + l, Idle);
    Unlock(Unlock(s1, l + 1), 0)
  }

  function GiveBack(s: State, l: nat, r: nat): State
    requires Shape(s) && l < |s.loopq| && Owns(s, l, r)
  {
    Unlock(Goto(Give(s, r, s.reqs[r]), s.n + l, Idle), l + 1)
  }

  predicate ByWorker(step: Step) {
    step.Lock? || step.WorkerTurn? || step.Execute? || step.Finish? || step.Spurious?
  }

  predicate UnderLock(step: Step) {
    step.Post? || step.TestCancel? || step.GiveCancelled? || step.Move? || step.PostExit?
  }

  function ApplyWorker(s: State, step: Step): State
    requires Shape(s) && Refs(s) && ByWorker(step) && Enabled(s, step)
  {
    match step
    case Lock(t) => Acquire(s, t, Wants(s, t).value)
    case WorkerTurn(i, wake) => Turn(s, i, wake)
    case Execute(i) => assert NameRef(s, i); RunWork(s, i, s.pcs[i])
    case Finish(i) => assert NameRef(s, i); Return(s, i, s.pcs[i])
    case Spurious(i) => Goto(s, i, Woken)
  }

  /** The steps that end a section of the loops' and the cleaning thread under a lock. */
  function ApplyLocked(s: State, step: Step): State
    requires Shape(s) && Refs(s) && UnderLock(step) && Enabled(s, step)
  {
    match step
    case Post(l, wake) => assert NameRef(s, s.n + l); Unlock(Goto(PostRequest(s, Thread(s, l).r, wake), s.n + l, Idle), 0)
    case TestCancel(l) => assert NameRef(s, s.n + l); TryCancel(s, l, Thread(s, l).r)
    case GiveCancelled(l) => assert NameRef(s, s.n + l); GiveBack(s, l, Thread(s, l).r)
    case Move(l) => Unlock(Goto(MoveAll(s, l), s.n + l, Idle), l + 1)
    case PostExit(wake) => Unlock(Goto(Enqueue(s, Exit, wake), |s.pcs| - 1, Joining), 0)
  }

  function Apply(s: State, step: Step): State
    requires Shape(s) && Refs(s) && Enabled(s, step)
  {
    if ByWorker(step) then ApplyWorker(s, step)
    else if UnderLock(step) then ApplyLocked(s, step)
    else
      match step
      case Submit(l, kind) => NewRequest(s, l, kind)
      case Cancel(l, r) => Goto(s, s.n + l, WantCancel(r))
      case WorkDone(l) => Goto(s, s.n + l, WantMove).(async := s.async[l := false])
      case Deliver(l) => assert Owns(s, l, s.local[l][0]); DeliverOne(s, l)
      case Cleanup => Goto(s, |s.pcs| - 1, WantExit)
  }
}
