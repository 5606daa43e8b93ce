/**
  The worker pool left to itself: it comes to rest, and only when everything has been delivered.
 */
module PoolLiveness {
  import opened Bytes
  import opened Sequences
  import opened ThreadPool
  import opened PoolInvariant
  import opened PoolSteps
  import opened PoolRuns

  /**
    The steps that threads take on their own.  The others are calls from outside, wakeups
    without a cause, and a loop looking at its queue without having been told to.
   */
  predicate Internal(s: State, step: Step) {
    match step
    case Spurious(_) => false
    case Submit(_, _) => false
    case Cancel(_, _) => false
    case Cleanup => false
    case WorkDone(l) => l < |s.async| && s.async[l]
    case _ => true
  }

  /** No thread can take a step on its own. */
  ghost predicate AtRest(s: State)
    requires Shape(s) && Refs(s)
  {
    forall step :: Internal(s, step) ==> !Enabled(s, step)
  }

  lemma CannotStep(s: State, step: Step)
    requires Shape(s) && Refs(s) && AtRest(s) && Internal(s, step)
    ensures !Enabled(s, step)
  {
  }

  // ----- a pool at rest -----

  lemma SomeWake(s: State) returns (wake: nat)
    requires Shape(s)
    ensures CanWake(s, wake)
  {
    wake := 0;
    if SomeWaiting(s) { wake :| wake < s.n && s.pcs[wake] == Waiting; }
  }

  /** Nobody is in the middle of anything that needs no lock. */
  lemma NoneBusy(s: State, t: nat)
    requires Inv(s) && AtRest(s) && t < |s.pcs|
    ensures var pc := s.pcs[t];
      !pc.Top? && !pc.Running? && !pc.Returning? && !pc.InPost? && !pc.HasBoth? && !pc.InGive? && !pc.InMove? && !pc.InExit?
  {
    hide Apply, CanWake, Refs, AtRest, Locks, Hands, Queued, History, Counters, Messages, Attended, Notified, Roles;
    RoleIs(s, t);
    var wake := SomeWake(s);
    if t < s.n {
      WorkerNotBusy(s, t, wake);
    } else if t < |s.pcs| - 1 {
      LoopNotBusy(s, t - s.n, wake);
    } else {
      CannotStep(s, PostExit(wake));
    }
  }

  lemma RoleIs(s: State, t: nat)
    requires Shape(s) && Roles(s) && t < |s.pcs|
    ensures RoleOf(s, t, s.pcs[t])
  {
  }

  lemma WorkerNotBusy(s: State, i: nat, wake: nat)
    requires Shape(s) && Refs(s) && AtRest(s) && i < s.n && WorkerPc(s.pcs[i]) && CanWake(s, wake)
    ensures !s.pcs[i].Top? && !s.pcs[i].Running? && !s.pcs[i].Returning?
  {
    hide CanWake, Refs, AtRest;
    CannotStep(s, WorkerTurn(i, wake));
    CannotStep(s, Execute(i));
    CannotStep(s, Finish(i));
  }

  lemma LoopNotBusy(s: State, l: nat, wake: nat)
    requires Shape(s) && Refs(s) && AtRest(s) && l < |s.loopq| && LoopPc(Thread(s, l)) && CanWake(s, wake)
    ensures var pc := Thread(s, l); !pc.InPost? && !pc.HasBoth? && !pc.InGive? && !pc.InMove?
  {
    hide CanWake, Refs, AtRest;
    CannotStep(s, Post(l, wake));
    CannotStep(s, TestCancel(l));
    CannotStep(s, GiveCancelled(l));
    CannotStep(s, Move(l));
  }

  /** So no lock of a loop is held, and nobody waits for one. */
  lemma LoopLocksFree(s: State, k: nat)
    requires Inv(s) && AtRest(s) && 0 < k < |s.locks|
    ensures s.locks[k] == None
  {
    if s.locks[k].Some? {
      NoneBusy(s, s.locks[k].value);
    }
  }

  lemma MutexFree(s: State)
    requires Inv(s) && AtRest(s)
    ensures s.locks[0] == None
  {
    hide AtRest, Refs, Roles, Locks, Hands, Queued, History, Counters, Messages, Attended, Notified;
    if s.locks[0].Some? {
      var t := s.locks[0].value;
      HolderOf(s, 0);
      NoneBusy(s, t);
      RoleIs(s, t);
      LoopLocksFree(s, t - s.n + 1);
      CannotStep(s, Lock(t));
    }
  }

  lemma HolderOf(s: State, k: nat)
    requires Shape(s) && Locks(s) && k < |s.locks| && s.locks[k].Some?
    ensures s.locks[k].value < |s.pcs| && Holds(s, s.locks[k].value, k)
  {
  }

  lemma NoneWants(s: State, t: nat)
    requires Inv(s) && AtRest(s) && t < |s.pcs|
    ensures var pc := s.pcs[t];
      pc == Waiting || pc == Exited || pc == Idle || pc == Ready || pc == Joining
  {
    NoneBusy(s, t);
    assert RoleOf(s, t, s.pcs[t]) && NameRef(s, t);
    if Wants(s, t).Some? {
      if Wants(s, t) == Some(0) { MutexFree(s); } else { LoopLocksFree(s, Wants(s, t).value); }
      CannotStep(s, Lock(t));
    }
  }

  lemma LoopAtRest(s: State, l: nat)
    requires Inv(s) && AtRest(s) && l < |s.loopq|
    ensures s.local[l] == [] && s.loopq[l] == []
  {
    hide AtRest, Refs, Roles, Locks, Hands, Queued, History, Counters, Messages, Attended, Notified, RoleOf;
    NoneWants(s, s.n + l);
    FactsOf(s, s.n + l);
    RoleLoop(s, l);
    NotDelivering(s, l);
    NotifiedOf(s, l);
  }

  lemma RoleLoop(s: State, l: nat)
    requires Shape(s) && l < |s.loopq| && RoleOf(s, s.n + l, s.pcs[s.n + l])
    ensures LoopPc(Thread(s, l))
  {
  }

  lemma NotDelivering(s: State, l: nat)
    requires Shape(s) && Refs(s) && AtRest(s) && l < |s.loopq| && Thread(s, l) == Idle
    ensures s.local[l] == [] && !s.async[l]
  {
    hide Refs, AtRest;
    CannotStep(s, Deliver(l));
    if s.async[l] { CannotStep(s, WorkDone(l)); }
  }

  lemma NotifiedOf(s: State, l: nat)
    requires Inv(s) && l < |s.loopq| && Thread(s, l) == Idle && !s.async[l]
    ensures s.loopq[l] == []
  {
  }

  lemma RequestAtRest(s: State, r: nat)
    requires Inv(s) && AtRest(s) && r < |s.reqs|
    ensures s.reqs[r].at == Delivered || s.reqs[r].at == InWork || s.reqs[r].at == InSlow
  {
    var l := s.reqs[r].loop;
    LoopAtRest(s, l);
    assert InQueues(s, r) && Carried(s, r);
    if Carrier(s, r).Some? { NoneWants(s, Carrier(s, r).value); }
  }

  /**
    No deadlock, no lost wakeup, no stranded completion: a pool that cannot go on has
    delivered every request; or cleanup has been called, every worker has exited, and what is
    left was not taken up before.
   */
  lemma RestIsDone(s: State)
    requires Inv(s) && AtRest(s)
    ensures
      if s.pcs[|s.pcs| - 1] == Joining
      then forall i :: 0 <= i < s.n ==> s.pcs[i] == Exited
      else s.wq == [] && s.slow == [] && forall r :: 0 <= r < |s.reqs| ==> s.reqs[r].at == Delivered
    ensures forall r :: 0 <= r < |s.reqs| ==> s.reqs[r].at == Delivered || s.reqs[r].at == InWork || s.reqs[r].at == InSlow
  {
    forall t | 0 <= t < |s.pcs|
      ensures s.pcs[t] == Waiting || s.pcs[t] == Exited || s.pcs[t] == Idle || s.pcs[t] == Ready || s.pcs[t] == Joining
    {
      NoneWants(s, t);
    }
    forall r | 0 <= r < |s.reqs|
      ensures s.reqs[r].at == Delivered || s.reqs[r].at == InWork || s.reqs[r].at == InSlow
    {
      RequestAtRest(s, r);
    }
    forall i | 0 <= i < s.n ensures !Awake(s.pcs[i]) { assert RoleOf(s, i, s.pcs[i]); }
    if SomeAlive(s) {
      AllAsleep(s);
      EmptyQueues(s);
    } else {
      assert s.pcs[0] == Exited && Exit in s.wq;
    }
  }

  lemma EmptyQueues(s: State)
    requires Inv(s) && s.wq == [] && s.slow == []
    ensures s.pcs[|s.pcs| - 1] != Joining
    ensures forall r :: 0 <= r < |s.reqs| ==> s.reqs[r].at != InWork && s.reqs[r].at != InSlow
  {
    forall r | 0 <= r < |s.reqs| ensures s.reqs[r].at != InWork && s.reqs[r].at != InSlow {
      assert InQueues(s, r);
    }
  }

  // ----- coming to rest -----

  /** How far a request is from being delivered. */
  function Stage(q: Request): int {
    match q.at
    case Submitting => 4
    case InWork => 3
    case InSlow => 3
    case WithWorker(_) => 2
    case WithCancel => 2
    case InLoop => 1
    case InLocal => 1
    case Delivered => 0
  }

  /** How far a thread is from waiting for something to happen. */
  function Weight(pc: Pc): int {
    match pc
    case WantMutex(_) => 7
    case Top => 6
    case Waiting => 5
    case Woken => 7
    case Running(_, _) => 10
    case Ran(_, _) => 9
    case Returning(_, _) => 8
    case Exited => 0
    case Idle => 0
    case WantPost(_) => 2
    case InPost(_) => 1
    case WantCancel(_) => 14
    case HasMutex(_) => 13
    case HasBoth(_) => 12
    case WantGive(_) => 2
    case InGive(_) => 1
    case WantMove => 2
    case InMove => 1
    case Ready => 0
    case WantExit => 4
    case InExit => 3
    case Joining => 0
  }

  function Flag(b: bool): int {
    if b then 1 else 0
  }

  /** What the place of the message in the work queue is worth. */
  function Announced(wq: seq<Item>): int {
    (if RunSlow in wq then 2 else 0) + (if wq != [] && wq[0] == RunSlow then 1 else 0)
  }

  /** The work that is left. */
  ghost function Measure(s: State): int {
    8 * Sum(s.reqs, Stage) + Sum(s.pcs, Weight) + 3 * Sum(s.async, Flag) + Announced(s.wq)
  }

  lemma MeasureNat(s: State)
    ensures Measure(s) >= 0
  {
    SumNonNegative(s.reqs, Stage);
    SumNonNegative(s.pcs, Weight);
    SumNonNegative(s.async, Flag);
  }

  lemma SignalWeight(s: State, wake: nat)
    requires Shape(s) && CanWake(s, wake)
    ensures Sum(Signal(s, wake).pcs, Weight) <= Sum(s.pcs, Weight) + 2
  {
    if SomeWaiting(s) { SumChange(s.pcs, s.pcs[wake := Woken], wake, Weight); }
  }

  lemma StageChange(s: State, s': State, r: nat)
    requires r < |s.reqs| && |s'.reqs| == |s.reqs| && forall q :: 0 <= q < |s.reqs| && q != r ==> s'.reqs[q] == s.reqs[q]
    ensures Sum(s'.reqs, Stage) == Sum(s.reqs, Stage) - Stage(s.reqs[r]) + Stage(s'.reqs[r])
  {
    SumChange(s.reqs, s'.reqs, r, Stage);
  }

  lemma LockDecreases(s: State, t: nat, k: nat)
    requires Shape(s) && t < |s.pcs| && k < |s.locks| && Wants(s, t) == Some(k)
    ensures Measure(Acquire(s, t, k)) < Measure(s)
  {
    SumChange(s.pcs, Acquire(s, t, k).pcs, t, Weight);
  }

  lemma ExecuteDecreases(s: State, i: nat)
    requires Shape(s) && i < s.n && s.pcs[i].Running? && s.pcs[i].r < |s.reqs|
    ensures Measure(RunWork(s, i, s.pcs[i])) < Measure(s)
  {
    var s' := RunWork(s, i, s.pcs[i]);
    SumChange(s.pcs, s'.pcs, i, Weight);
    StageChange(s, s', s.pcs[i].r);
  }

  lemma AsyncSet(s: State, l: nat, b: bool)
    requires l < |s.async|
    ensures Sum(s.async[l := b], Flag) == Sum(s.async, Flag) - Flag(s.async[l]) + Flag(b)
  {
    SumChange(s.async, s.async[l := b], l, Flag);
  }

  lemma FinishDecreases(s: State, i: nat)
    requires Shape(s) && i < s.n && s.pcs[i].Returning? && s.pcs[i].r < |s.reqs| && s.reqs[s.pcs[i].r].at == WithWorker(i)
    ensures Measure(Return(s, i, s.pcs[i])) < Measure(s)
  {
    var s', r := Return(s, i, s.pcs[i]), s.pcs[i].r;
    SumChange(s.pcs, s'.pcs, i, Weight);
    StageChange(s, s', r);
    AsyncSet(s, s.reqs[r].loop, true);
  }

  lemma GiveDecreases(s: State, l: nat, r: nat)
    requires Shape(s) && l < |s.loopq| && Thread(s, l) == InGive(r) && Owns(s, l, r) && s.reqs[r].at == WithCancel
    ensures Measure(GiveBack(s, l, r)) < Measure(s)
  {
    var s' := GiveBack(s, l, r);
    SumChange(s.pcs, s'.pcs, s.n + l, Weight);
    StageChange(s, s', r);
    AsyncSet(s, l, true);
  }

  lemma WorkDoneDecreases(s: State, l: nat)
    requires Shape(s) && l < |s.loopq| && Thread(s, l) == Idle && s.async[l]
    ensures Measure(Goto(s, s.n + l, WantMove).(async := s.async[l := false])) < Measure(s)
  {
    SumChange(s.pcs, s.pcs[s.n + l := WantMove], s.n + l, Weight);
    AsyncSet(s, l, false);
  }

  lemma MoveDecreases(s: State, l: nat)
    requires Shape(s) && l < |s.loopq| && Thread(s, l) == InMove
    ensures Measure(Moved(s, l)) < Measure(s)
  {
    var s' := Moved(s, l);
    SumChange(s.pcs, s'.pcs, s.n + l, Weight);
    SumSame(s.reqs, s'.reqs, Stage);
  }

  lemma DeliverDecreases(s: State, l: nat)
    requires Shape(s) && l < |s.loopq| && s.local[l] != [] && s.local[l][0] < |s.reqs| && s.reqs[s.local[l][0]].at == InLocal
    ensures Measure(DeliverOne(s, l)) < Measure(s)
  {
    StageChange(s, DeliverOne(s, l), s.local[l][0]);
  }

  lemma PostWeight(s: State, l: nat, r: nat, wake: nat)
    requires Shape(s) && l < |s.loopq| && Thread(s, l) == InPost(r) && r < |s.reqs| && CanWake(s, wake)
    ensures Sum(Posted(s, l, r, wake).pcs, Weight) <= Sum(s.pcs, Weight) + 1
  {
    hide Posted, PostRequest, Signal, CanWake;
    var s', s1, t := Posted(s, l, r, wake), PostRequest(s, r, wake), s.n + l;
    PostPcs(s, l, r, wake);
    SignalWeight(s, wake);
    SumChange(s1.pcs, s'.pcs, t, Weight);
  }

  lemma PostPcs(s: State, l: nat, r: nat, wake: nat)
    requires Shape(s) && l < |s.loopq| && Thread(s, l) == InPost(r) && r < |s.reqs| && CanWake(s, wake)
    ensures var s', s1, t := Posted(s, l, r, wake), PostRequest(s, r, wake), s.n + l;
      && |s1.pcs| == |s.pcs| && s'.pcs == s1.pcs[t := Idle] && s1.pcs[t] == InPost(r)
      && (s1.pcs == s.pcs || s1.pcs == Signal(s, wake).pcs)
  {
    PostQueueIs(s, r, wake);
    SignalOf(s, wake);
  }

  lemma PostDecreases(s: State, l: nat, r: nat, wake: nat)
    requires Shape(s) && l < |s.loopq| && Thread(s, l) == InPost(r) && r < |s.reqs| && CanWake(s, wake)
    requires s.reqs[r].at == Submitting
    ensures Measure(Posted(s, l, r, wake)) < Measure(s)
  {
    var s' := Posted(s, l, r, wake);
    PostFields(s, l, r, wake);
    PostWeight(s, l, r, wake);
    hide Posted, CanWake, Announced, Only;
    StageChange(s, s', r);
    assert s.wq <= s'.wq;
    PostAnnounced(s.wq, s'.wq);
  }

  lemma PostAnnounced(wq: seq<Item>, wq': seq<Item>)
    requires wq <= wq'
    ensures Announced(wq') <= Announced(wq) + 3
    ensures RunSlow !in wq'[|wq|..] ==> Announced(wq') <= Announced(wq)
  {
    assert wq' == wq + wq'[|wq|..];
  }

  lemma ExitWeight(s: State, wake: nat)
    requires Shape(s) && s.pcs[|s.pcs| - 1] == InExit && CanWake(s, wake)
    ensures Sum(PostedExit(s, wake).pcs, Weight) < Sum(s.pcs, Weight)
  {
    var pcs, t := Enqueue(s, Exit, wake).pcs, |s.pcs| - 1;
    EnqueueWeight(s, Exit, wake);
    assert PostedExit(s, wake).pcs == pcs[t := Joining];
    hide PostedExit, Enqueue, CanWake;
    SumChange(pcs, pcs[t := Joining], t, Weight);
  }

  lemma EnqueueWeight(s: State, item: Item, wake: nat)
    requires Shape(s) && CanWake(s, wake)
    ensures var s' := Enqueue(s, item, wake);
      && |s'.pcs| == |s.pcs| && s'.pcs[|s.pcs| - 1] == s.pcs[|s.pcs| - 1] && Sum(s'.pcs, Weight) <= Sum(s.pcs, Weight) + 2
  {
    SignalWeight(s, wake);
  }

  lemma ExitDecreases(s: State, wake: nat)
    requires Shape(s) && s.pcs[|s.pcs| - 1] == InExit && CanWake(s, wake)
    ensures Measure(PostedExit(s, wake)) < Measure(s)
  {
    var s' := PostedExit(s, wake);
    ExitFields(s, wake);
    ExitWeight(s, wake);
    hide PostedExit, CanWake, Announced, Only;
    assert s'.wq[|s.wq|..] == [Exit];
    PostAnnounced(s.wq, s'.wq);
  }

  lemma CancelDecreases(s: State, l: nat, r: nat)
    requires Shape(s) && l < |s.loopq| && Thread(s, l) == HasBoth(r) && Owns(s, l, r) && Queued(s)
    ensures Measure(TryCancel(s, l, r)) < Measure(s)
  {
    hide TryCancel, Cancellable, Queued, Taken, CloseBoth, Measure;
    TryCancelIs(s, l, r);
    if Cancellable(s, r) {
      TakenDecreases(s, l, r);
    } else {
      CloseDecreases(s, l);
    }
  }

  lemma CloseDecreases(s: State, l: nat)
    requires Shape(s) && l < |s.loopq| && Thread(s, l).HasBoth?
    ensures Measure(CloseBoth(s, l)) < Measure(s)
  {
    SumChange(s.pcs, CloseBoth(s, l).pcs, s.n + l, Weight);
  }

  lemma LinkedStage(s: State, r: nat)
    requires Shape(s) && Queued(s) && r < |s.reqs| && Linked(s, r)
    ensures Stage(s.reqs[r]) == if Work(r) in s.wq || r in s.slow then 3 else 1
  {
    assert InQueues(s, r);
  }

  lemma TakenDecreases(s: State, l: nat, r: nat)
    requires Shape(s) && l < |s.loopq| && Thread(s, l) == HasBoth(r) && Owns(s, l, r) && Queued(s) && Cancellable(s, r)
    ensures Measure(Taken(s, l, r)) < Measure(s)
  {
    hide Queued, Distinct, Announced, Taken, Linked, Unlink, Without;
    var s' := Taken(s, l, r);
    TakenFields(s, l, r);
    WithoutAnnounced(s, r);
    LinkedStage(s, r);
    SumChange(s.pcs, s'.pcs, s.n + l, Weight);
    StageChange(s, s', r);
  }

  lemma TakenFields(s: State, l: nat, r: nat)
    requires Shape(s) && l < |s.loopq| && Owns(s, l, r) && Queued(s)
    ensures var s' := Taken(s, l, r);
      && s'.pcs == s.pcs[s.n + l := WantGive(r)] && s'.wq == Without(s.wq, Work(r)) && s'.async == s.async
      && s'.reqs == s.reqs[r := s'.reqs[r]] && s'.reqs[r].at == WithCancel && Distinct(s.wq)
  {
    hide Without;
  }

  lemma WithoutAnnounced(s: State, r: nat)
    requires Distinct(s.wq)
    ensures Announced(Without(s.wq, Work(r))) <= Announced(s.wq) + 1
    ensures Work(r) !in s.wq ==> Without(s.wq, Work(r)) == s.wq
  {
    WithoutOf(s.wq, Work(r));
  }

  lemma WaitDecreases(s: State, i: nat)
    requires Shape(s) && i < s.n && s.pcs[i] == Top
    ensures Measure(Slept(s, i)) < Measure(s)
  {
    SumChange(s.pcs, Slept(s, i).pcs, i, Weight);
  }

  lemma LeaveDecreases(s: State, i: nat, wake: nat)
    requires Shape(s) && i < s.n && s.pcs[i] == Top && CanWake(s, wake)
    ensures Measure(Left(s, i, wake)) < Measure(s)
  {
    SignalWeight(s, wake);
    SumChange(Signal(s, wake).pcs, Left(s, i, wake).pcs, i, Weight);
  }

  /** The message goes to the tail only when something else is in the queue. */
  lemma MessageDecreases(s: State, s': State)
    requires s.wq != [] && s.wq[0] == RunSlow && Distinct(s.wq)
    requires (|s.wq| > 1 && s' == s.(wq := s.wq[1..] + [RunSlow])) || s' == s.(wq := s.wq[1..])
    ensures Measure(s') < Measure(s)
  {
    TailOf(s.wq);
  }

  lemma TakeDecreases(s: State, i: nat, r: nat)
    requires Shape(s) && i < s.n && s.pcs[i] == Top && s.wq != [] && s.wq[0] == Work(r) && r < |s.reqs| && s.reqs[r].at == InWork
    ensures Measure(TookWork(s, i, r)) < Measure(s)
  {
    var s' := TookWork(s, i, r);
    SumChange(s.pcs, s'.pcs, i, Weight);
    StageChange(s, s', r);
    assert s.wq == [s.wq[0]] + s'.wq;
  }

  lemma SlowDecreases(s: State, i: nat, wake: nat)
    requires Shape(s) && i < s.n && s.pcs[i] == Top && CanWake(s, wake) && s.wq != [] && s.wq[0] == RunSlow && Distinct(s.wq)
    requires s.slow != [] && s.slow[0] < |s.reqs| && s.reqs[s.slow[0]].at == InSlow
    ensures Measure(TakeSlow(s, i, wake)) < Measure(s)
  {
    hide TakeSlow, CanWake, Signal, Only, Distinct;
    var s' := TakeSlow(s, i, wake);
    SlowFields(s, i, wake);
    SlowWeight(s, i, wake);
    StageChange(s, s', s.slow[0]);
    AnnouncedBound(s'.wq);
  }

  lemma AnnouncedBound(wq: seq<Item>)
    ensures Announced(wq) <= 3
  {
  }

  lemma SlowWeight(s: State, i: nat, wake: nat)
    requires Shape(s) && i < s.n && s.pcs[i] == Top && CanWake(s, wake) && s.wq != [] && s.slow != [] && s.slow[0] < |s.reqs|
    ensures Sum(TakeSlow(s, i, wake).pcs, Weight) <= Sum(s.pcs, Weight) + 6
  {
    var pcs := (if |s.slow| > 1 && s.idle > 0 then Signal(s, wake) else s).pcs;
    SlowPcs(s, i, wake);
    hide TakeSlow, Signal, CanWake;
    SignalWeight(s, wake);
    SumChange(pcs, pcs[i := Running(s.slow[0], true)], i, Weight);
  }

  lemma SlowPcs(s: State, i: nat, wake: nat)
    requires Shape(s) && i < s.n && s.pcs[i] == Top && CanWake(s, wake) && s.wq != [] && s.slow != [] && s.slow[0] < |s.reqs|
    ensures var pcs := (if |s.slow| > 1 && s.idle > 0 then Signal(s, wake) else s).pcs;
      |pcs| == |s.pcs| && pcs[i] == Top && TakeSlow(s, i, wake).pcs == pcs[i := Running(s.slow[0], true)]
  {
  }

  lemma HeadPlaces(s: State)
    requires Inv(s)
    ensures Shape(s) && Distinct(s.wq)
    ensures s.wq != [] && s.wq[0].Work? ==> s.wq[0].r < |s.reqs| && s.reqs[s.wq[0].r].at == InWork
    ensures s.slow != [] ==> s.slow[0] < |s.reqs| && s.reqs[s.slow[0]].at == InSlow
  {
    RefsQueue(s);
    hide Refs, QueueRefs, Distinct;
    if s.wq != [] && s.wq[0].Work? { assert InQueues(s, s.wq[0].r); }
    if s.slow != [] { assert InQueues(s, s.slow[0]); }
  }

  lemma TurnDecreases(s: State, i: nat, wake: nat)
    requires Inv(s) && i < s.n && s.pcs[i] == Top && CanWake(s, wake)
    ensures (s.wq != [] && s.wq[0].Work? ==> s.wq[0].r < |s.reqs|) && (s.slow != [] ==> s.slow[0] < |s.reqs|)
    ensures Measure(Turn(s, i, wake)) < Measure(s)
  {
    hide Inv, Goto, Unlock, Put, Signal, Measure, Distinct, Roles, Locks, Refs, Queued, Hands, History, Counters, Attended,
         Messages, Notified, QueueRefs;
    HeadPlaces(s);
    if MustWait(s) {
      WaitDecreases(s, i);
    } else if s.wq[0] == Exit {
      LeaveDecreases(s, i, wake);
    } else if s.wq[0].Work? {
      TakeDecreases(s, i, s.wq[0].r);
    } else if s.slowRunning >= Threshold(s.n) || s.slow == [] {
      assert |s.wq| == 1 ==> s.wq == [RunSlow];
      MessageDecreases(s, Turn(s, i, wake));
    } else {
      SlowDecreases(s, i, wake);
    }
  }

  /** Where the request in a thread's hands is. */
  lemma CargoPlace(s: State, t: nat)
    requires Inv(s) && t < |s.pcs| && Cargo(s.pcs[t]).Some?
    ensures var r := Cargo(s.pcs[t]).value; r < |s.reqs| && s.reqs[r].at == PlaceOf(s.pcs[t], t)
  {
    assert HandOf(s, t);
  }

  lemma QueuedOf(s: State)
    requires Inv(s)
    ensures Queued(s)
  {
  }

  lemma LocalPlace(s: State, l: nat)
    requires Inv(s) && l < |s.loopq| && s.local[l] != []
    ensures s.local[l][0] < |s.reqs| && s.reqs[s.local[l][0]].at == InLocal
  {
    RefsQueue(s);
    assert Owns(s, l, s.local[l][0]) && InQueues(s, s.local[l][0]);
  }

  lemma WorkerDecreases(s: State, step: Step)
    requires Inv(s) && Enabled(s, step) && (step.Lock? || step.WorkerTurn? || step.Execute? || step.Finish?)
    ensures Measure(Apply(s, step)) < Measure(s)
  {
    hide Roles, Locks, Refs, Queued, Hands, History, Counters, Attended, Messages, Notified, Acquire, Wants, Turn,
         RunWork, Return, Goto, CanWake, Measure;
    match step
    case Lock(t) => LockDecreases(s, t, Wants(s, t).value);
    case WorkerTurn(i, wake) => TurnDecreases(s, i, wake);
    case Execute(i) => NameOf(s, i); ExecuteDecreases(s, i);
    case Finish(i) => CargoPlace(s, i); FinishDecreases(s, i);
  }

  lemma LoopDecreases(s: State, step: Step)
    requires Inv(s) && Enabled(s, step) && (step.Post? || step.TestCancel? || step.GiveCancelled? || step.PostExit?)
    ensures Measure(Apply(s, step)) < Measure(s)
  {
    hide Roles, Locks, Refs, Queued, Hands, History, Counters, Attended, Messages, Notified, TryCancel, GiveBack,
         PostRequest, Enqueue, CanWake, Measure;
    match step
    case Post(l, wake) => CargoPlace(s, s.n + l); PostDecreases(s, l, Thread(s, l).r, wake);
    case TestCancel(l) => NameOf(s, s.n + l); QueuedOf(s); CancelDecreases(s, l, Thread(s, l).r);
    case GiveCancelled(l) => NameOf(s, s.n + l); CargoPlace(s, s.n + l); GiveDecreases(s, l, Thread(s, l).r);
    case PostExit(wake) => ExitDecreases(s, wake);
  }

  lemma DoneDecreases(s: State, step: Step)
    requires Inv(s) && Enabled(s, step) && Internal(s, step) && (step.WorkDone? || step.Move? || step.Deliver?)
    ensures Measure(Apply(s, step)) < Measure(s)
  {
    hide Roles, Locks, Refs, Queued, Hands, History, Counters, Attended, Messages, Notified, Goto, MoveAll, Moved,
         DeliverOne, Measure;
    match step
    case WorkDone(l) => WorkDoneDecreases(s, l);
    case Move(l) => MovedIs(s, l); MoveDecreases(s, l);
    case Deliver(l) => LocalPlace(s, l); DeliverDecreases(s, l);
  }

  /** Every step the threads take on their own leaves less to do. */
  lemma StepDecreases(s: State, step: Step)
    requires Inv(s) && Enabled(s, step) && Internal(s, step)
    ensures 0 <= Measure(Apply(s, step)) < Measure(s)
  {
    hide Enabled, Apply, Roles, Locks, Refs, Queued, Hands, History, Counters, Attended, Messages, Notified, Measure;
    MeasureNat(Apply(s, step));
    if step.Lock? || step.WorkerTurn? || step.Execute? || step.Finish? {
      WorkerDecreases(s, step);
    } else if step.WorkDone? || step.Move? || step.Deliver? {
      DoneDecreases(s, step);
    } else {
      LoopDecreases(s, step);
    }
  }

  ghost predicate InternalNext(s: State, s': State) {
    Shape(s) && Refs(s) && exists step :: Enabled(s, step) && Internal(s, step) && s' == Apply(s, step)
  }

  /** The threads go on by themselves from state `run[0]`. */
  ghost predicate OnItsOwn(run: seq<State>) {
    |run| > 0 && Inv(run[0]) && forall k :: 0 <= k < |run| - 1 ==> InternalNext(run[k], run[k + 1])
  }

  /** Left to itself, a pool takes no more steps than its measure says. */
  lemma {:induction false} Bounded(run: seq<State>)
    requires OnItsOwn(run)
    ensures Inv(run[|run| - 1]) && |run| - 1 <= Measure(run[0]) - Measure(run[|run| - 1]) <= Measure(run[0])
    decreases |run|
  {
    hide Inv, Measure, Enabled, Apply, Internal;
    MeasureNat(run[|run| - 1]);
    if |run| > 1 {
      var before := run[..|run| - 1];
      assert forall k :: 0 <= k < |before| - 1 ==> InternalNext(run[k], run[k + 1]);
      Bounded(before);
      var s := run[|run| - 2];
      assert InternalNext(s, run[|run| - 2 + 1]);
      var step :| Enabled(s, step) && Internal(s, step) && run[|run| - 1] == Apply(s, step);
      StepKeeps(s, step);
      StepDecreases(s, step);
    }
  }

  /**
    Whatever order the threads run in, a pool left to itself stops, and once it has stopped
    every request has been delivered (or cleanup has been called and every worker has exited).
   */
  lemma EverythingIsDone(run: seq<State>)
    requires OnItsOwn(run)
    ensures |run| <= Measure(run[0]) + 1 && Inv(run[|run| - 1])
    ensures var s := run[|run| - 1];
      AtRest(s) ==>
        if s.pcs[|s.pcs| - 1] == Joining
        then forall i :: 0 <= i < s.n ==> s.pcs[i] == Exited
        else forall r :: 0 <= r < |s.reqs| ==> s.reqs[r].at == Delivered
  {
    Bounded(run);
    if AtRest(run[|run| - 1]) { RestIsDone(run[|run| - 1]); }
  }
}
