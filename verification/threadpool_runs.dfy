/**
  What holds in every run of the worker pool: each request is done once, slow I/O is throttled,
  no wakeup is lost, and a pool left to itself finishes everything.
 */
module PoolRuns {
  import opened Bytes
  import opened Sequences
  import opened ThreadPool
  import opened PoolInvariant
  import opened PoolSteps

  // ----- runs -----

  lemma TurnKeeps(s: State, i: nat, wake: nat)
    requires Inv(s) && i < s.n && s.pcs[i] == Top && CanWake(s, wake)
    ensures (s.wq != [] && s.wq[0].Work? ==> s.wq[0].r < |s.reqs|) && (s.slow != [] ==> s.slow[0] < |s.reqs|)
    ensures Inv(Turn(s, i, wake))
  {
    RefsQueue(s);
    hide Inv, Goto, Unlock, Put, Signal;
    if MustWait(s) {
      TurnWait(s, i);
    } else if s.wq[0] == Exit {
      TurnExit(s, i, wake);
    } else if s.wq[0].Work? {
      TurnWork(s, i, s.wq[0].r);
    } else if s.slowRunning >= Threshold(s.n) || s.slow == [] {
      TurnMessage(s, i, Turn(s, i, wake));
    } else {
      TurnSlow(s, i, wake);
    }
  }

  lemma NameOf(s: State, t: nat)
    requires Inv(s) && t < |s.pcs| && Names(s.pcs[t])
    ensures s.pcs[t].r < |s.reqs| && (t >= s.n ==> Owns(s, t - s.n, s.pcs[t].r))
  {
    FactsOf(s, t);
  }

  lemma WorkerStep(s: State, step: Step)
    requires Inv(s) && Enabled(s, step)
    requires step.Lock? || step.WorkerTurn? || step.Execute? || step.Finish? || step.Spurious?
    ensures Inv(Apply(s, step))
  {
    hide Roles, Locks, Refs, Queued, Hands, History, Counters, Attended, Messages, Notified, Acquire, Wants, Turn,
         RunWork, Return, Goto, CanWake;
    match step
    case Lock(t) => StepLock(s, t, Wants(s, t).value);
    case WorkerTurn(i, wake) => TurnKeeps(s, i, wake);
    case Execute(i) => NameOf(s, i); StepExecute(s, i);
    case Finish(i) => NameOf(s, i); StepFinish(s, i);
    case Spurious(i) => StepSpurious(s, i);
  }

  lemma LoopStep(s: State, step: Step)
    requires Inv(s) && Enabled(s, step) && (step.Submit? || step.Cancel? || step.TestCancel? || step.GiveCancelled?)
    ensures Inv(Apply(s, step))
  {
    hide Roles, Locks, Refs, Queued, Hands, History, Counters, Attended, Messages, Notified,
         NewRequest, Goto, TryCancel, GiveBack;
    match step
    case Submit(l, kind) => StepSubmit(s, l, kind);
    case Cancel(l, r) => StepCancel(s, l, r);
    case TestCancel(l) => NameOf(s, s.n + l); StepTestCancel(s, l, Thread(s, l).r);
    case GiveCancelled(l) => NameOf(s, s.n + l); StepGive(s, l, Thread(s, l).r);
  }

  lemma DoneStep(s: State, step: Step)
    requires Inv(s) && Enabled(s, step) && (step.WorkDone? || step.Move? || step.Deliver?)
    ensures Inv(Apply(s, step))
  {
    hide Roles, Locks, Refs, Queued, Hands, History, Counters, Attended, Messages, Notified, Goto, MoveAll, Moved,
         DeliverOne;
    match step
    case WorkDone(l) => StepWorkDone(s, l);
    case Move(l) => MovedIs(s, l); StepMove(s, l);
    case Deliver(l) => LocalOwned(s, l); StepDeliver(s, l);
  }

  lemma LocalOwned(s: State, l: nat)
    requires Inv(s) && l < |s.loopq| && s.local[l] != []
    ensures Owns(s, l, s.local[l][0])
  {
    RefsQueue(s);
  }

  lemma MovedIs(s: State, l: nat)
    requires Shape(s) && l < |s.loopq|
    ensures Moved(s, l) == Unlock(Goto(MoveAll(s, l), s.n + l, Idle), l + 1)
  {
  }

  lemma PostStep(s: State, step: Step)
    requires Inv(s) && Enabled(s, step) && (step.Post? || step.Cleanup? || step.PostExit?)
    ensures Inv(Apply(s, step))
  {
    hide Roles, Locks, Refs, Queued, Hands, History, Counters, Attended, Messages, Notified, CanWake, PostRequest, Enqueue;
    match step
    case Post(l, wake) => NameOf(s, s.n + l); StepPost(s, l, Thread(s, l).r, wake);
    case Cleanup => StepCleanup(s);
    case PostExit(wake) => StepPostExit(s, wake);
  }

  /** Every step keeps the invariant. */
  lemma StepKeeps(s: State, step: Step)
    requires Inv(s) && Enabled(s, step)
    ensures Inv(Apply(s, step))
  {
    hide Enabled, Apply, Roles, Locks, Refs, Queued, Hands, History, Counters, Attended, Messages, Notified;
    if step.Lock? || step.WorkerTurn? || step.Execute? || step.Finish? || step.Spurious? {
      WorkerStep(s, step);
    } else if step.Post? || step.Cleanup? || step.PostExit? {
      PostStep(s, step);
    } else if step.WorkDone? || step.Move? || step.Deliver? {
      DoneStep(s, step);
    } else {
      LoopStep(s, step);
    }
  }

  ghost predicate Next(s: State, s': State) {
    Shape(s) && Refs(s) && exists step :: Enabled(s, step) && s' == Apply(s, step)
  }

  /** A run from the start of the pool. */
  ghost predicate Run(run: seq<State>) {
    |run| > 0 && Start(run[0]) && forall k :: 0 <= k < |run| - 1 ==> Next(run[k], run[k + 1])
  }

  lemma {:induction false} RunInv(run: seq<State>, k: nat)
    requires Run(run) && k < |run|
    ensures Inv(run[k])
  {
    if k == 0 {
      StartInv(run[0]);
    } else {
      RunInv(run, k - 1);
      assert Next(run[k - 1], run[k - 1 + 1]);
      var step :| Enabled(run[k - 1], step) && run[k] == Apply(run[k - 1], step);
      StepKeeps(run[k - 1], step);
    }
  }

  // ----- safety in every run -----

  /** Where a request is, read off the queues and the threads. */
  predicate IsAt(s: State, r: nat, p: Place)
    requires Shape(s) && r < |s.reqs|
  {
    var l := s.reqs[r].loop;
    match p
    case Submitting => Thread(s, l) == WantPost(r) || Thread(s, l) == InPost(r)
    case InWork => Work(r) in s.wq
    case InSlow => r in s.slow
    case WithWorker(i) => i < s.n && Cargo(s.pcs[i]) == Some(r)
    case WithCancel => Thread(s, l) == WantGive(r) || Thread(s, l) == InGive(r)
    case InLoop => r in s.loopq[l]
    case InLocal => r in s.local[l]
    case Delivered => s.reqs[r].results != []
  }

  lemma OnePlaceOf(s: State, r: nat, p: Place)
    requires Inv(s) && r < |s.reqs|
    ensures IsAt(s, r, p) <==> s.reqs[r].at == p
  {
    assert InQueues(s, r) && Past(s, s.reqs[r]);
    assert Hands(s) && Roles(s);
    hide Inv, Refs, Locks, Hands, Queued, History, Counters, Messages, Attended, Notified, Roles;
    match p
    case WithWorker(i) => WorkerHas(s, r, i);
    case Submitting => LoopHas(s, r);
    case WithCancel => LoopHas(s, r);
    case _ =>
  }

  lemma WorkerHas(s: State, r: nat, i: nat)
    requires Shape(s) && Hands(s) && Roles(s) && r < |s.reqs|
    ensures i < s.n && Cargo(s.pcs[i]) == Some(r) <==> s.reqs[r].at == WithWorker(i)
  {
    assert Carried(s, r);
    if i < |s.pcs| { assert HandOf(s, i) && RoleOf(s, i, s.pcs[i]); }
  }

  lemma LoopHas(s: State, r: nat)
    requires Shape(s) && Hands(s) && Roles(s) && r < |s.reqs|
    ensures var pc := Thread(s, s.reqs[r].loop);
      && (pc == WantPost(r) || pc == InPost(r) <==> s.reqs[r].at == Submitting)
      && (pc == WantGive(r) || pc == InGive(r) <==> s.reqs[r].at == WithCancel)
  {
    var t := s.n + s.reqs[r].loop;
    assert Carried(s, r) && HandOf(s, t) && RoleOf(s, t, s.pcs[t]);
  }

  /** In every run each submitted request is in exactly one place, and in no queue twice. */
  lemma ExactlyOnePlace(run: seq<State>, k: nat, r: nat)
    requires Run(run) && k < |run|
    ensures Shape(run[k]) && Distinct(run[k].wq) && Distinct(run[k].slow)
    ensures forall l :: 0 <= l < |run[k].loopq| ==> Distinct(run[k].loopq[l]) && Distinct(run[k].local[l])
    ensures r < |run[k].reqs| ==> forall p :: IsAt(run[k], r, p) <==> p == run[k].reqs[r].at
  {
    RunInv(run, k);
    if r < |run[k].reqs| {
      forall p ensures IsAt(run[k], r, p) <==> p == run[k].reqs[r].at { OnePlaceOf(run[k], r, p); }
    }
  }

  /**
    `done` is called at most once: with UV_ECANCELED when a cancel succeeded and the work never
    ran, and otherwise with 0 after the work ran exactly once.
   */
  lemma DoneOnce(run: seq<State>, k: nat, r: nat)
    requires Run(run) && k < |run| && r < |run[k].reqs|
    ensures var q := run[k].reqs[r];
      && q.ran <= 1 && (q.ran == 1 ==> q.cancels == 0)
      && (q.results == [] || (q.results == [0] && q.ran == 1) || (q.results == [UV_ECANCELED] && q.ran == 0 && q.cancels > 0))
  {
    RunInv(run, k);
    assert Past(run[k], run[k].reqs[r]);
  }

  /** The number of workers with slow I/O work is the counter, and at most half the pool, rounded up. */
  lemma Throttled(run: seq<State>, k: nat)
    requires Run(run) && k < |run|
    ensures Sum(run[k].pcs, Slow) == run[k].slowRunning <= (run[k].n + 1) / 2
  {
    RunInv(run, k);
  }

  /** `run_slow_work_message` is in the queue at most once, and is there while slow work is pending. */
  lemma SlowAnnounced(run: seq<State>, k: nat)
    requires Run(run) && k < |run|
    ensures run[k].slow != [] ==> RunSlow in run[k].wq
    ensures forall i, j :: 0 <= i < j < |run[k].wq| && run[k].wq[i] == RunSlow ==> run[k].wq[j] != RunSlow
  {
    RunInv(run, k);
  }

  /**
    No wakeup is lost: if every worker that has not exited is asleep and has not been woken,
    then the work queue is empty.  This holds while the workers exit one after the other, too.
   */
  lemma NoLostWakeup(run: seq<State>, k: nat)
    requires Run(run) && k < |run|
    requires forall i :: 0 <= i < run[k].n && i < |run[k].pcs| ==> run[k].pcs[i] == Waiting || run[k].pcs[i] == Exited
    requires exists i :: 0 <= i < run[k].n && i < |run[k].pcs| && run[k].pcs[i] != Exited
    ensures run[k].wq == [] && run[k].slow == []
  {
    RunInv(run, k);
    AllAsleep(run[k]);
  }

  lemma AllAsleep(s: State)
    requires Inv(s) && SomeAlive(s) && forall i :: 0 <= i < s.n ==> !Awake(s.pcs[i])
    ensures s.wq == [] && s.slow == []
  {
    forall t | 0 <= t < |s.pcs| ensures Slow(s.pcs[t]) == 0 {
      assert RoleOf(s, t, s.pcs[t]);
    }
    SumZero(s.pcs, Slow);
    assert MustWait(s);
  }

  /** Two threads never hold a lock at once, and a thread waits only for locks above those it holds. */
  lemma LockOrder(run: seq<State>, k: nat, t: nat, u: nat, x: nat)
    requires Run(run) && k < |run| && Shape(run[k]) && t < |run[k].pcs| && u < |run[k].pcs| && x < |run[k].locks|
    requires Holds(run[k], t, x)
    ensures Holds(run[k], u, x) ==> u == t
    ensures Wants(run[k], t).Some? ==> x < Wants(run[k], t).value
  {
    RunInv(run, k);
    assert RoleOf(run[k], t, run[k].pcs[t]);
    assert run[k].locks[x] == Some(t);
  }
}
