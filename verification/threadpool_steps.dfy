/**
  Every step of the worker pool keeps the invariant.
 */
module PoolSteps {
  import opened Bytes
  import opened Sequences
  import opened ThreadPool
  import opened PoolInvariant

  // ----- steps that leave the queues and the requests alone -----

  predicate SameData(s: State, s': State) {
    s'.reqs == s.reqs && s'.wq == s.wq && s'.slow == s.slow && s'.loopq == s.loopq && s'.local == s.local
  }

  lemma SameQueues(s: State, s': State, t: nat)
    requires Only(s, s', t) && SameData(s, s') && Refs(s) && Queued(s) && NameRef(s', t)
    ensures Refs(s') && Queued(s')
  {
    forall u | 0 <= u < |s.pcs| ensures NameRef(s', u) {
      if u != t { assert NameRef(s, u); }
    }
    assert forall r :: 0 <= r < |s.reqs| ==> InQueues(s, r) ==> InQueues(s', r);
  }

  /** The request in the hands of `t`, or one that does not exist. */
  function CargoOf(s: State, t: nat): nat
    requires t < |s.pcs|
  {
    match Cargo(s.pcs[t]) case Some(r) => r case None => |s.reqs|
  }

  lemma SameCargo(s: State, s': State, t: nat)
    requires Only(s, s', t) && s'.reqs == s.reqs && Hands(s) && History(s)
    requires Cargo(s'.pcs[t]) == Cargo(s.pcs[t]) && PlaceOf(s'.pcs[t], t) == PlaceOf(s.pcs[t], t)
    requires s'.pcs[t].Running? == s.pcs[t].Running?
    ensures Hands(s') && History(s')
  {
    var r := CargoOf(s, t);
    assert HandOf(s, t);
    if r < |s.reqs| { assert Carried(s, r) && Past(s, s.reqs[r]); }
    forall q | 0 <= q < |s.reqs| && q != r ensures SameHand(s, s', q) { }
    KeepHands(s, s', t, r);
    KeepHistory(s, s', t, r);
  }

  /** The parts of the invariant about wakeups, for a step that leaves the work queue alone. */
  ghost predicate SameWakeups(s: State, s': State, t: nat)
    requires Only(s, s', t)
  {
    && s'.pcs[t].Exited? == s.pcs[t].Exited? && s'.pcs[t].Joining? == s.pcs[t].Joining?
    && (t < s.n ==> Awake(s'.pcs[t]) || MustWait(s'))
    && (t >= s.n ==> s'.slowRunning == s.slowRunning)
    && (forall l :: 0 <= l < |s.loopq| ==>
          && (s'.async[l] == s.async[l] || (t == s.n + l && Moving(s'.pcs[t])))
          && (t == s.n + l && Moving(s.pcs[t]) ==> Moving(s'.pcs[t]))
          && (t == s.n + l && Moving(s'.pcs[t]) ==> Moving(s.pcs[t]) || s.local[l] == []))
  }

  lemma SameAttended(s: State, s': State, t: nat)
    requires Only(s, s', t) && SameData(s, s') && Attended(s) && SameWakeups(s, s', t)
    ensures Attended(s')
  {
    if t >= s.n && SomeAlive(s') && !MustWait(s') {
      var i :| 0 <= i < s.n && s'.pcs[i] != Exited;
      assert s.pcs[i] != Exited;
      var j :| 0 <= j < s.n && Awake(s.pcs[j]);
      assert Awake(s'.pcs[j]);
    }
  }

  lemma SameMessages(s: State, s': State, t: nat)
    requires Only(s, s', t) && SameData(s, s') && Messages(s) && SameWakeups(s, s', t)
    ensures Messages(s')
  {
  }

  lemma SameNotified(s: State, s': State, t: nat)
    requires Only(s, s', t) && SameData(s, s') && Notified(s) && SameWakeups(s, s', t) && Roles(s) && RoleOf(s, t, s'.pcs[t])
    ensures Notified(s')
  {
    hide SameWakeups;
    forall l | 0 <= l < |s.loopq|
      ensures s'.loopq[l] != [] ==> s'.async[l] || Moving(Thread(s', l))
      ensures Moving(Thread(s', l)) ==> s'.local[l] == []
    {
      SameNotifiedAt(s, s', t, l);
    }
  }

  lemma SameNotifiedAt(s: State, s': State, t: nat, l: nat)
    requires Only(s, s', t) && SameWakeups(s, s', t) && Roles(s) && RoleOf(s, t, s'.pcs[t]) && l < |s.loopq|
    ensures s.async[l] || Moving(Thread(s, l)) ==> s'.async[l] || Moving(Thread(s', l))
    ensures Moving(Thread(s', l)) ==> Moving(Thread(s, l)) || s.local[l] == []
  {
  }

  ghost predicate LockChange(s: State, s': State, t: nat)
    requires Only(s, s', t)
  {
    && (forall k :: 0 <= k < |s.locks| && Holds(s', t, k) ==>
          s'.locks[k] == Some(t) && (Holds(s, t, k) || s.locks[k] == None))
    && (forall k :: 0 <= k < |s.locks| && !Holds(s', t, k) ==>
          s'.locks[k] == if Holds(s, t, k) then None else s.locks[k])
  }

  predicate CountChange(s: State, s': State, t: nat)
    requires t < |s.pcs| && t < |s'.pcs|
  {
    && s'.idle == s.idle - Asleep(s.pcs[t]) + Asleep(s'.pcs[t])
    && s'.slowRunning == s.slowRunning - Slow(s.pcs[t]) + Slow(s'.pcs[t]) <= Threshold(s.n)
  }

  /** Thread `t` moves without touching a queue or a request. */
  ghost predicate Quiet(s: State, s': State, t: nat) {
    && Only(s, s', t) && SameData(s, s') && RoleOf(s, t, s'.pcs[t]) && NameRef(s', t)
    && Cargo(s'.pcs[t]) == Cargo(s.pcs[t]) && PlaceOf(s'.pcs[t], t) == PlaceOf(s.pcs[t], t)
    && s'.pcs[t].Running? == s.pcs[t].Running?
    && LockChange(s, s', t) && CountChange(s, s', t) && SameWakeups(s, s', t)
  }

  lemma QuietStep(s: State, s': State, t: nat)
    requires Inv(s) && Quiet(s, s', t)
    ensures Inv(s')
  {
    hide Roles, Locks, Refs, Queued, Hands, History, Counters, Attended, Messages, Notified, SameWakeups, SameData;
    KeepRoles(s, s', t);
    KeepLocks(s, s', t);
    SameQueues(s, s', t);
    assert SameData(s, s') ==> s'.reqs == s.reqs by { SameReqs(s, s'); }
    SameCargo(s, s', t);
    KeepCounters(s, s', t);
    SameAttended(s, s', t);
    SameMessages(s, s', t);
    SameNotified(s, s', t);
  }

  lemma SameReqs(s: State, s': State)
    ensures SameData(s, s') ==> s'.reqs == s.reqs
  {
  }

  /** What the invariant says of one thread. */
  ghost predicate Facts(s: State, t: nat) {
    && Shape(s) && t < |s.pcs| && RoleOf(s, t, s.pcs[t]) && NameRef(s, t) && s.slowRunning <= Threshold(s.n)
    && forall k :: 0 <= k < |s.locks| && Holds(s, t, k) ==> s.locks[k] == Some(t)
  }

  lemma FactsShape(s: State, t: nat)
    requires Facts(s, t)
    ensures Shape(s) && t < |s.pcs|
  {
  }

  lemma FactsOf(s: State, t: nat)
    requires Inv(s) && t < |s.pcs|
    ensures Facts(s, t) && QueueRefs(s)
  {
  }

  lemma LockQuiet(s: State, t: nat, k: nat)
    requires Facts(s, t) && k < |s.locks| && Wants(s, t) == Some(k) && s.locks[k] == None
    ensures Quiet(s, Acquire(s, t, k), t)
  {
    LockOwner(s, t, k);
    LockPc(s, t, k);
    LockWakeups(s, t, k);
    hide Acquire, Wants, Locked, Only, SameData, RoleOf, NameRef, PlaceOf, Cargo, LockChange, CountChange, SameWakeups, Facts;
  }

  lemma LockOwner(s: State, t: nat, k: nat)
    requires Facts(s, t) && k < |s.locks| && Wants(s, t) == Some(k) && s.locks[k] == None
    ensures Only(s, Acquire(s, t, k), t) && LockChange(s, Acquire(s, t, k), t)
  {
  }

  lemma LockPc(s: State, t: nat, k: nat)
    requires Facts(s, t) && k < |s.locks| && Wants(s, t) == Some(k)
    ensures var s' := Acquire(s, t, k);
      && SameData(s, s') && Shape(s') && t < |s'.pcs| && RoleOf(s, t, s'.pcs[t]) && NameRef(s', t) && CountChange(s, s', t)
      && Cargo(s'.pcs[t]) == Cargo(s.pcs[t]) && PlaceOf(s'.pcs[t], t) == PlaceOf(s.pcs[t], t)
      && s'.pcs[t].Running? == s.pcs[t].Running?
  {
  }

  lemma LockWakeups(s: State, t: nat, k: nat)
    requires Facts(s, t) && k < |s.locks| && Wants(s, t) == Some(k) && Only(s, Acquire(s, t, k), t)
    ensures SameWakeups(s, Acquire(s, t, k), t)
  {
  }

  lemma SpuriousQuiet(s: State, i: nat)
    requires Facts(s, i) && i < s.n && s.pcs[i] == Waiting
    ensures Quiet(s, Goto(s, i, Woken), i)
  {
  }

  lemma CancelQuiet(s: State, l: nat, r: nat)
    requires Facts(s, s.n + l) && l < |s.loopq| && Thread(s, l) == Idle && Owns(s, l, r)
    ensures Quiet(s, Goto(s, s.n + l, WantCancel(r)), s.n + l)
  {
  }

  lemma WorkDoneQuiet(s: State, l: nat)
    requires Facts(s, s.n + l) && l < |s.loopq| && Thread(s, l) == Idle && s.local[l] == []
    ensures Quiet(s, Goto(s, s.n + l, WantMove).(async := s.async[l := false]), s.n + l)
  {
  }

  lemma CleanupQuiet(s: State)
    requires Shape(s) && Facts(s, |s.pcs| - 1) && s.pcs[|s.pcs| - 1] == Ready
    ensures Quiet(s, Goto(s, |s.pcs| - 1, WantExit), |s.pcs| - 1)
  {
  }

  lemma WaitQuiet(s: State, i: nat)
    requires Facts(s, i) && i < s.n && s.pcs[i] == Top && MustWait(s)
    ensures Quiet(s, Slept(s, i), i)
  {
  }

  // ----- steps that move a request -----

  /** How thread `t` moves: its role, its locks, its share in the counters. */
  ghost predicate Moves(s: State, s': State, t: nat) {
    && Only(s, s', t) && RoleOf(s, t, s'.pcs[t]) && NameRef(s', t)
    && LockChange(s, s', t) && CountChange(s, s', t)
  }

  /** Thread `t` moves, and of the requests only `r` changes. */
  ghost predicate Transfer(s: State, s': State, t: nat, r: nat) {
    && Moves(s, s', t)
    && Handles(s, s', t, r) && (forall q :: 0 <= q < |s.reqs| && q != r ==> s'.reqs[q] == s.reqs[q])
    && (r < |s'.reqs| ==> Past(s', s'.reqs[r]))
  }

  lemma KeepNames(s: State, s': State, t: nat)
    requires Only(s, s', t) && Refs(s) && NameRef(s', t) && QueueRefs(s')
    ensures Refs(s')
  {
    forall u | 0 <= u < |s.pcs| ensures NameRef(s', u) {
      if u != t { assert NameRef(s, u); }
    }
  }

  lemma PastOf(s: State, r: nat)
    requires Inv(s) && r < |s.reqs|
    ensures Past(s, s.reqs[r])
  {
  }

  lemma TransferOnly(s: State, s': State, t: nat, r: nat)
    requires Transfer(s, s', t, r)
    ensures Only(s, s', t) && RoleOf(s, t, s'.pcs[t])
  {
  }

  lemma MovesOnly(s: State, s': State, t: nat)
    requires Moves(s, s', t)
    ensures Only(s, s', t)
  {
  }

  lemma TransferStep(s: State, s': State, t: nat, r: nat)
    requires Inv(s) && Transfer(s, s', t, r)
    requires QueueRefs(s') && Queued(s') && Messages(s') && Attended(s') && Notified(s')
    ensures Inv(s')
  {
    hide Roles, Locks, Refs, Queued, Hands, History, Counters, Attended, Messages, Notified, QueueRefs, Past, RoleOf;
    KeepRoles(s, s', t);
    KeepLocks(s, s', t);
    KeepNames(s, s', t);
    KeepHands(s, s', t, r);
    TransferPast(s, s', t, r);
    KeepCounters(s, s', t);
  }

  lemma TransferPast(s: State, s': State, t: nat, r: nat)
    requires Transfer(s, s', t, r) && Hands(s) && History(s)
    ensures History(s')
  {
    KeepHistory(s, s', t, r);
  }

  /** Queues of loops grow with a wakeup only, and are emptied before a loop turns to other things. */
  ghost predicate LoopsKept(s: State, s': State, t: nat)
    requires Only(s, s', t)
  {
    forall l :: 0 <= l < |s.loopq| ==>
      && (s'.loopq[l] != [] ==> s.loopq[l] != [] || s'.async[l]) && (s.async[l] ==> s'.async[l])
      && (t == s.n + l && Moving(s.pcs[t]) ==> s'.loopq[l] == []) && (t == s.n + l ==> !Moving(s'.pcs[t]))
      && (t == s.n + l || (s.local[l] == [] ==> s'.local[l] == []))
  }

  lemma KeepNotified(s: State, s': State, t: nat)
    requires Only(s, s', t) && Roles(s) && RoleOf(s, t, s'.pcs[t]) && Notified(s) && LoopsKept(s, s', t)
    ensures Notified(s')
  {
  }

  lemma Busy(s: State, i: nat)
    requires Shape(s) && i < s.n && Awake(s.pcs[i])
    ensures Attended(s)
  {
  }

  /** What the invariant says of the request in the hands of `t`. */
  ghost predicate CargoFacts(s: State, t: nat, r: nat) {
    && Shape(s) && t < |s.pcs| && Cargo(s.pcs[t]) == Some(r) && r < |s.reqs|
    && s.reqs[r].at == PlaceOf(s.pcs[t], t) && Carrier(s, r) == Some(t) && Past(s, s.reqs[r]) && InQueues(s, r)
  }

  lemma CargoFactsOf(s: State, t: nat)
    requires Inv(s) && t < |s.pcs| && Cargo(s.pcs[t]).Some?
    ensures CargoFacts(s, t, Cargo(s.pcs[t]).value)
  {
    assert HandOf(s, t);
  }

  // ----- the steps without effect on queues and requests -----

  lemma StepLock(s: State, t: nat, k: nat)
    requires Inv(s) && t < |s.pcs| && k < |s.locks| && Wants(s, t) == Some(k) && s.locks[k] == None
    ensures Inv(Acquire(s, t, k))
  {
    hide Roles, Locks, Refs, Queued, Hands, History, Counters, Attended, Messages, Notified, QueueRefs, RoleOf, NameRef,
         Only, Moves, LockChange, CountChange, Handles, Transfer, Facts, CargoFacts, Past, CanWake, Distinct, LoopsKept,
         PlacesKept, WorkKept, Quiet, Wants, Acquire;
    FactsOf(s, t);
    LockQuiet(s, t, k);
    QuietStep(s, Acquire(s, t, k), t);
  }

  lemma StepSpurious(s: State, i: nat)
    requires Inv(s) && i < s.n && s.pcs[i] == Waiting
    ensures Inv(Goto(s, i, Woken))
  {
    hide Roles, Locks, Refs, Queued, Hands, History, Counters, Attended, Messages, Notified, QueueRefs, RoleOf, NameRef,
         Only, Moves, LockChange, CountChange, Handles, Transfer, Facts, CargoFacts, Past, CanWake, Distinct, LoopsKept,
         PlacesKept, WorkKept, Quiet, Goto;
    FactsOf(s, i);
    SpuriousQuiet(s, i);
    QuietStep(s, Goto(s, i, Woken), i);
  }

  lemma StepCancel(s: State, l: nat, r: nat)
    requires Inv(s) && l < |s.loopq| && Thread(s, l) == Idle && Owns(s, l, r)
    ensures Inv(Goto(s, s.n + l, WantCancel(r)))
  {
    hide Roles, Locks, Refs, Queued, Hands, History, Counters, Attended, Messages, Notified, QueueRefs, RoleOf, NameRef,
         Only, Moves, LockChange, CountChange, Handles, Transfer, Facts, CargoFacts, Past, CanWake, Distinct, LoopsKept,
         PlacesKept, WorkKept, Quiet, Goto;
    FactsOf(s, s.n + l);
    CancelQuiet(s, l, r);
    QuietStep(s, Goto(s, s.n + l, WantCancel(r)), s.n + l);
  }

  lemma StepWorkDone(s: State, l: nat)
    requires Inv(s) && l < |s.loopq| && Thread(s, l) == Idle && s.local[l] == []
    ensures Inv(Goto(s, s.n + l, WantMove).(async := s.async[l := false]))
  {
    hide Roles, Locks, Refs, Queued, Hands, History, Counters, Attended, Messages, Notified, QueueRefs, RoleOf, NameRef,
         Only, Moves, LockChange, CountChange, Handles, Transfer, Facts, CargoFacts, Past, CanWake, Distinct, LoopsKept,
         PlacesKept, WorkKept, Quiet, Goto;
    FactsOf(s, s.n + l);
    WorkDoneQuiet(s, l);
    QuietStep(s, Goto(s, s.n + l, WantMove).(async := s.async[l := false]), s.n + l);
  }

  lemma StepCleanup(s: State)
    requires Inv(s) && s.pcs[|s.pcs| - 1] == Ready
    ensures Inv(Goto(s, |s.pcs| - 1, WantExit))
  {
    hide Roles, Locks, Refs, Queued, Hands, History, Counters, Attended, Messages, Notified, QueueRefs, RoleOf, NameRef,
         Only, Moves, LockChange, CountChange, Handles, Transfer, Facts, CargoFacts, Past, CanWake, Distinct, LoopsKept,
         PlacesKept, WorkKept, Quiet, Goto;
    FactsOf(s, |s.pcs| - 1);
    CleanupQuiet(s);
    QuietStep(s, Goto(s, |s.pcs| - 1, WantExit), |s.pcs| - 1);
  }

  // ----- Execute -----

  lemma ExecuteMoves(s: State, i: nat)
    requires Facts(s, i) && i < s.n && s.pcs[i].Running? && s.pcs[i].r < |s.reqs|
    ensures var s' := RunWork(s, i, s.pcs[i]);
      && Moves(s, s', i) && LoopsKept(s, s', i) && PlacesKept(s, s') && WorkKept(s, s', i) && Awake(s'.pcs[i])
  {
  }

  lemma ExecuteTransfer(s: State, i: nat)
    requires Facts(s, i) && i < s.n && s.pcs[i].Running? && CargoFacts(s, i, s.pcs[i].r)
    ensures var s' := RunWork(s, i, s.pcs[i]);
      && Transfer(s, s', i, s.pcs[i].r) && LoopsKept(s, s', i) && PlacesKept(s, s') && WorkKept(s, s', i)
      && Awake(s'.pcs[i])
  {
    ExecuteMoves(s, i);
    MovesOnly(s, RunWork(s, i, s.pcs[i]), i);
    hide Moves, LoopsKept, WorkKept, PlacesKept, Only, Facts;
  }

  /** The requests keep their places and the queues do not change. */
  ghost predicate PlacesKept(s: State, s': State) {
    && Shape(s) && Shape(s') && |s'.loopq| == |s.loopq|
    && s'.wq == s.wq && s'.slow == s.slow && s'.loopq == s.loopq && s'.local == s.local && |s'.reqs| == |s.reqs|
    && forall q :: 0 <= q < |s.reqs| ==> s'.reqs[q].at == s.reqs[q].at && s'.reqs[q].loop == s.reqs[q].loop
  }

  lemma SamePlaces(s: State, s': State)
    requires PlacesKept(s, s') && QueueRefs(s) && Queued(s)
    ensures QueueRefs(s') && Queued(s')
  {
    assert forall r :: 0 <= r < |s.reqs| ==> InQueues(s, r) ==> InQueues(s', r);
  }

  predicate WorkKept(s: State, s': State, t: nat)
    requires t < |s.pcs| && t < |s'.pcs|
  {
    && s'.wq == s.wq && s'.slow == s.slow && s'.slowRunning == s.slowRunning
    && s'.pcs[t].Exited? == s.pcs[t].Exited? && s'.pcs[t].Joining? == s.pcs[t].Joining?
  }

  lemma SameMessages2(s: State, s': State, t: nat)
    requires Only(s, s', t) && WorkKept(s, s', t) && Messages(s)
    ensures Messages(s')
  {
  }

  lemma StepExecute(s: State, i: nat)
    requires Inv(s) && i < s.n && s.pcs[i].Running? && s.pcs[i].r < |s.reqs|
    ensures Inv(RunWork(s, i, s.pcs[i]))
  {
    hide Roles, Locks, Refs, Queued, Hands, History, Counters, Attended, Messages, Notified, QueueRefs, RoleOf, NameRef,
         Only, Moves, LockChange, CountChange, Handles, Transfer, Facts, CargoFacts, Past, CanWake, Distinct, LoopsKept,
         PlacesKept, WorkKept, Quiet, RunWork;
    var s' := RunWork(s, i, s.pcs[i]);
    FactsOf(s, i);
    CargoFactsOf(s, i);
    ExecuteTransfer(s, i);
    TransferOnly(s, s', i, s.pcs[i].r);
    SamePlaces(s, s');
    SameMessages2(s, s', i);
    Busy(s', i);
    KeepNotified(s, s', i);
    TransferStep(s, s', i, s.pcs[i].r);
  }

  // ----- Finish -----

  lemma FinishMoves(s: State, i: nat)
    requires Facts(s, i) && i < s.n && s.pcs[i].Returning? && CargoFacts(s, i, s.pcs[i].r)
    ensures var s' := Return(s, i, s.pcs[i]);
      Moves(s, s', i) && LoopsKept(s, s', i) && WorkKept(s, s', i) && Awake(s'.pcs[i])
  {
  }

  lemma FinishTransfer(s: State, i: nat)
    requires Facts(s, i) && i < s.n && s.pcs[i].Returning? && CargoFacts(s, i, s.pcs[i].r)
    ensures var s' := Return(s, i, s.pcs[i]);
      && Transfer(s, s', i, s.pcs[i].r) && LoopsKept(s, s', i) && WorkKept(s, s', i) && GivenBack(s, s', s.pcs[i].r)
      && Awake(s'.pcs[i])
  {
    FinishMoves(s, i);
    MovesOnly(s, Return(s, i, s.pcs[i]), i);
    hide Moves, LoopsKept, WorkKept, Only, Facts;
  }

  /** Appending a request that was in a thread's hands to its loop's queue. */
  ghost predicate GivenBack(s: State, s': State, r: nat) {
    && Shape(s) && Shape(s') && r < |s.reqs| && Carrier(s, r).Some?
    && |s'.reqs| == |s.reqs| && s'.wq == s.wq && s'.slow == s.slow && s'.local == s.local
    && (forall q :: 0 <= q < |s.reqs| && q != r ==> s'.reqs[q] == s.reqs[q])
    && s'.reqs[r].at == InLoop && s'.reqs[r].loop == s.reqs[r].loop
    && var l := s.reqs[r].loop; s'.loopq == s.loopq[l := s.loopq[l] + [r]]
  }

  lemma GiveQueues(s: State, s': State, r: nat)
    requires GivenBack(s, s', r) && QueueRefs(s) && Queued(s)
    ensures QueueRefs(s') && Queued(s')
  {
    var l := s.reqs[r].loop;
    assert InQueues(s, r);
    AppendOf(s.loopq[l], r);
    forall q | 0 <= q < |s.reqs| ensures InQueues(s', q) { assert InQueues(s, q); }
    forall m, k | 0 <= m < |s'.loopq| && 0 <= k < |s'.loopq[m]| ensures Owns(s', m, s'.loopq[m][k]) {
      if m != l || k < |s.loopq[l]| { assert Owns(s, m, s.loopq[m][k]); }
    }
    assert forall m, k :: 0 <= m < |s.loopq| && 0 <= k < |s.local[m]| ==>
      Owns(s, m, s.local[m][k]) ==> Owns(s', m, s'.local[m][k]);
  }

  lemma StepFinish(s: State, i: nat)
    requires Inv(s) && i < s.n && s.pcs[i].Returning? && s.pcs[i].r < |s.reqs|
    ensures Inv(Return(s, i, s.pcs[i]))
  {
    hide Roles, Locks, Refs, Queued, Hands, History, Counters, Attended, Messages, Notified, QueueRefs, RoleOf, NameRef,
         Only, Moves, LockChange, CountChange, Handles, Transfer, Facts, CargoFacts, Past, CanWake, Distinct, LoopsKept,
         PlacesKept, WorkKept, Quiet, Return, GivenBack;
    var s' := Return(s, i, s.pcs[i]);
    FactsOf(s, i);
    CargoFactsOf(s, i);
    FinishTransfer(s, i);
    TransferOnly(s, s', i, s.pcs[i].r);
    GiveQueues(s, s', s.pcs[i].r);
    SameMessages2(s, s', i);
    Busy(s', i);
    KeepNotified(s, s', i);
    TransferStep(s, s', i, s.pcs[i].r);
  }

  // ----- GiveCancelled -----

  lemma GiveMoves(s: State, l: nat, r: nat)
    requires l < |s.loopq| && Facts(s, s.n + l) && Thread(s, l) == InGive(r) && CargoFacts(s, s.n + l, r)
    ensures var s', t := GiveBack(s, l, r), s.n + l;
      Moves(s, s', t) && LoopsKept(s, s', t) && WorkKept(s, s', t)
  {
  }

  lemma GiveTransfer(s: State, l: nat, r: nat)
    requires l < |s.loopq| && Facts(s, s.n + l) && Thread(s, l) == InGive(r) && CargoFacts(s, s.n + l, r)
    ensures var s', t := GiveBack(s, l, r), s.n + l;
      Transfer(s, s', t, r) && LoopsKept(s, s', t) && WorkKept(s, s', t) && GivenBack(s, s', r)
  {
    hide GiveBack, Moves, LoopsKept, WorkKept, GivenBack, Facts, Transfer, CargoFacts, Completed, Cargo;
    FactsShape(s, s.n + l);
    GiveMoves(s, l, r);
    GiveBackData(s, l, r);
    GivenBackTransfer(s, GiveBack(s, l, r), s.n + l, r);
  }

  lemma GiveBackData(s: State, l: nat, r: nat)
    requires Shape(s) && l < |s.loopq| && Thread(s, l) == InGive(r) && CargoFacts(s, s.n + l, r)
    ensures Owns(s, l, r)
    ensures var s', t := GiveBack(s, l, r), s.n + l;
      GivenBack(s, s', r) && t < |s'.pcs| && Cargo(s'.pcs[t]).None? && r < |s'.reqs| && Completed(s'.reqs[r]) && s'.reqs[r].results == []
  {
  }

  lemma GivenBackTransfer(s: State, s': State, t: nat, r: nat)
    requires Moves(s, s', t) && CargoFacts(s, t, r) && GivenBack(s, s', r)
    requires Cargo(s'.pcs[t]).None? && Completed(s'.reqs[r]) && s'.reqs[r].results == []
    ensures Transfer(s, s', t, r)
  {
    MovesOnly(s, s', t);
    assert t < |s'.pcs|;
    hide Moves, Only, CargoFacts, Transfer, Completed, Cargo;
    PutDownTransfer(s, s', t, r);
  }

  /** A thread gives up the request in its hands. */
  lemma PutDownTransfer(s: State, s': State, t: nat, r: nat)
    requires Moves(s, s', t) && CargoFacts(s, t, r) && t < |s'.pcs| && Cargo(s'.pcs[t]).None?
    requires |s'.reqs| == |s.reqs| && forall q :: 0 <= q < |s.reqs| && q != r ==> s'.reqs[q] == s.reqs[q]
    requires Carrier(s', r).None? && Shape(s') && Past(s', s'.reqs[r])
    ensures Transfer(s, s', t, r)
  {
    MovesOnly(s, s', t);
    SameHands(s, s', r);
    hide Moves, Only, Past, SameHand, InQueues, Shape, PlaceOf;
  }

  lemma SameHands(s: State, s': State, r: nat)
    requires s'.n == s.n && |s'.reqs| == |s.reqs| && forall q :: 0 <= q < |s.reqs| && q != r ==> s'.reqs[q] == s.reqs[q]
    ensures forall q :: 0 <= q < |s.reqs| && q != r ==> SameHand(s, s', q)
  {
  }

  /** A loop's or the cleaner's step that does not add to the work queue leaves it attended. */
  lemma SameAttended2(s: State, s': State, t: nat)
    requires Only(s, s', t) && t >= s.n && WorkKept(s, s', t) && Attended(s)
    ensures Attended(s')
  {
    SameAttended3(s, s', t);
  }

  lemma SameAttended3(s: State, s': State, t: nat)
    requires Only(s, s', t) && t >= s.n && s'.wq == s.wq && s'.slowRunning == s.slowRunning && Attended(s)
    ensures Attended(s')
  {
    if SomeAlive(s') && !MustWait(s') {
      var i :| 0 <= i < s.n && s'.pcs[i] != Exited;
      assert s.pcs[i] != Exited;
      var j :| 0 <= j < s.n && Awake(s.pcs[j]);
      assert Awake(s'.pcs[j]);
    }
  }

  lemma StepGive(s: State, l: nat, r: nat)
    requires Inv(s) && l < |s.loopq| && Thread(s, l) == InGive(r) && Owns(s, l, r)
    ensures Inv(GiveBack(s, l, r))
  {
    hide Roles, Locks, Refs, Queued, Hands, History, Counters, Attended, Messages, Notified, QueueRefs, RoleOf, NameRef,
         Only, Moves, LockChange, CountChange, Handles, Transfer, Facts, CargoFacts, Past, CanWake, Distinct, LoopsKept,
         PlacesKept, WorkKept, Quiet, GiveBack, GivenBack;
    var s', t := GiveBack(s, l, r), s.n + l;
    FactsOf(s, t);
    CargoFactsOf(s, t);
    GiveTransfer(s, l, r);
    TransferOnly(s, s', t, r);
    GiveQueues(s, s', r);
    SameMessages2(s, s', t);
    SameAttended2(s, s', t);
    KeepNotified(s, s', t);
    TransferStep(s, s', t, r);
  }

  // ----- Submit -----

  lemma SubmitMoves(s: State, l: nat, kind: Kind)
    requires l < |s.loopq| && Facts(s, s.n + l) && Thread(s, l) == Idle
    ensures var s', t := NewRequest(s, l, kind), s.n + l;
      Moves(s, s', t) && LoopsKept(s, s', t) && WorkKept(s, s', t)
  {
  }

  lemma SubmitTransfer(s: State, l: nat, kind: Kind)
    requires l < |s.loopq| && Facts(s, s.n + l) && Thread(s, l) == Idle
    ensures var s', t := NewRequest(s, l, kind), s.n + l;
      Transfer(s, s', t, |s.reqs|) && LoopsKept(s, s', t) && WorkKept(s, s', t)
  {
    SubmitMoves(s, l, kind);
    MovesOnly(s, NewRequest(s, l, kind), s.n + l);
    hide Moves, LoopsKept, WorkKept, Only;
  }

  lemma SubmitQueues(s: State, l: nat, kind: Kind)
    requires Shape(s) && QueueRefs(s) && Queued(s) && l < |s.loopq|
    ensures var s' := NewRequest(s, l, kind); Shape(s') && QueueRefs(s') && Queued(s')
  {
    var s' := NewRequest(s, l, kind);
    forall q | 0 <= q < |s.reqs| ensures InQueues(s', q) { assert InQueues(s, q); }
    forall m, k | 0 <= m < |s'.loopq| && 0 <= k < |s'.loopq[m]| ensures Owns(s', m, s'.loopq[m][k]) {
      assert Owns(s, m, s.loopq[m][k]);
    }
    forall m, k | 0 <= m < |s'.loopq| && 0 <= k < |s'.local[m]| ensures Owns(s', m, s'.local[m][k]) {
      assert Owns(s, m, s.local[m][k]);
    }
  }

  lemma StepSubmit(s: State, l: nat, kind: Kind)
    requires Inv(s) && l < |s.loopq| && Thread(s, l) == Idle
    ensures Inv(NewRequest(s, l, kind))
  {
    hide Roles, Locks, Refs, Queued, Hands, History, Counters, Attended, Messages, Notified, QueueRefs, RoleOf, NameRef,
         Only, Moves, LockChange, CountChange, Handles, Transfer, Facts, CargoFacts, Past, CanWake, Distinct, LoopsKept,
         PlacesKept, WorkKept, Quiet, NewRequest;
    var s', t := NewRequest(s, l, kind), s.n + l;
    FactsOf(s, t);
    SubmitTransfer(s, l, kind);
    TransferOnly(s, s', t, |s.reqs|);
    SubmitQueues(s, l, kind);
    SameMessages2(s, s', t);
    SameAttended2(s, s', t);
    KeepNotified(s, s', t);
    TransferStep(s, s', t, |s.reqs|);
  }

  // ----- Deliver -----

  lemma DeliverTransfer(s: State, l: nat)
    requires l < |s.loopq| && Facts(s, s.n + l) && Thread(s, l) == Idle && s.local[l] != []
    requires var r := s.local[l][0]; Owns(s, l, r) && s.reqs[r].at == InLocal && Past(s, s.reqs[r])
    ensures var s', t := DeliverOne(s, l), s.n + l;
      Transfer(s, s', t, s.local[l][0]) && LoopsKept(s, s', t) && WorkKept(s, s', t)
  {
    hide Moves, LoopsKept, WorkKept, Facts, SameHand;
    FactsShape(s, s.n + l);
    DeliverMoves(s, l);
    MovesOnly(s, DeliverOne(s, l), s.n + l);
    SameHands(s, DeliverOne(s, l), s.local[l][0]);
    hide Moves;
  }

  lemma DeliverMoves(s: State, l: nat)
    requires l < |s.loopq| && Facts(s, s.n + l) && Thread(s, l) == Idle && s.local[l] != []
    requires Owns(s, l, s.local[l][0])
    ensures var s', t := DeliverOne(s, l), s.n + l;
      Moves(s, s', t) && LoopsKept(s, s', t) && WorkKept(s, s', t)
  {
  }

  lemma DeliverQueues(s: State, l: nat)
    requires Shape(s) && QueueRefs(s) && Queued(s) && l < |s.loopq| && s.local[l] != [] && Owns(s, l, s.local[l][0])
    ensures s.reqs[s.local[l][0]].at == InLocal
    ensures var s' := DeliverOne(s, l); Shape(s') && QueueRefs(s') && Queued(s')
  {
    var s', r := DeliverOne(s, l), s.local[l][0];
    assert InQueues(s, r);
    TailOf(s.local[l]);
    forall q | 0 <= q < |s.reqs| ensures InQueues(s', q) { assert InQueues(s, q); }
    forall m, k | 0 <= m < |s'.loopq| && 0 <= k < |s'.loopq[m]| ensures Owns(s', m, s'.loopq[m][k]) {
      assert Owns(s, m, s.loopq[m][k]);
    }
    forall m, k | 0 <= m < |s'.loopq| && 0 <= k < |s'.local[m]| ensures Owns(s', m, s'.local[m][k]) {
      assert Owns(s, m, s.local[m][if m == l then k + 1 else k]);
    }
  }

  lemma StepDeliver(s: State, l: nat)
    requires Inv(s) && l < |s.loopq| && Thread(s, l) == Idle && s.local[l] != [] && Owns(s, l, s.local[l][0])
    ensures Inv(DeliverOne(s, l))
  {
    hide Roles, Locks, Refs, Queued, Hands, History, Counters, Attended, Messages, Notified, QueueRefs, RoleOf, NameRef,
         Only, Moves, LockChange, CountChange, Handles, Transfer, Facts, CargoFacts, Past, CanWake, Distinct, LoopsKept,
         PlacesKept, WorkKept, Quiet, DeliverOne;
    var s', t, r := DeliverOne(s, l), s.n + l, s.local[l][0];
    FactsOf(s, t);
    PastOf(s, r);
    DeliverQueues(s, l);
    DeliverTransfer(s, l);
    TransferOnly(s, s', t, r);
    SameMessages2(s, s', t);
    SameAttended2(s, s', t);
    KeepNotified(s, s', t);
    TransferStep(s, s', t, r);
  }

  // ----- Move -----

  function Moved(s: State, l: nat): State
    requires Shape(s) && l < |s.loopq|
  {
    Unlock(Goto(MoveAll(s, l), s.n + l, Idle), l + 1)
  }

  lemma MoveQueues(s: State, l: nat)
    requires Shape(s) && QueueRefs(s) && Queued(s) && l < |s.loopq| && s.local[l] == []
    ensures var s' := MoveAll(s, l); Shape(s') && QueueRefs(s') && Queued(s')
  {
    var s' := MoveAll(s, l);
    forall q | 0 <= q < |s.reqs| ensures InQueues(s', q) { assert InQueues(s, q); }
    forall m, k | 0 <= m < |s'.loopq| && 0 <= k < |s'.loopq[m]| ensures Owns(s', m, s'.loopq[m][k]) {
      assert Owns(s, m, s.loopq[m][k]);
    }
    forall m, k | 0 <= m < |s'.loopq| && 0 <= k < |s'.local[m]| ensures Owns(s', m, s'.local[m][k]) {
      assert m == l ==> Owns(s, m, s.loopq[m][k]);
      assert m != l ==> Owns(s, m, s.local[m][k]);
    }
  }

  lemma MoveHands(s: State, l: nat)
    requires Shape(s) && l < |s.loopq| && Only(s, Moved(s, l), s.n + l) && Hands(s) && History(s) && Thread(s, l) == InMove
    ensures Hands(Moved(s, l)) && History(Moved(s, l))
  {
    var s', t, r := Moved(s, l), s.n + l, |s.reqs|;
    hide NameRef, RoleOf;
    forall q | 0 <= q < |s.reqs| ensures SameHand(s, s', q) { }
    KeepHands(s, s', t, r);
    forall q | 0 <= q < |s.reqs| ensures Past(s', s'.reqs[q]) {
      assert Past(s, s.reqs[q]) && Carried(s, q);
    }
  }

  lemma MoveControl(s: State, l: nat)
    requires l < |s.loopq| && Facts(s, s.n + l) && Thread(s, l) == InMove
    ensures var s', t := Moved(s, l), s.n + l;
      && Only(s, s', t) && RoleOf(s, t, s'.pcs[t]) && NameRef(s', t) && LockChange(s, s', t) && CountChange(s, s', t)
      && LoopsKept(s, s', t) && WorkKept(s, s', t) && PlacesKept(MoveAll(s, l), s')
  {
  }

  lemma StepMove(s: State, l: nat)
    requires Inv(s) && l < |s.loopq| && Thread(s, l) == InMove
    ensures Inv(Moved(s, l))
  {
    hide Roles, Locks, Refs, Queued, Hands, History, Counters, Attended, Messages, Notified, QueueRefs, RoleOf, NameRef,
         Only, Moves, LockChange, CountChange, Handles, Transfer, Facts, CargoFacts, Past, CanWake, Distinct, LoopsKept,
         PlacesKept, WorkKept, Quiet, Moved, MoveAll;
    var t, s', s1 := s.n + l, Moved(s, l), MoveAll(s, l);
    FactsOf(s, t);
    LocalEmpty(s, l);
    MoveControl(s, l);
    MoveQueues(s, l);
    SamePlaces(s1, s');
    MoveHands(s, l);
    ControlStep(s, s', t);
    SameMessages2(s, s', t);
    SameAttended2(s, s', t);
    KeepNotified(s, s', t);
    Assemble(s');
  }

  lemma LocalEmpty(s: State, l: nat)
    requires Inv(s) && l < |s.loopq| && Thread(s, l) == InMove
    ensures s.local[l] == []
  {
  }

  /** The parts of the invariant about roles, locks, names and counters. */
  lemma ControlStep(s: State, s': State, t: nat)
    requires Inv(s) && Only(s, s', t) && RoleOf(s, t, s'.pcs[t]) && NameRef(s', t) && LockChange(s, s', t)
    requires CountChange(s, s', t) && QueueRefs(s')
    ensures Shape(s') && Refs(s') && Roles(s') && Locks(s') && Counters(s')
  {
    hide Roles, Locks, Refs, Queued, Hands, History, Counters, Attended, Messages, Notified, QueueRefs, RoleOf, NameRef;
    KeepRoles(s, s', t);
    KeepLocks(s, s', t);
    KeepNames(s, s', t);
    KeepCounters(s, s', t);
  }

  lemma Assemble(s: State)
    requires Shape(s) && Refs(s) && Roles(s) && Locks(s) && Hands(s) && Queued(s) && History(s) && Counters(s)
    requires Messages(s) && Attended(s) && Notified(s)
    ensures Inv(s)
  {
  }

  // ----- TestCancel -----

  lemma BusyCancelQuiet(s: State, l: nat)
    requires l < |s.loopq| && Facts(s, s.n + l) && Thread(s, l).HasBoth?
    ensures Quiet(s, CloseBoth(s, l), s.n + l)
  {
  }

  lemma UnlinkQueues(s: State, r: nat)
    requires Shape(s) && QueueRefs(s) && Queued(s) && r < |s.reqs|
    ensures var s' := Unlink(s, r); Shape(s') && QueueRefs(s') && Queued(s')
  {
    var s', l := Unlink(s, r), s.reqs[r].loop;
    UnlinkRefs(s, r);
    hide QueueRefs;
    WithoutOf(s.wq, Work(r));
    WithoutOf(s.slow, r);
    WithoutOf(s.loopq[l], r);
    WithoutOf(s.local[l], r);
    hide Distinct, Without, InQueues;
    forall q | 0 <= q < |s.reqs| ensures InQueues(s', q) {
      assert InQueues(s, q);
      UnlinkIn(s, r, q);
    }
  }

  lemma UnlinkIn(s: State, r: nat, q: nat)
    requires Shape(s) && Queued(s) && r < |s.reqs| && q < |s.reqs|
    ensures Shape(Unlink(s, r)) && InQueues(Unlink(s, r), q)
  {
    var l := s.reqs[r].loop;
    assert InQueues(s, q);
    WithoutOf(s.wq, Work(r));
    WithoutOf(s.slow, r);
    WithoutOf(s.loopq[l], r);
    WithoutOf(s.local[l], r);
    hide Queued, Distinct, Without;
  }

  lemma UnlinkRefs(s: State, r: nat)
    requires Shape(s) && QueueRefs(s) && Queued(s) && r < |s.reqs|
    ensures QueueRefs(Unlink(s, r))
  {
    var s', l := Unlink(s, r), s.reqs[r].loop;
    WithoutIn(s.wq, Work(r));
    WithoutIn(s.slow, r);
    WithoutIn(s.loopq[l], r);
    WithoutIn(s.local[l], r);
    hide Queued, Distinct, Without;
    forall k | 0 <= k < |s'.wq| && s'.wq[k].Work? ensures s'.wq[k].r < |s.reqs| {
      var j :| 0 <= j < |s.wq| && s.wq[j] == s'.wq[k];
    }
    forall k | 0 <= k < |s'.slow| ensures s'.slow[k] < |s.reqs| {
      var j :| 0 <= j < |s.slow| && s.slow[j] == s'.slow[k];
    }
    forall m, k | 0 <= m < |s'.loopq| && 0 <= k < |s'.loopq[m]| ensures Owns(s', m, s'.loopq[m][k]) {
      var j :| 0 <= j < |s.loopq[m]| && s.loopq[m][j] == s'.loopq[m][k];
      assert Owns(s, m, s.loopq[m][j]);
    }
    forall m, k | 0 <= m < |s'.loopq| && 0 <= k < |s'.local[m]| ensures Owns(s', m, s'.local[m][k]) {
      var j :| 0 <= j < |s.local[m]| && s.local[m][j] == s'.local[m][k];
      assert Owns(s, m, s.local[m][j]);
    }
  }

  /** A request that can be cancelled is in a queue, so no thread has it. */
  lemma CancellableFree(s: State, r: nat)
    requires Inv(s) && r < |s.reqs| && Cancellable(s, r)
    ensures Carrier(s, r).None? && s.reqs[r].results == []
    ensures s.reqs[r].ran == 0 && s.reqs[r].work != Null
  {
    assert InQueues(s, r) && Past(s, s.reqs[r]);
  }

  function Taken(s: State, l: nat, r: nat): State
    requires Shape(s) && l < |s.loopq| && Owns(s, l, r)
  {
    Unlock(Unlock(Goto(Unlink(s, r), s.n + l, WantGive(r)), l + 1), 0)
  }

  lemma CancelMoves(s: State, l: nat, r: nat)
    requires l < |s.loopq| && Facts(s, s.n + l) && Thread(s, l) == HasBoth(r) && r < |s.reqs|
    ensures Owns(s, l, r)
    ensures var s', t := Taken(s, l, r), s.n + l;
      Moves(s, s', t) && LoopsKept(s, s', t)
  {
    WithoutShrinks(s.loopq[l], r);
    WithoutShrinks(s.local[l], r);
    hide Without;
  }

  lemma CancelTransfer(s: State, l: nat, r: nat)
    requires l < |s.loopq| && Facts(s, s.n + l) && Thread(s, l) == HasBoth(r) && Owns(s, l, r) && Carrier(s, r).None?
    requires s.reqs[r].results == [] && s.reqs[r].ran == 0
    ensures var s', t := Taken(s, l, r), s.n + l;
      Transfer(s, s', t, r) && LoopsKept(s, s', t) && PlacesKept(Unlink(s, r), s')
  {
    CancelMoves(s, l, r);
    CancelPlaces(s, l, r);
    CancelHands(s, l, r);
    hide Taken, Unlink, Moves, LoopsKept, Facts, PlacesKept, Transfer, Past, Carrier, PlaceOf, Cargo, Owns, Shape;
    HandedTransfer(s, Taken(s, l, r), s.n + l, r);
  }

  lemma CancelPlaces(s: State, l: nat, r: nat)
    requires Shape(s) && l < |s.loopq| && Owns(s, l, r)
    ensures var s' := Taken(s, l, r);
      Shape(s') && PlacesKept(Unlink(s, r), s') && |s'.reqs| == |s.reqs| && |s'.pcs| == |s.pcs|
  {
    hide Without;
  }

  lemma CancelHands(s: State, l: nat, r: nat)
    requires Shape(s) && l < |s.loopq| && Thread(s, l) == HasBoth(r) && Owns(s, l, r)
    requires s.reqs[r].results == [] && s.reqs[r].ran == 0
    requires Shape(Taken(s, l, r))
    ensures var s', t := Taken(s, l, r), s.n + l;
      && |s'.reqs| == |s.reqs| && |s'.pcs| == |s.pcs| && Cargo(s.pcs[t]).None? && Cargo(s'.pcs[t]) == Some(r)
      && s'.reqs == s.reqs[r := s'.reqs[r]] && s'.reqs[r].at == PlaceOf(s'.pcs[t], t) && Carrier(s', r) == Some(t)
      && Past(s', s'.reqs[r])
  {
    hide Without;
  }

  /** A thread takes a request that nobody has. */
  lemma HandedTransfer(s: State, s': State, t: nat, r: nat)
    requires Moves(s, s', t) && t < |s.pcs| && t < |s'.pcs| && Cargo(s.pcs[t]).None? && Cargo(s'.pcs[t]) == Some(r)
    requires r < |s.reqs| == |s'.reqs| && Carrier(s, r).None? && Carrier(s', r) == Some(t)
    requires s'.reqs == s.reqs[r := s'.reqs[r]] && s'.reqs[r].at == PlaceOf(s'.pcs[t], t)
    requires Shape(s') && Past(s', s'.reqs[r])
    ensures Transfer(s, s', t, r)
  {
    MovesOnly(s, s', t);
    SameHands(s, s', r);
    hide Moves, Only, Past, SameHand, Shape;
  }

  lemma CancelWakeups(s: State, l: nat, r: nat)
    requires Shape(s) && l < |s.loopq| && Thread(s, l) == HasBoth(r) && Owns(s, l, r)
    requires Only(s, Taken(s, l, r), s.n + l)
    requires Distinct(s.wq) && Distinct(s.slow) && Attended(s) && Messages(s)
    ensures Attended(Taken(s, l, r)) && Messages(Taken(s, l, r))
  {
    var s' := Taken(s, l, r);
    CancelAttended(s, l, r);
    WithoutOf(s.wq, Work(r));
    WithoutOf(s.slow, r);
    if s'.slow != [] { assert s'.slow[0] in s.slow; }
  }

  lemma CancelAttended(s: State, l: nat, r: nat)
    requires Shape(s) && l < |s.loopq| && Thread(s, l) == HasBoth(r) && Owns(s, l, r)
    requires Only(s, Taken(s, l, r), s.n + l)
    requires Distinct(s.wq) && Attended(s)
    ensures Attended(Taken(s, l, r))
  {
    var s' := Taken(s, l, r);
    WithoutOf(s.wq, Work(r));
    if SomeAlive(s') && !MustWait(s') {
      var i :| 0 <= i < s.n && s'.pcs[i] != Exited;
      assert s.pcs[i] != Exited;
      if Work(r) in s.wq { assert s.wq != [] && s.wq != [RunSlow]; }
      var j :| 0 <= j < s.n && Awake(s.pcs[j]);
      assert Awake(s'.pcs[j]);
    }
  }

  lemma StepTestCancel(s: State, l: nat, r: nat)
    requires Inv(s) && l < |s.loopq| && Thread(s, l) == HasBoth(r) && Owns(s, l, r)
    ensures Inv(TryCancel(s, l, r))
  {
    hide Roles, Locks, Refs, Queued, Hands, History, Counters, Attended, Messages, Notified, QueueRefs, RoleOf, NameRef,
         Only, Moves, LockChange, CountChange, Handles, Transfer, Facts, CargoFacts, Past, CanWake, Distinct, LoopsKept,
         PlacesKept, WorkKept, Quiet, Linked, Cancellable, Unlink, Taken, CloseBoth;
    var t := s.n + l;
    FactsOf(s, t);
    TryCancelIs(s, l, r);
    if !Cancellable(s, r) {
      BusyCancelQuiet(s, l);
      QuietStep(s, CloseBoth(s, l), t);
    } else {
      var s', s1 := Taken(s, l, r), Unlink(s, r);
      CancellableFree(s, r);
      CancelTransfer(s, l, r);
      UnlinkQueues(s, r);
      SamePlaces(s1, s');
      QueuesDistinct(s);
      TransferOnly(s, s', t, r);
      CancelWakeups(s, l, r);
      KeepNotified(s, s', t);
      TransferStep(s, s', t, r);
    }
  }

  function CloseBoth(s: State, l: nat): State
    requires Shape(s) && l < |s.loopq|
  {
    Unlock(Unlock(Goto(s, s.n + l, Idle), l + 1), 0)
  }

  lemma TryCancelIs(s: State, l: nat, r: nat)
    requires Shape(s) && l < |s.loopq| && Owns(s, l, r)
    ensures TryCancel(s, l, r) == if Cancellable(s, r) then Taken(s, l, r) else CloseBoth(s, l)
  {
  }

  lemma QueuesDistinct(s: State)
    requires Inv(s)
    ensures Distinct(s.wq) && Distinct(s.slow)
  {
  }

  // ----- a worker's turn -----

  lemma SignalOf(s: State, wake: nat)
    requires Shape(s) && CanWake(s, wake)
    ensures var s1 := Signal(s, wake);
      && Shape(s1) && s1 == s.(pcs := s1.pcs) && |s1.pcs| == |s.pcs|
      && (forall u :: 0 <= u < |s.pcs| ==> s1.pcs[u] == s.pcs[u] || (u < s.n && s.pcs[u] == Waiting && s1.pcs[u] == Woken))
      && (SomeWaiting(s) ==> wake < s.n && s1.pcs[wake] == Woken)
  {
  }

  function Slept(s: State, i: nat): State
    requires Shape(s) && i < s.n
  {
    Unlock(Goto(s, i, Waiting), 0).(idle := s.idle + 1)
  }

  lemma TurnWait(s: State, i: nat)
    requires Inv(s) && i < s.n && s.pcs[i] == Top && MustWait(s)
    ensures Inv(Slept(s, i))
  {
    hide Roles, Locks, Refs, Queued, Hands, History, Counters, Attended, Messages, Notified, QueueRefs, RoleOf, NameRef,
         Only, Moves, LockChange, CountChange, Handles, Transfer, Facts, CargoFacts, Past, CanWake, Distinct, LoopsKept,
         PlacesKept, WorkKept, Quiet, Slept, MustWait;
    FactsOf(s, i);
    WaitQuiet(s, i);
    QuietStep(s, Slept(s, i), i);
  }

  function Left(s: State, i: nat, wake: nat): State
    requires Shape(s) && CanWake(s, wake) && i < s.n
  {
    Unlock(Goto(Signal(s, wake), i, Exited), 0)
  }

  lemma ExitControl(s: State, i: nat, wake: nat)
    requires Facts(s, i) && i < s.n && s.pcs[i] == Top && CanWake(s, wake)
    ensures var s' := Left(s, i, wake);
      && Only(s, s', i) && SameData(s, s') && s'.reqs == s.reqs && RoleOf(s, i, s'.pcs[i]) && NameRef(s', i)
      && LockChange(s, s', i) && CountChange(s, s', i) && s'.pcs[i] == Exited && LoopsKept(s, s', i)
  {
  }

  lemma ExitWakeups(s: State, i: nat, wake: nat)
    requires Shape(s) && i < s.n && s.pcs[i] == Top && CanWake(s, wake) && s.wq != [] && s.wq[0] == Exit && Messages(s)
    ensures var s' := Left(s, i, wake); Shape(s') && Messages(s') && Attended(s')
  {
    var s' := Left(s, i, wake);
    if SomeAlive(s') {
      var j :| 0 <= j < s.n && s'.pcs[j] != Exited;
      assert s.pcs[j] == Waiting || Awake(s'.pcs[j]);
      if SomeWaiting(s) { assert Awake(s'.pcs[wake]); }
    }
  }

  lemma TurnExit(s: State, i: nat, wake: nat)
    requires Inv(s) && i < s.n && s.pcs[i] == Top && CanWake(s, wake) && s.wq != [] && s.wq[0] == Exit
    ensures Inv(Left(s, i, wake))
  {
    hide Roles, Locks, Refs, Queued, Hands, History, Counters, Attended, Messages, Notified, QueueRefs, RoleOf, NameRef,
         Only, Moves, LockChange, CountChange, Handles, Transfer, Facts, CargoFacts, Past, CanWake, Distinct, LoopsKept,
         PlacesKept, WorkKept, Quiet, Left, SameData;
    var s' := Left(s, i, wake);
    FactsOf(s, i);
    ExitControl(s, i, wake);
    ExitWakeups(s, i, wake);
    SameQueues(s, s', i);
    SameCargo(s, s', i);
    RefsQueue(s');
    ControlStep(s, s', i);
    KeepNotified(s, s', i);
    Assemble(s');
  }

  lemma RefsQueue(s: State)
    requires Shape(s) && Refs(s)
    ensures QueueRefs(s)
  {
  }

  /** Thread `t` changes the work queue's messages only. */
  ghost predicate Posting(s: State, s': State, t: nat) {
    && Only(s, s', t) && RoleOf(s, t, s'.pcs[t]) && NameRef(s', t) && LockChange(s, s', t) && CountChange(s, s', t)
    && s'.reqs == s.reqs && s'.slow == s.slow && s'.loopq == s.loopq && s'.local == s.local && s'.async == s.async
    && Cargo(s'.pcs[t]).None? && Cargo(s.pcs[t]).None?
    && !Moving(s.pcs[t]) && !Moving(s'.pcs[t])
    && Distinct(s'.wq) && forall r: nat :: Work(r) in s'.wq <==> Work(r) in s.wq
  }

  lemma PostingQueues(s: State, s': State, t: nat)
    requires Posting(s, s', t) && QueueRefs(s) && Queued(s)
    ensures QueueRefs(s') && Queued(s')
  {
    forall q | 0 <= q < |s.reqs| ensures InQueues(s', q) { assert InQueues(s, q); }
    forall k | 0 <= k < |s'.wq| && s'.wq[k].Work? ensures s'.wq[k].r < |s.reqs| {
      assert s'.wq[k] in s'.wq && Work(s'.wq[k].r) in s.wq;
      var j :| 0 <= j < |s.wq| && s.wq[j] == s'.wq[k];
    }
    assert forall m, k :: 0 <= m < |s.loopq| && 0 <= k < |s.loopq[m]| ==>
      Owns(s, m, s.loopq[m][k]) ==> Owns(s', m, s'.loopq[m][k]);
    assert forall m, k :: 0 <= m < |s.loopq| && 0 <= k < |s.local[m]| ==>
      Owns(s, m, s.local[m][k]) ==> Owns(s', m, s'.local[m][k]);
  }

  lemma PostingStep(s: State, s': State, t: nat)
    requires Inv(s) && Posting(s, s', t) && Messages(s') && Attended(s')
    ensures Inv(s')
  {
    hide Roles, Locks, Refs, Queued, Hands, History, Counters, Attended, Messages, Notified, QueueRefs, RoleOf, NameRef,
         Only, Moves, LockChange, CountChange, Handles, Transfer, Facts, CargoFacts, Past, CanWake, Distinct, LoopsKept,
         PlacesKept, WorkKept, Quiet, Moving;
    RefsQueue(s);
    PostingQueues(s, s', t);
    PostingLoops(s, s', t);
    SameCargo2(s, s', t);
    ControlStep(s, s', t);
    KeepNotified(s, s', t);
    Assemble(s');
  }

  lemma PostingLoops(s: State, s': State, t: nat)
    requires Posting(s, s', t)
    ensures LoopsKept(s, s', t)
  {
  }

  lemma SameCargo2(s: State, s': State, t: nat)
    requires Only(s, s', t) && s'.reqs == s.reqs && Hands(s) && History(s)
    requires Cargo(s'.pcs[t]).None? && Cargo(s.pcs[t]).None?
    ensures Hands(s') && History(s')
  {
    var r := |s.reqs|;
    forall q | 0 <= q < |s.reqs| && q != r ensures SameHand(s, s', q) { }
    KeepHands(s, s', t, r);
    KeepHistory(s, s', t, r);
  }

  lemma RotatePosting(s: State, i: nat)
    requires Facts(s, i) && i < s.n && s.pcs[i] == Top && s.wq != [] && s.wq[0] == RunSlow && Distinct(s.wq)
    ensures Posting(s, s.(wq := s.wq[1..] + [RunSlow]), i) && Posting(s, s.(wq := s.wq[1..]), i)
  {
    TailOf(s.wq);
    AppendOf(s.wq[1..], RunSlow);
  }

  lemma RotateMessages(s: State, i: nat)
    requires Shape(s) && s.wq != [] && s.wq[0] == RunSlow && Distinct(s.wq) && Messages(s)
    ensures Messages(s.(wq := s.wq[1..] + [RunSlow]))
    ensures s.slow == [] ==> Messages(s.(wq := s.wq[1..]))
  {
    TailOf(s.wq);
  }

  lemma TurnMessage(s: State, i: nat, s': State)
    requires Inv(s) && i < s.n && s.pcs[i] == Top && s.wq != [] && s.wq[0] == RunSlow
    requires s' == s.(wq := s.wq[1..] + [RunSlow]) || (s.slow == [] && s' == s.(wq := s.wq[1..]))
    ensures Inv(s')
  {
    hide Roles, Locks, Refs, Queued, Hands, History, Counters, Attended, Messages, Notified, QueueRefs, RoleOf, NameRef,
         Only, Moves, LockChange, CountChange, Handles, Transfer, Facts, CargoFacts, Past, CanWake, Distinct, LoopsKept,
         PlacesKept, WorkKept, Quiet, Posting;
    FactsOf(s, i);
    QueuesDistinct(s);
    RotatePosting(s, i);
    RotateMessages(s, i);
    Busy(s', i);
    PostingStep(s, s', i);
  }

  function TookWork(s: State, i: nat, r: nat): State
    requires Shape(s) && i < s.n && r < |s.reqs| && s.wq != []
  {
    Unlock(Goto(Put(s, r, WithWorker(i)), i, Running(r, false)), 0).(wq := s.wq[1..])
  }

  lemma TakeMoves(s: State, i: nat, r: nat)
    requires Facts(s, i) && i < s.n && s.pcs[i] == Top && s.wq != [] && r < |s.reqs|
    ensures var s' := TookWork(s, i, r);
      Moves(s, s', i) && LoopsKept(s, s', i)
  {
  }

  lemma TakeTransfer(s: State, i: nat, r: nat)
    requires Facts(s, i) && i < s.n && s.pcs[i] == Top && s.wq != [] && s.wq[0] == Work(r)
    requires r < |s.reqs| && s.reqs[r].at == InWork && Past(s, s.reqs[r])
    ensures var s' := TookWork(s, i, r);
      Transfer(s, s', i, r) && LoopsKept(s, s', i) && Awake(s'.pcs[i])
  {
    TakeMoves(s, i, r);
    MovesOnly(s, TookWork(s, i, r), i);
    hide Moves, LoopsKept, Only, Facts;
  }

  lemma TakeQueues(s: State, i: nat, r: nat)
    requires Shape(s) && i < s.n && r < |s.reqs| && s.wq != [] && s.wq[0] == Work(r) && QueueRefs(s) && Queued(s)
    ensures s.reqs[r].at == InWork
    ensures var s' := TookWork(s, i, r); Shape(s') && QueueRefs(s') && Queued(s')
  {
    var s' := TookWork(s, i, r);
    assert InQueues(s, r);
    TailOf(s.wq);
    forall q | 0 <= q < |s.reqs| ensures InQueues(s', q) { assert InQueues(s, q); }
    assert forall m, k :: 0 <= m < |s.loopq| && 0 <= k < |s.loopq[m]| ==>
      Owns(s, m, s.loopq[m][k]) ==> Owns(s', m, s'.loopq[m][k]);
    assert forall m, k :: 0 <= m < |s.loopq| && 0 <= k < |s.local[m]| ==>
      Owns(s, m, s.local[m][k]) ==> Owns(s', m, s'.local[m][k]);
  }

  lemma TakeMessages(s: State, i: nat, r: nat)
    requires Shape(s) && i < s.n && r < |s.reqs| && s.wq != [] && s.wq[0] == Work(r) && Distinct(s.wq) && Messages(s)
    ensures var s' := TookWork(s, i, r); Shape(s') && Messages(s')
  {
    TailOf(s.wq);
  }

  lemma TurnWork(s: State, i: nat, r: nat)
    requires Inv(s) && i < s.n && s.pcs[i] == Top && s.wq != [] && s.wq[0] == Work(r) && r < |s.reqs|
    ensures Inv(TookWork(s, i, r))
  {
    hide Roles, Locks, Refs, Queued, Hands, History, Counters, Attended, Messages, Notified, QueueRefs, RoleOf, NameRef,
         Only, Moves, LockChange, CountChange, Handles, Transfer, Facts, CargoFacts, Past, CanWake, Distinct, LoopsKept,
         PlacesKept, WorkKept, Quiet, TookWork;
    var s' := TookWork(s, i, r);
    FactsOf(s, i);
    PastOf(s, r);
    QueuesDistinct(s);
    TakeQueues(s, i, r);
    TakeTransfer(s, i, r);
    TakeMessages(s, i, r);
    TransferOnly(s, s', i, r);
    Busy(s', i);
    KeepNotified(s, s', i);
    TransferStep(s, s', i, r);
  }

  lemma SlowTransfer(s: State, i: nat, wake: nat)
    requires Facts(s, i) && i < s.n && s.pcs[i] == Top && s.wq != [] && CanWake(s, wake) && s.slow != []
    requires s.slowRunning < Threshold(s.n)
    requires var r := s.slow[0]; r < |s.reqs| && s.reqs[r].at == InSlow && Past(s, s.reqs[r])
    ensures var s' := TakeSlow(s, i, wake);
      Transfer(s, s', i, s.slow[0]) && LoopsKept(s, s', i) && Awake(s'.pcs[i])
  {
    SlowMoves(s, i, wake);
    var s', r := TakeSlow(s, i, wake), s.slow[0];
    hide TakeSlow, Moves, LoopsKept, Facts, CanWake;
    MovesOnly(s, s', i);
    HandedTransfer(s, s', i, r);
  }

  /** The queues and the requests behind a worker that has taken slow work. */
  predicate TookSlow(s: State, s': State, i: nat)
    requires s.wq != [] && s.slow != [] && s.slow[0] < |s.reqs|
  {
    && s'.wq == s.wq[1..] + (if |s.slow| > 1 then [RunSlow] else []) && s'.slow == s.slow[1..]
    && s'.loopq == s.loopq && s'.local == s.local
    && s'.reqs == s.reqs[s.slow[0] := s.reqs[s.slow[0]].(at := WithWorker(i))]
  }

  lemma SlowFields(s: State, i: nat, wake: nat)
    requires Shape(s) && i < s.n && s.pcs[i] == Top && s.wq != [] && CanWake(s, wake)
    requires s.slow != [] && s.slow[0] < |s.reqs|
    ensures var s' := TakeSlow(s, i, wake);
      && Only(s, s', i) && TookSlow(s, s', i) && s'.pcs[i] == Running(s.slow[0], true)
      && s'.locks == s.locks[0 := None] && s'.async == s.async && s'.idle == s.idle && s'.slowRunning == s.slowRunning + 1
  {
    SignalOf(s, wake);
    hide Signal, CanWake;
  }

  lemma SlowMoves(s: State, i: nat, wake: nat)
    requires Facts(s, i) && i < s.n && s.pcs[i] == Top && s.wq != [] && CanWake(s, wake) && s.slow != []
    requires s.slowRunning < Threshold(s.n) && s.slow[0] < |s.reqs|
    ensures var s', r := TakeSlow(s, i, wake), s.slow[0];
      && Moves(s, s', i) && LoopsKept(s, s', i) && s'.pcs[i] == Running(r, true) && s'.reqs == s.reqs[r := s.reqs[r].(at := WithWorker(i))]
  {
    SlowFields(s, i, wake);
    hide TakeSlow, CanWake;
  }

  lemma SlowQueues(s: State, s': State, i: nat)
    requires Shape(s) && Shape(s') && s.wq != [] && s.wq[0] == RunSlow && s.slow != [] && s.slow[0] < |s.reqs|
    requires TookSlow(s, s', i) && QueueRefs(s) && Queued(s)
    ensures s.reqs[s.slow[0]].at == InSlow
    ensures QueueRefs(s') && Queued(s')
  {
    SlowRefs(s, s', i);
    hide QueueRefs;
    assert InQueues(s, s.slow[0]);
    TailOf(s.wq);
    TailOf(s.slow);
    AppendOf(s.wq[1..], RunSlow);
    assert s.wq[1..] + [] == s.wq[1..];
    hide Distinct;
    forall q | 0 <= q < |s.reqs| ensures InQueues(s', q) { assert InQueues(s, q); }
  }

  lemma SlowRefs(s: State, s': State, i: nat)
    requires Shape(s) && Shape(s') && s.wq != [] && s.slow != [] && s.slow[0] < |s.reqs|
    requires TookSlow(s, s', i) && QueueRefs(s)
    ensures QueueRefs(s')
  {
    assert forall m, k :: 0 <= m < |s.loopq| && 0 <= k < |s.loopq[m]| ==>
      Owns(s, m, s.loopq[m][k]) ==> Owns(s', m, s'.loopq[m][k]);
    assert forall m, k :: 0 <= m < |s.loopq| && 0 <= k < |s.local[m]| ==>
      Owns(s, m, s.local[m][k]) ==> Owns(s', m, s'.local[m][k]);
  }

  lemma SlowMessages(s: State, s': State, i: nat)
    requires Only(s, s', i) && i < s.n && s'.pcs[i] != Exited && s.wq != [] && s.wq[0] == RunSlow
    requires s.slow != [] && s.slow[0] < |s.reqs| && TookSlow(s, s', i)
    requires Distinct(s.wq) && Messages(s)
    ensures Messages(s')
  {
    TailOf(s.wq);
    hide Distinct;
    assert |s.slow| > 1 ==> RunSlow in s'.wq;
  }

  lemma SlowShape(s: State, s': State, i: nat)
    requires Only(s, s', i)
    ensures Shape(s')
  {
  }

  lemma TurnSlow(s: State, i: nat, wake: nat)
    requires Inv(s) && i < s.n && s.pcs[i] == Top && CanWake(s, wake) && s.wq != [] && s.wq[0] == RunSlow
    requires s.slowRunning < Threshold(s.n) && s.slow != [] && s.slow[0] < |s.reqs|
    ensures Inv(TakeSlow(s, i, wake))
  {
    hide Roles, Locks, Refs, Queued, Hands, History, Counters, Attended, Messages, Notified, QueueRefs, RoleOf, NameRef,
         Only, Moves, LockChange, CountChange, Handles, Transfer, Facts, CargoFacts, Past, CanWake, Distinct, LoopsKept,
         PlacesKept, WorkKept, Quiet, TakeSlow, TookSlow;
    var s', r := TakeSlow(s, i, wake), s.slow[0];
    FactsOf(s, i);
    PastOf(s, r);
    QueuesDistinct(s);
    SlowFields(s, i, wake);
    SlowShape(s, s', i);
    SlowQueues(s, s', i);
    SlowTransfer(s, i, wake);
    SlowMessages(s, s', i);
    TransferOnly(s, s', i, r);
    Busy(s', i);
    KeepNotified(s, s', i);
    TransferStep(s, s', i, r);
  }

  // ----- post -----

  /** If nobody has been woken, nobody was waiting. */
  lemma EnqueueAttended(s: State, s': State, t: nat, item: Item, wake: nat)
    requires Shape(s) && CanWake(s, wake) && Counters(s) && s.n <= t < |s.pcs|
    requires Shape(s') && s'.n == s.n && |s'.pcs| == |s.pcs|
    requires forall i :: 0 <= i < s.n ==> s'.pcs[i] == Enqueue(s, item, wake).pcs[i]
    ensures Attended(s')
  {
    if SomeAlive(s') {
      var i :| 0 <= i < s.n && s'.pcs[i] != Exited;
      if !Awake(s'.pcs[i]) {
        assert s.pcs[i] == Waiting;
        SumAtLeast(s.pcs, i, Asleep);
        assert s.idle > 0 && SomeWaiting(s);
        assert Awake(s'.pcs[wake]);
      }
    }
  }

  /** A thread that has posted gives up `mutex`, and only that. */
  lemma GivesMutex(s: State, s': State, t: nat)
    requires Only(s, s', t) && Facts(s, t)
    requires (s.pcs[t].InPost? && s'.pcs[t] == Idle) || (s.pcs[t] == InExit && s'.pcs[t] == Joining)
    requires s'.locks == s.locks[0 := None] && s'.slowRunning == s.slowRunning && s'.idle == s.idle
    ensures LockChange(s, s', t) && CountChange(s, s', t)
  {
    HoldsMutex(s, s', t);
    hide Holds, Only;
  }

  lemma HoldsMutex(s: State, s': State, t: nat)
    requires Shape(s) && Shape(s') && |s'.pcs| == |s.pcs| && t < |s.pcs|
    requires (s.pcs[t].InPost? && s'.pcs[t] == Idle) || (s.pcs[t] == InExit && s'.pcs[t] == Joining)
    ensures forall k: nat :: Holds(s, t, k) <==> k == 0
    ensures forall k: nat :: !Holds(s', t, k)
  {
  }

  function PostedExit(s: State, wake: nat): State
    requires Shape(s) && CanWake(s, wake)
  {
    Unlock(Goto(Enqueue(s, Exit, wake), |s.pcs| - 1, Joining), 0)
  }

  lemma ExitFields(s: State, wake: nat)
    requires Shape(s) && s.pcs[|s.pcs| - 1] == InExit && CanWake(s, wake)
    ensures var s', t := PostedExit(s, wake), |s.pcs| - 1;
      && Only(s, s', t) && s'.pcs[t] == Joining && s'.locks == s.locks[0 := None] && s'.wq == s.wq + [Exit]
      && s'.reqs == s.reqs && s'.slow == s.slow && s'.loopq == s.loopq && s'.local == s.local && s'.async == s.async
      && s'.idle == s.idle && s'.slowRunning == s.slowRunning
  {
    SignalOf(s, wake);
    hide Signal, CanWake;
  }

  lemma ExitPosting(s: State, wake: nat)
    requires Shape(s) && Facts(s, |s.pcs| - 1) && s.pcs[|s.pcs| - 1] == InExit && CanWake(s, wake)
    requires Distinct(s.wq) && Exit !in s.wq
    ensures Posting(s, PostedExit(s, wake), |s.pcs| - 1)
  {
    ExitFields(s, wake);
    hide PostedExit, CanWake, Distinct;
    AppendOf(s.wq, Exit);
    GivesMutex(s, PostedExit(s, wake), |s.pcs| - 1);
    hide LockChange, CountChange, Facts;
  }

  lemma ExitMessages(s: State, wake: nat)
    requires Shape(s) && s.pcs[|s.pcs| - 1] == InExit && CanWake(s, wake) && Messages(s)
    ensures var s' := PostedExit(s, wake); Shape(s') && Messages(s')
  {
  }

  lemma StepPostExit(s: State, wake: nat)
    requires Inv(s) && s.pcs[|s.pcs| - 1] == InExit && CanWake(s, wake)
    ensures Inv(PostedExit(s, wake))
  {
    hide Roles, Locks, Refs, Queued, Hands, History, Counters, Attended, Messages, Notified, QueueRefs, RoleOf, NameRef,
         Only, Moves, LockChange, CountChange, Handles, Transfer, Facts, CargoFacts, Past, CanWake, Distinct, LoopsKept,
         PlacesKept, WorkKept, Quiet, Posting, PostedExit;
    var s', t := PostedExit(s, wake), |s.pcs| - 1;
    FactsOf(s, t);
    QueuesDistinct(s);
    NoExit(s);
    ExitPosting(s, wake);
    ExitMessages(s, wake);
    ExitAttended(s, wake);
    PostingStep(s, s', t);
  }

  lemma ExitAttended(s: State, wake: nat)
    requires Shape(s) && CanWake(s, wake) && Counters(s)
    ensures var s' := PostedExit(s, wake); Shape(s') && Attended(s')
  {
    EnqueueAttended(s, PostedExit(s, wake), |s.pcs| - 1, Exit, wake);
  }

  lemma NoExit(s: State)
    requires Inv(s) && s.pcs[|s.pcs| - 1] == InExit
    ensures Exit !in s.wq
  {
  }

  function Posted(s: State, l: nat, r: nat, wake: nat): State
    requires Shape(s) && l < |s.loopq| && CanWake(s, wake) && r < |s.reqs|
  {
    Unlock(Goto(PostRequest(s, r, wake), s.n + l, Idle), 0)
  }

  lemma PostFields(s: State, l: nat, r: nat, wake: nat)
    requires Shape(s) && l < |s.loopq| && Thread(s, l) == InPost(r) && r < |s.reqs| && CanWake(s, wake)
    ensures var s', t := Posted(s, l, r, wake), s.n + l;
      && Only(s, s', t) && s'.pcs[t] == Idle && s'.locks == s.locks[0 := None] && PostedData(s, s', r)
      && s'.async == s.async && s'.idle == s.idle && s'.slowRunning == s.slowRunning
  {
    PostQueueIs(s, r, wake);
    SignalOf(s, wake);
    hide PostRequest, Signal, CanWake;
  }

  lemma PostMoves(s: State, s': State, t: nat, r: nat)
    requires s.n <= t < |s.pcs| - 1 && Only(s, s', t) && Facts(s, t) && s.pcs[t] == InPost(r) && s'.pcs[t] == Idle
    requires s'.locks == s.locks[0 := None] && s'.slowRunning == s.slowRunning && s'.idle == s.idle && s'.async == s.async
    requires r < |s.reqs| && PostedData(s, s', r)
    ensures Moves(s, s', t) && LoopsKept(s, s', t)
  {
    GivesMutex(s, s', t);
    hide LockChange, CountChange;
  }

  /** What `post` does to the queues. */
  predicate PostedData(s: State, s': State, r: nat)
    requires r < |s.reqs|
  {
    var slow := s.reqs[r].kind == SlowIo;
    && s'.loopq == s.loopq && s'.local == s.local
    && s'.reqs == s.reqs[r := s.reqs[r].(at := if slow then InSlow else InWork)]
    && s'.slow == (if slow then s.slow + [r] else s.slow)
    && s'.wq == s.wq + (if !slow then [Work(r)] else if RunSlow in s.wq then [] else [RunSlow])
  }

  lemma PostQueueIs(s: State, r: nat, wake: nat)
    requires Shape(s) && CanWake(s, wake) && r < |s.reqs|
    ensures var s', slow := PostRequest(s, r, wake), s.reqs[r].kind == SlowIo;
      && s'.wq == s.wq + (if !slow then [Work(r)] else if RunSlow in s.wq then [] else [RunSlow])
      && s'.slow == (if slow then s.slow + [r] else s.slow)
      && s'.reqs == s.reqs[r := s.reqs[r].(at := if slow then InSlow else InWork)]
      && s'.loopq == s.loopq && s'.local == s.local && s'.async == s.async && s'.slowRunning == s.slowRunning
      && s'.idle == s.idle && s'.locks == s.locks && s'.n == s.n
      && (s'.pcs == s.pcs || s'.pcs == Signal(s, wake).pcs)
  {
    assert s.wq + [] == s.wq;
  }

  lemma PostTransfer(s: State, s': State, t: nat, r: nat)
    requires Moves(s, s', t) && CargoFacts(s, t, r) && s.pcs[t] == InPost(r) && t < |s'.pcs| && s'.pcs[t] == Idle
    requires Shape(s') && PostedData(s, s', r)
    ensures Transfer(s, s', t, r)
  {
    assert Past(s', s'.reqs[r]) && Carrier(s', r).None?;
    hide Moves, CargoFacts, Transfer, Past, Carrier, Shape;
    PutDownTransfer(s, s', t, r);
  }

  lemma PostQueues(s: State, s': State, r: nat)
    requires Shape(s) && Shape(s') && QueueRefs(s) && Queued(s) && r < |s.reqs| && Carrier(s, r).Some?
    requires PostedData(s, s', r)
    ensures QueueRefs(s') && Queued(s')
  {
    PostRefs(s, s', r);
    hide QueueRefs;
    assert InQueues(s, r);
    AppendOf(s.slow, r);
    AppendOf(s.wq, Work(r));
    if RunSlow !in s.wq { AppendOf(s.wq, RunSlow); }
    assert s.wq + [] == s.wq;
    hide Distinct;
    forall q | 0 <= q < |s.reqs| ensures InQueues(s', q) { assert InQueues(s, q); }
  }

  lemma PostRefs(s: State, s': State, r: nat)
    requires Shape(s) && Shape(s') && QueueRefs(s) && r < |s.reqs| && PostedData(s, s', r)
    ensures QueueRefs(s')
  {
    assert forall m, k :: 0 <= m < |s.loopq| && 0 <= k < |s.loopq[m]| ==>
      Owns(s, m, s.loopq[m][k]) ==> Owns(s', m, s'.loopq[m][k]);
    assert forall m, k :: 0 <= m < |s.loopq| && 0 <= k < |s.local[m]| ==>
      Owns(s, m, s.local[m][k]) ==> Owns(s', m, s'.local[m][k]);
  }

  lemma PostMessages(s: State, s': State, t: nat, r: nat)
    requires Only(s, s', t) && s.n <= t < |s.pcs| - 1 && r < |s.reqs| && Messages(s) && PostedData(s, s', r)
    ensures Messages(s')
  {
    assert s.wq + [] == s.wq;
    assert RunSlow in s.wq ==> RunSlow in s'.wq;
  }

  lemma PostAttended(s: State, l: nat, r: nat, wake: nat)
    requires Shape(s) && l < |s.loopq| && CanWake(s, wake) && r < |s.reqs| && Attended(s) && Counters(s)
    requires Only(s, Posted(s, l, r, wake), s.n + l)
    ensures Attended(Posted(s, l, r, wake))
  {
    hide Attended, Counters, Only, CanWake, Posted, Enqueue;
    var s', slow := Posted(s, l, r, wake), s.reqs[r].kind == SlowIo;
    PostedWakes(s, l, r, wake);
    if slow && RunSlow in s.wq {
      SameAttended3(s, s', s.n + l);
    } else {
      EnqueueAttended(s, s', s.n + l, if slow then RunSlow else Work(r), wake);
    }
  }

  lemma PostedWakes(s: State, l: nat, r: nat, wake: nat)
    requires Shape(s) && l < |s.loopq| && CanWake(s, wake) && r < |s.reqs|
    ensures var s', slow := Posted(s, l, r, wake), s.reqs[r].kind == SlowIo;
      && Shape(s') && s'.n == s.n && |s'.pcs| == |s.pcs| && s'.slowRunning == s.slowRunning
      && if slow && RunSlow in s.wq then s'.wq == s.wq
         else forall i :: 0 <= i < s.n ==> s'.pcs[i] == Enqueue(s, if slow then RunSlow else Work(r), wake).pcs[i]
  {
  }

  lemma StepPost(s: State, l: nat, r: nat, wake: nat)
    requires Inv(s) && l < |s.loopq| && Thread(s, l) == InPost(r) && r < |s.reqs| && CanWake(s, wake)
    ensures Inv(Posted(s, l, r, wake))
  {
    hide Roles, Locks, Refs, Queued, Hands, History, Counters, Attended, Messages, Notified, QueueRefs, RoleOf, NameRef,
         Only, Moves, LockChange, CountChange, Handles, Transfer, Facts, CargoFacts, Past, CanWake, Distinct, LoopsKept,
         PlacesKept, WorkKept, Quiet, Posted, PostedData, Carrier;
    var s', t := Posted(s, l, r, wake), s.n + l;
    FactsOf(s, t);
    CargoFactsOf(s, t);
    CarrierOf(s, t, r);
    PostFields(s, l, r, wake);
    PostedShape(s, s', r, t);
    PostMoves(s, s', t, r);
    PostTransfer(s, s', t, r);
    PostQueues(s, s', r);
    PostMessages(s, s', t, r);
    PostAttended(s, l, r, wake);
    KeepNotified(s, s', t);
    TransferStep(s, s', t, r);
  }

  lemma PostedShape(s: State, s': State, r: nat, t: nat)
    requires r < |s.reqs| && PostedData(s, s', r) && Only(s, s', t)
    ensures Shape(s') && |s'.pcs| == |s.pcs| && |s'.loopq| == |s.loopq| && |s'.reqs| == |s.reqs|
  {
  }

  lemma CarrierOf(s: State, t: nat, r: nat)
    requires CargoFacts(s, t, r)
    ensures Carrier(s, r) == Some(t)
  {
  }
}
