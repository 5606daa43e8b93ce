/**
  What every step of the worker pool keeps, each part with a lemma that says which steps keep it.
 */
module PoolInvariant {
  import opened Bytes
  import opened Sequences
  import opened ThreadPool

  // ----- one thread moves -----

  /** Only thread `t` has moved, apart from waiting workers that may have been woken. */
  ghost predicate Only(s: State, s': State, t: nat) {
    && Shape(s) && Shape(s') && s'.n == s.n && |s'.loopq| == |s.loopq| && t < |s.pcs| && |s.reqs| <= |s'.reqs|
    && (forall r :: 0 <= r < |s.reqs| ==> s'.reqs[r].loop == s.reqs[r].loop)
    && (forall u :: 0 <= u < |s.pcs| && u != t ==>
          s'.pcs[u] == s.pcs[u] || (u < s.n && s.pcs[u] == Waiting && s'.pcs[u] == Woken))
  }

  // ----- roles and locks -----

  predicate WorkerPc(pc: Pc) {
    pc.WantMutex? || pc.Top? || pc.Waiting? || pc.Woken? || pc.Running? || pc.Ran? || pc.Returning? || pc.Exited?
  }

  predicate LoopPc(pc: Pc) {
    pc.Idle? || pc.WantPost? || pc.InPost? || pc.WantCancel? || pc.HasMutex? || pc.HasBoth? || pc.WantGive? ||
    pc.InGive? || pc.WantMove? || pc.InMove?
  }

  predicate CleanerPc(pc: Pc) {
    pc.Ready? || pc.WantExit? || pc.InExit? || pc.Joining?
  }

  predicate RoleOf(s: State, t: nat, pc: Pc)
    requires Shape(s) && t < |s.pcs|
  {
    if t < s.n then WorkerPc(pc) else if t < |s.pcs| - 1 then LoopPc(pc) else CleanerPc(pc)
  }

  predicate Roles(s: State)
    requires Shape(s)
  {
    forall t :: 0 <= t < |s.pcs| ==> RoleOf(s, t, s.pcs[t])
  }

  lemma KeepRoles(s: State, s': State, t: nat)
    requires Only(s, s', t) && Roles(s) && RoleOf(s, t, s'.pcs[t])
    ensures Roles(s')
  {
  }

  /** Whether thread `t` holds lock `k`, by where it stands in the code. */
  predicate Holds(s: State, t: nat, k: nat)
    requires Shape(s) && t < |s.pcs|
  {
    match s.pcs[t]
    case Top => k == 0
    case InPost(_) => k == 0
    case HasMutex(_) => k == 0
    case InExit => k == 0
    case HasBoth(_) => k == 0 || k == t - s.n + 1
    case Returning(r, _) => r < |s.reqs| && k == s.reqs[r].loop + 1
    case InGive(_) => k == t - s.n + 1
    case InMove => k == t - s.n + 1
    case _ => false
  }

  /** Every lock has the one holder its owner field says, or none. */
  predicate Locks(s: State)
    requires Shape(s)
  {
    && (forall t, k :: 0 <= t < |s.pcs| && 0 <= k < |s.locks| && Holds(s, t, k) ==> s.locks[k] == Some(t))
    && (forall k :: 0 <= k < |s.locks| && s.locks[k].Some? ==>
          s.locks[k].value < |s.pcs| && Holds(s, s.locks[k].value, k))
  }

  /** A thread takes locks that are free, and frees what it gives up. */
  lemma KeepLocks(s: State, s': State, t: nat)
    requires Only(s, s', t) && Locks(s) && Refs(s)
    requires forall k :: 0 <= k < |s.locks| && Holds(s', t, k) ==>
      s'.locks[k] == Some(t) && (Holds(s, t, k) || s.locks[k] == None)
    requires forall k :: 0 <= k < |s.locks| && !Holds(s', t, k) ==>
      s'.locks[k] == if Holds(s, t, k) then None else s.locks[k]
    ensures Locks(s')
  {
    forall u, k | 0 <= u < |s.pcs| && 0 <= k < |s.locks| && Holds(s', u, k)
      ensures s'.locks[k] == Some(u)
    {
      if u != t {
        assert NameRef(s, u);
        assert Holds(s, u, k);
        assert s.locks[k] == Some(u);
      }
    }
    forall k | 0 <= k < |s.locks| && s'.locks[k].Some?
      ensures s'.locks[k].value < |s.pcs| && Holds(s', s'.locks[k].value, k)
    {
      assert Holds(s', t, k) || Holds(s, s'.locks[k].value, k);
    }
  }

  // ----- where the requests are -----

  /** The request in a thread's hands. */
  function Cargo(pc: Pc): Option<nat> {
    match pc
    case Running(r, _) => Some(r)
    case Ran(r, _) => Some(r)
    case Returning(r, _) => Some(r)
    case WantPost(r) => Some(r)
    case InPost(r) => Some(r)
    case WantGive(r) => Some(r)
    case InGive(r) => Some(r)
    case _ => None
  }

  function PlaceOf(pc: Pc, t: nat): Place {
    if pc.WantPost? || pc.InPost? then Submitting else if pc.WantGive? || pc.InGive? then WithCancel else WithWorker(t)
  }

  /** The thread a request is with. */
  function Carrier(s: State, r: nat): Option<nat>
    requires r < |s.reqs|
  {
    match s.reqs[r].at
    case WithWorker(i) => Some(i)
    case Submitting => Some(s.n + s.reqs[r].loop)
    case WithCancel => Some(s.n + s.reqs[r].loop)
    case _ => None
  }

  /** A request is with a thread exactly when the thread has it. */
  predicate Hands(s: State)
    requires Shape(s)
  {
    && (forall t :: 0 <= t < |s.pcs| ==> HandOf(s, t))
    && (forall r :: 0 <= r < |s.reqs| ==> Carried(s, r))
  }

  predicate HandOf(s: State, t: nat)
    requires Shape(s) && t < |s.pcs|
  {
    Cargo(s.pcs[t]).Some? ==>
      var r := Cargo(s.pcs[t]).value;
      r < |s.reqs| && s.reqs[r].at == PlaceOf(s.pcs[t], t) && Carrier(s, r) == Some(t)
  }

  predicate Carried(s: State, r: nat)
    requires Shape(s) && r < |s.reqs|
  {
    Carrier(s, r).Some? ==>
      var t := Carrier(s, r).value;
      t < |s.pcs| && Cargo(s.pcs[t]) == Some(r)
  }

  /** The requests are the old ones, or these and a new one `r`. */
  predicate Adds(s: State, s': State, r: nat) {
    |s'.reqs| == |s.reqs| || (|s'.reqs| == |s.reqs| + 1 && r == |s.reqs|)
  }

  predicate SameHand(s: State, s': State, q: nat)
    requires q < |s.reqs| && q < |s'.reqs|
  {
    Carrier(s', q) == Carrier(s, q) && (Carrier(s, q).Some? ==> s'.reqs[q].at == s.reqs[q].at)
  }

  /** Thread `t` takes request `r`, gives it up, or carries it on. */
  ghost predicate Handles(s: State, s': State, t: nat, r: nat) {
    && Only(s, s', t) && Adds(s, s', r)
    && (Cargo(s.pcs[t]).Some? ==> Cargo(s.pcs[t]) == Some(r))
    && (Cargo(s'.pcs[t]).Some? ==> Cargo(s'.pcs[t]) == Some(r) && r < |s'.reqs| && s'.reqs[r].at == PlaceOf(s'.pcs[t], t))
    && (r < |s.reqs| && Carrier(s, r).Some? ==> Carrier(s, r) == Some(t))
    && (r < |s'.reqs| ==> Carrier(s', r) == if Cargo(s'.pcs[t]).Some? then Some(t) else None)
    && (forall q :: 0 <= q < |s.reqs| && q != r ==> SameHand(s, s', q))
  }

  lemma KeepHandOf(s: State, s': State, t: nat, r: nat, u: nat)
    requires Handles(s, s', t, r) && Hands(s) && u < |s.pcs|
    ensures HandOf(s', u)
  {
    if u != t && Cargo(s'.pcs[u]).Some? {
      assert s'.pcs[u] == s.pcs[u] && HandOf(s, u);
      var q := Cargo(s.pcs[u]).value;
      assert q != r && SameHand(s, s', q);
    }
  }

  lemma KeepCarried(s: State, s': State, t: nat, r: nat, q: nat)
    requires Handles(s, s', t, r) && Hands(s) && q < |s'.reqs|
    ensures Carried(s', q)
  {
    if q != r && Carrier(s', q).Some? {
      assert SameHand(s, s', q) && Carried(s, q);
      var u := Carrier(s, q).value;
      assert u != t && s'.pcs[u] == s.pcs[u];
    }
  }

  lemma KeepHands(s: State, s': State, t: nat, r: nat)
    requires Handles(s, s', t, r) && Hands(s)
    ensures Hands(s')
  {
    hide HandOf, Carried, SameHand, Carrier, PlaceOf, Cargo;
    forall u | 0 <= u < |s'.pcs| ensures HandOf(s', u) { KeepHandOf(s, s', t, r, u); }
    forall q | 0 <= q < |s'.reqs| ensures Carried(s', q) { KeepCarried(s, s', t, r, q); }
  }

  /** A request is in a queue exactly when its place says so, and no queue holds anything twice. */
  predicate Queued(s: State)
    requires Shape(s)
  {
    && (forall r :: 0 <= r < |s.reqs| ==> InQueues(s, r))
    && Distinct(s.wq) && Distinct(s.slow)
    && (forall l :: 0 <= l < |s.loopq| ==> Distinct(s.loopq[l]) && Distinct(s.local[l]))
  }

  predicate InQueues(s: State, r: nat)
    requires Shape(s) && r < |s.reqs|
  {
    var q := s.reqs[r];
    && (Work(r) in s.wq <==> q.at == InWork)
    && (r in s.slow <==> q.at == InSlow)
    && (r in s.loopq[q.loop] <==> q.at == InLoop)
    && (r in s.local[q.loop] <==> q.at == InLocal)
  }

  // ----- what has happened to the requests -----

  /** Its work has run, or a cancel has succeeded; never both. */
  predicate Completed(q: Request) {
    (q.work == Null && q.ran == 1 && q.cancels == 0) || (q.work == Cancelled && q.ran == 0 && q.cancels > 0)
  }

  predicate Past(s: State, q: Request)
    requires Shape(s)
  {
    match q.at
    case WithWorker(i) =>
      i < s.n && q.work == Set && q.cancels == 0 && q.results == [] && q.ran == if s.pcs[i].Running? then 0 else 1
    case WithCancel => q.work == Cancelled && Completed(q) && q.results == []
    case InLoop => Completed(q) && q.results == []
    case InLocal => Completed(q) && q.results == []
    case Delivered => Completed(q) && q.results == [if q.cancels > 0 then UV_ECANCELED else 0]
    case _ => q.work == Set && q.ran == 0 && q.cancels == 0 && q.results == []
  }

  predicate History(s: State)
    requires Shape(s)
  {
    forall r :: 0 <= r < |s.reqs| ==> Past(s, s.reqs[r])
  }

  lemma KeepHistory(s: State, s': State, t: nat, r: nat)
    requires Only(s, s', t) && Hands(s) && History(s)
    requires Cargo(s.pcs[t]).Some? ==> Cargo(s.pcs[t]) == Some(r)
    requires Adds(s, s', r) && forall q :: 0 <= q < |s.reqs| && q != r ==> s'.reqs[q] == s.reqs[q]
    requires r < |s'.reqs| ==> Past(s', s'.reqs[r])
    ensures History(s')
  {
    forall q | 0 <= q < |s'.reqs| ensures Past(s', s'.reqs[q]) {
      if q != r {
        assert Past(s, s.reqs[q]);
        assert Carried(s, q) && Carrier(s, q) != Some(t);
      }
    }
  }

  // ----- counters -----

  ghost function Sum<T(!new)>(q: seq<T>, f: T -> int): int {
    if q == [] then 0 else f(q[0]) + Sum(q[1..], f)
  }

  function Asleep(pc: Pc): int {
    if pc == Waiting || pc == Woken then 1 else 0
  }

  /** A worker with slow I/O work, from taking it until it has `mutex` again. */
  function Slow(pc: Pc): int {
    if (pc.Running? || pc.Ran? || pc.Returning? || pc.WantMutex?) && pc.slow then 1 else 0
  }

  /** The two counters are what they count, and slow I/O is throttled. */
  ghost predicate Counters(s: State) {
    s.idle == Sum(s.pcs, Asleep) && s.slowRunning == Sum(s.pcs, Slow) <= Threshold(s.n)
  }

  lemma {:induction false} SumChange<T(!new)>(q: seq<T>, q': seq<T>, t: nat, f: T -> int)
    requires |q'| == |q| && t < |q|
    requires forall u :: 0 <= u < |q| && u != t ==> f(q'[u]) == f(q[u])
    ensures Sum(q', f) == Sum(q, f) - f(q[t]) + f(q'[t])
  {
    if t > 0 {
      assert forall u :: 0 <= u < |q[1..]| ==> q[1..][u] == q[u + 1] && q'[1..][u] == q'[u + 1];
      SumChange(q[1..], q'[1..], t - 1, f);
    } else {
      SumSame(q[1..], q'[1..], f);
    }
  }

  lemma {:induction false} SumSame<T(!new)>(q: seq<T>, q': seq<T>, f: T -> int)
    requires |q'| == |q| && forall u :: 0 <= u < |q| ==> f(q'[u]) == f(q[u])
    ensures Sum(q', f) == Sum(q, f)
  {
    if q != [] { SumSame(q[1..], q'[1..], f); }
  }

  lemma {:induction false} SumAtLeast<T(!new)>(q: seq<T>, t: nat, f: T -> int)
    requires t < |q| && forall u :: 0 <= u < |q| ==> f(q[u]) >= 0
    ensures Sum(q, f) >= f(q[t])
  {
    SumNonNegative(q[1..], f);
    if t > 0 { SumAtLeast(q[1..], t - 1, f); }
  }

  lemma {:induction false} SumNonNegative<T(!new)>(q: seq<T>, f: T -> int)
    requires forall u :: 0 <= u < |q| ==> f(q[u]) >= 0
    ensures Sum(q, f) >= 0
  {
    if q != [] { SumNonNegative(q[1..], f); }
  }

  lemma {:induction false} SumZero<T(!new)>(q: seq<T>, f: T -> int)
    requires forall u :: 0 <= u < |q| ==> f(q[u]) == 0
    ensures Sum(q, f) == 0
  {
    if q != [] { SumZero(q[1..], f); }
  }

  lemma KeepCounters(s: State, s': State, t: nat)
    requires Only(s, s', t) && Counters(s)
    requires s'.idle == s.idle - Asleep(s.pcs[t]) + Asleep(s'.pcs[t])
    requires s'.slowRunning == s.slowRunning - Slow(s.pcs[t]) + Slow(s'.pcs[t]) <= Threshold(s.n)
    ensures Counters(s')
  {
    SumChange(s.pcs, s'.pcs, t, Asleep);
    SumChange(s.pcs, s'.pcs, t, Slow);
  }

  // ----- messages and wakeups -----

  /**
    Slow work that is pending has been announced; `exit_message` is in the queue from the
    moment cleanup has put it there, and at its head once a worker has seen it.
   */
  predicate Messages(s: State)
    requires Shape(s)
  {
    && (s.slow != [] ==> RunSlow in s.wq)
    && (Exit in s.wq <==> s.pcs[|s.pcs| - 1] == Joining)
    && (forall i :: 0 <= i < s.n && s.pcs[i] == Exited ==> s.wq != [] && s.wq[0] == Exit)
  }

  predicate Awake(pc: Pc) {
    pc != Waiting && pc != Exited
  }

  predicate SomeAwake(s: State)
    requires Shape(s)
  {
    exists i :: 0 <= i < s.n && Awake(s.pcs[i])
  }

  predicate SomeAlive(s: State)
    requires Shape(s)
  {
    exists i :: 0 <= i < s.n && s.pcs[i] != Exited
  }

  /** Unless every worker has exited, a queue that could be served has a worker awake to serve it. */
  predicate Attended(s: State)
    requires Shape(s)
  {
    SomeAlive(s) && !MustWait(s) ==> SomeAwake(s)
  }

  predicate Moving(pc: Pc) {
    pc == WantMove || pc == InMove
  }

  /**
    A request in a loop's queue has the loop's wakeup pending, unless the loop is already on
    its way; the loop fetches the next batch once it has delivered the one before.
   */
  predicate Notified(s: State)
    requires Shape(s)
  {
    forall l :: 0 <= l < |s.loopq| ==>
      && (s.loopq[l] != [] ==> s.async[l] || Moving(Thread(s, l)))
      && (Moving(Thread(s, l)) ==> s.local[l] == [])
  }

  ghost predicate Inv(s: State) {
    && Shape(s) && Refs(s) && Roles(s) && Locks(s) && Hands(s) && Queued(s) && History(s) && Counters(s)
    && Messages(s) && Attended(s) && Notified(s)
  }

  lemma StartInv(s: State)
    requires Start(s)
    ensures Inv(s)
  {
    StartThreads(s);
    StartQueues(s);
    StartCounters(s);
    StartMessages(s);
    hide Start, Refs, Roles, Locks, Hands, Queued, History, Counters, Messages, Attended, Notified;
  }

  lemma StartThreads(s: State)
    requires Start(s)
    ensures Refs(s) && Roles(s) && Locks(s)
  {
  }

  lemma StartQueues(s: State)
    requires Start(s)
    ensures Hands(s) && Queued(s) && History(s)
  {
  }

  lemma StartCounters(s: State)
    requires Start(s)
    ensures Counters(s)
  {
    SumZero(s.pcs, Asleep);
    SumZero(s.pcs, Slow);
  }

  lemma StartMessages(s: State)
    requires Start(s)
    ensures Messages(s) && Attended(s) && Notified(s)
  {
    assert s.pcs[0] == WantMutex(false);
  }
}
