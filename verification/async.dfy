/**
  The cross-thread wakeup of `libuv/src/unix/async.c`: any number of threads that send, any
  number of handles, and the thread of the loop, as steps between atomic operations.
 */
module AsyncWakeup {
  import opened Bytes
  import opened Sequences

  // ----- states -----

  /** A thread inside `uv_async_send(h)`. */
  datatype Sender =
    | Idle
    | Loaded(h: nat)   // has read `pending` as 0
    | Entered(h: nat)  // has made the loop busy
    | Won(h: nat)      // has changed `pending` from 0 to 1 and will write
    | Leaving(h: nat)  // will make the loop not busy

  datatype Phase = Open | Spinning | Closed

  /**
    A handle: the flags `pending` and `busy`, and its history: how often a send has set
    `pending`, how often the sweep has found it set, and whether a send has been made since.
   */
  datatype Handle = Handle(pending: bool, busy: int, phase: Phase, wins: nat, visits: nat, unserved: bool)

  datatype LoopPc = Waiting | Sweeping | Spin(h: nat, inSweep: bool)

  /**
    `unread` says whether the wakeup descriptor is readable, `queue` is `async_handles`, and
    `local` the list a sweep has moved the handles to.
   */
  datatype State = State(senders: seq<Sender>, handles: seq<Handle>, unread: bool, queue: seq<nat>,
                         local: seq<nat>, loop: LoopPc)

  predicate Start(s: State) {
    && s.handles == [] && !s.unread && s.queue == [] && s.local == [] && s.loop == Waiting
    && forall t :: 0 <= t < |s.senders| ==> s.senders[t] == Idle
  }

  // ----- steps -----

  datatype Step =
    | Load(t: nat, h: nat) | Enter(t: nat) | Exchange(t: nat) | Write(t: nat) | Leave(t: nat)
    | Init | Drain | Visit | EndSweep | Close(h: nat) | SpinOver

  predicate Enabled(s: State, step: Step) {
    match step
    case Load(t, h) => t < |s.senders| && s.senders[t] == Idle && h < |s.handles|
    case Enter(t) => t < |s.senders| && s.senders[t].Loaded? && s.senders[t].h < |s.handles|
    case Exchange(t) => t < |s.senders| && s.senders[t].Entered? && s.senders[t].h < |s.handles|
    case Write(t) => t < |s.senders| && s.senders[t].Won?
    case Leave(t) => t < |s.senders| && s.senders[t].Leaving? && s.senders[t].h < |s.handles|
    case Init => !s.loop.Spin?
    case Drain => s.loop == Waiting
    case Visit => s.loop == Sweeping && s.local != [] && s.local[0] < |s.handles|
    case EndSweep => s.loop == Sweeping && s.local == []
    case Close(h) => !s.loop.Spin? && h < |s.handles| && s.handles[h].phase == Open
    case SpinOver => s.loop.Spin? && s.loop.h < |s.handles| && s.handles[s.loop.h].busy == 0
  }

  function With(s: State, h: nat, v: Handle): State
    requires h < |s.handles|
  {
    s.(handles := s.handles[h := v])
  }

  function At(s: State, t: nat, pc: Sender): State
    requires t < |s.senders|
  {
    s.(senders := s.senders[t := pc])
  }

  /** The first, cheap read. */
  function DoLoad(s: State, t: nat, h: nat): State
    requires t < |s.senders| && h < |s.handles|
  {
    var v := s.handles[h];
    if v.pending then With(s, h, v.(unserved := true)) else At(s, t, Loaded(h))
  }

  function DoEnter(s: State, t: nat, h: nat): State
    requires t < |s.senders| && h < |s.handles|
  {
    At(With(s, h, s.handles[h].(busy := s.handles[h].busy + 1)), t, Entered(h))
  }

  function DoExchange(s: State, t: nat, h: nat): State
    requires t < |s.senders| && h < |s.handles|
  {
    var v := s.handles[h];
    At(With(s, h, v.(pending := true, unserved := true, wins := if v.pending then v.wins else v.wins + 1)),
       t, if v.pending then Leaving(h) else Won(h))
  }

  /** `uv__async_send`: when the pipe is full it has been readable already. */
  function DoWrite(s: State, t: nat, h: nat): State
    requires t < |s.senders|
  {
    At(s, t, Leaving(h)).(unread := true)
  }

  function DoLeave(s: State, t: nat, h: nat): State
    requires t < |s.senders| && h < |s.handles|
  {
    At(With(s, h, s.handles[h].(busy := s.handles[h].busy - 1)), t, Idle)
  }

  /** `uv_async_init` */
  function DoInit(s: State): State {
    s.(handles := s.handles + [Handle(false, 0, Open, 0, 0, false)], queue := s.queue + [|s.handles|])
  }

  /** Reading until nothing is left, and moving the list. */
  function DoDrain(s: State): State {
    s.(unread := false, local := s.queue, queue := [], loop := Sweeping)
  }

  /** One handle of the sweep: back into the list, and its flag fetched and cleared. */
  function DoVisit(s: State, h: nat): State
    requires s.local != [] && h < |s.handles|
  {
    var v := s.handles[h];
    var s1 := s.(local := s.local[1..], queue := s.queue + [h]);
    if v.pending then With(s1, h, v.(pending := false, visits := v.visits + 1, unserved := false)) else s1
  }

  /** The beginning of `uv__async_spin`. */
  function DoClose(s: State, h: nat): State
    requires h < |s.handles|
  {
    With(s, h, s.handles[h].(pending := true, phase := Spinning)).(loop := Spin(h, s.loop == Sweeping))
  }

  /** `busy` has been read as 0; the rest of `uv__async_close`. */
  function DoSpinOver(s: State, h: nat): State
    requires s.loop.Spin? && h < |s.handles|
  {
    With(s, h, s.handles[h].(phase := Closed)).(
      queue := Without(s.queue, h), local := Without(s.local, h), loop := if s.loop.inSweep then Sweeping else Waiting)
  }

  function Apply(s: State, step: Step): State
    requires Enabled(s, step)
  {
    match step
    case Load(t, h) => DoLoad(s, t, h)
    case Enter(t) => DoEnter(s, t, s.senders[t].h)
    case Exchange(t) => DoExchange(s, t, s.senders[t].h)
    case Write(t) => DoWrite(s, t, s.senders[t].h)
    case Leave(t) => DoLeave(s, t, s.senders[t].h)
    case Init => DoInit(s)
    case Drain => DoDrain(s)
    case Visit => DoVisit(s, s.local[0])
    case EndSweep => s.(loop := Waiting)
    case Close(h) => DoClose(s, h)
    case SpinOver => DoSpinOver(s, s.loop.h)
  }

  // ----- invariant -----

  /** Whether a sender is between raising and lowering `busy` of `h`. */
  predicate Inside(pc: Sender, h: nat) {
    pc == Entered(h) || pc == Won(h) || pc == Leaving(h)
  }

  function Busy(pcs: seq<Sender>, h: nat): nat {
    if pcs == [] then 0 else (if Inside(pcs[0], h) then 1 else 0) + Busy(pcs[1..], h)
  }

  predicate SomeWon(pcs: seq<Sender>, h: nat) {
    exists t :: 0 <= t < |pcs| && pcs[t] == Won(h)
  }

  /** The lists hold the handles that are not closed, each once. */
  predicate Listed(s: State) {
    && Distinct(s.local + s.queue)
    && (forall k :: 0 <= k < |s.local| ==> s.local[k] < |s.handles|)
    && (forall k :: 0 <= k < |s.queue| ==> s.queue[k] < |s.handles|)
    && (forall h :: 0 <= h < |s.handles| ==> (s.handles[h].phase != Closed <==> h in s.local + s.queue))
    && (s.loop == Waiting || (s.loop.Spin? && !s.loop.inSweep) ==> s.local == [])
  }

  /** A handle spins exactly while the loop waits for it, and then `pending` is set. */
  predicate Closing(s: State) {
    && (s.loop.Spin? ==> s.loop.h < |s.handles|)
    && forall h :: 0 <= h < |s.handles| ==>
         && (s.handles[h].phase == Spinning <==> s.loop.Spin? && s.loop.h == h)
         && (s.handles[h].phase != Open ==> s.handles[h].pending)
  }

  /** `busy` counts the senders inside; none of them is going to write for a closed handle. */
  predicate Senders(s: State) {
    && (forall t :: 0 <= t < |s.senders| && s.senders[t] != Idle ==> s.senders[t].h < |s.handles|)
    && (forall h :: 0 <= h < |s.handles| ==> s.handles[h].busy == Busy(s.senders, h))
    && (forall h :: 0 <= h < |s.handles| && s.handles[h].phase == Closed ==> !SomeWon(s.senders, h))
  }

  /** A flag that is set has a wakeup on its way. */
  predicate Woken(s: State, h: nat)
    requires h < |s.handles|
  {
    s.handles[h].phase == Open && s.handles[h].pending ==> s.unread || SomeWon(s.senders, h) || h in s.local
  }

  /** A send since the last visit has the flag set, and each visit answers one send that set it. */
  predicate Served(v: Handle) {
    v.phase == Open ==> (v.unserved ==> v.pending) && v.wins == v.visits + if v.pending then 1 else 0
  }

  predicate Inv(s: State) {
    && Listed(s) && Closing(s) && Senders(s)
    && (forall h :: 0 <= h < |s.handles| ==> Woken(s, h) && Served(s.handles[h]))
  }

  lemma {:induction false} BusySet(pcs: seq<Sender>, t: nat, pc: Sender, h: nat)
    requires t < |pcs|
    ensures Busy(pcs[t := pc], h) ==
      Busy(pcs, h) - (if Inside(pcs[t], h) then 1 else 0) + (if Inside(pc, h) then 1 else 0)
  {
    if t > 0 {
      BusySet(pcs[1..], t - 1, pc, h);
      assert pcs[t := pc][1..] == pcs[1..][t - 1 := pc];
    }
  }

  lemma {:induction false} BusyNone(pcs: seq<Sender>, h: nat, t: nat)
    requires Busy(pcs, h) == 0 && t < |pcs|
    ensures !Inside(pcs[t], h)
  {
    if t > 0 { BusyNone(pcs[1..], h, t - 1); }
  }

  lemma {:induction false} BusyNew(pcs: seq<Sender>, h: nat)
    requires forall t :: 0 <= t < |pcs| && pcs[t] != Idle ==> pcs[t].h != h
    ensures Busy(pcs, h) == 0
  {
    if pcs != [] { BusyNew(pcs[1..], h); }
  }

  lemma WonSet(pcs: seq<Sender>, t: nat, pc: Sender, h: nat)
    requires t < |pcs|
    ensures pcs[t] != Won(h) && pc != Won(h) ==> SomeWon(pcs[t := pc], h) == SomeWon(pcs, h)
    ensures pc == Won(h) ==> SomeWon(pcs[t := pc], h)
  {
    var q := pcs[t := pc];
    assert q[t] == pc;
    if SomeWon(pcs, h) && pcs[t] != Won(h) {
      var u :| 0 <= u < |pcs| && pcs[u] == Won(h);
      assert q[u] == Won(h);
    }
    if SomeWon(q, h) && pc != Won(h) {
      var u :| 0 <= u < |q| && q[u] == Won(h);
      assert pcs[u] == Won(h);
    }
  }

  /** What a sender's step may do to a handle. */
  predicate HandleMove(s: State, s': State, t: nat, h: nat)
    requires t < |s.senders| && t < |s'.senders| && h < |s.handles| && h < |s'.handles|
  {
    var pc, pc', v, v' := s.senders[t], s'.senders[t], s.handles[h], s'.handles[h];
    && v'.phase == v.phase && (v.pending ==> v'.pending) && (Served(v) ==> Served(v'))
    && v'.busy == v.busy - (if Inside(pc, h) then 1 else 0) + (if Inside(pc', h) then 1 else 0)
    && (pc == Won(h) ==> s'.unread) && (pc' == Won(h) <==> v'.pending && !v.pending)
  }

  predicate SenderMove(s: State, s': State, t: nat) {
    && t < |s.senders| == |s'.senders| && |s'.handles| == |s.handles| && s'.senders == s.senders[t := s'.senders[t]]
    && s'.queue == s.queue && s'.local == s.local && s'.loop == s.loop && (s.unread ==> s'.unread)
    && (s'.senders[t] == Idle || s'.senders[t].h < |s.handles|)
    && forall h :: 0 <= h < |s.handles| ==> HandleMove(s, s', t, h)
  }

  lemma SenderFrame(s: State, s': State, t: nat)
    requires Inv(s) && SenderMove(s, s', t)
    ensures Inv(s')
  {
    forall h | 0 <= h < |s.handles|
      ensures s'.handles[h].busy == Busy(s'.senders, h) && Woken(s', h) && Served(s'.handles[h])
      ensures s'.handles[h].phase == s.handles[h].phase && (s.handles[h].pending ==> s'.handles[h].pending)
      ensures s'.handles[h].phase == Closed ==> !SomeWon(s'.senders, h)
    {
      assert HandleMove(s, s', t, h) && Woken(s, h) && Served(s.handles[h]);
      BusySet(s.senders, t, s'.senders[t], h);
      WonSet(s.senders, t, s'.senders[t], h);
    }
    hide HandleMove, Woken, Served, Busy, SomeWon;
  }

  /** A sender takes a step. */
  lemma SenderStep(s: State, step: Step)
    requires Inv(s) && Enabled(s, step)
    requires step.Load? || step.Enter? || step.Exchange? || step.Write? || step.Leave?
    ensures Inv(Apply(s, step))
  {
    hide Listed, Closing, Woken, SenderMove;
    assert s.senders[step.t] != Idle ==> s.senders[step.t].h < |s.handles|;
    hide Senders, Inv, DoLoad, DoEnter, DoExchange, DoWrite, DoLeave;
    match step {
      case Load(t, h) => LoadMove(s, t, h);
      case Enter(t) => EnterMove(s, t, s.senders[t].h);
      case Exchange(t) => ExchangeMove(s, t, s.senders[t].h);
      case Write(t) => WriteMove(s, t, s.senders[t].h);
      case Leave(t) => LeaveMove(s, t, s.senders[t].h);
    }
    SenderFrame(s, Apply(s, step), step.t);
  }

  lemma LoadMove(s: State, t: nat, h: nat)
    requires Enabled(s, Load(t, h))
    ensures SenderMove(s, DoLoad(s, t, h), t)
  {
  }

  lemma EnterMove(s: State, t: nat, h: nat)
    requires Enabled(s, Enter(t)) && h == s.senders[t].h
    ensures SenderMove(s, DoEnter(s, t, h), t)
  {
  }

  lemma ExchangeMove(s: State, t: nat, h: nat)
    requires Enabled(s, Exchange(t)) && h == s.senders[t].h
    ensures SenderMove(s, DoExchange(s, t, h), t)
  {
  }

  lemma WriteMove(s: State, t: nat, h: nat)
    requires Enabled(s, Write(t)) && h == s.senders[t].h < |s.handles|
    ensures SenderMove(s, DoWrite(s, t, h), t)
  {
  }

  lemma LeaveMove(s: State, t: nat, h: nat)
    requires Enabled(s, Leave(t)) && h == s.senders[t].h
    ensures SenderMove(s, DoLeave(s, t, h), t)
  {
  }

  lemma DistinctParts(a: seq<nat>, b: seq<nat>)
    ensures Distinct(a + b) <==> Distinct(a) && Distinct(b) && forall x :: x in a ==> x !in b
  {
    var q := a + b;
    if Distinct(q) {
      forall i, j | 0 <= i < j < |a| ensures a[i] != a[j] { assert q[i] == a[i] && q[j] == a[j]; }
      forall i, j | 0 <= i < j < |b| ensures b[i] != b[j] { assert q[|a| + i] == b[i] && q[|a| + j] == b[j]; }
      forall x | x in a ensures x !in b {
        var i :| 0 <= i < |a| && a[i] == x;
        assert forall j :: 0 <= j < |b| ==> q[i] != q[|a| + j] == b[j];
      }
    }
    if Distinct(a) && Distinct(b) && forall x :: x in a ==> x !in b {
      forall i, j | 0 <= i < j < |q| ensures q[i] != q[j] {
        if i < |a| <= j { assert q[i] in a && q[j] in b; }
      }
    }
  }

  lemma InitStep(s: State)
    requires Inv(s) && Enabled(s, Init)
    ensures Inv(DoInit(s))
  {
    var s', n := DoInit(s), |s.handles|;
    BusyNew(s.senders, n);
    assert s'.local + s'.queue == s.local + s.queue + [n];
    assert forall k :: 0 <= k < |s.local + s.queue| ==> (s.local + s.queue)[k] < n;
    forall h | 0 <= h <= n
      ensures Woken(s', h) && Served(s'.handles[h]) && (s'.handles[h].phase != Closed <==> h in s'.local + s'.queue)
    {
      if h < n {
        assert Woken(s, h) && Served(s.handles[h]);
        assert h in s'.local + s'.queue <==> h in s.local + s.queue;
      }
    }
  }

  lemma DrainStep(s: State)
    requires Inv(s) && Enabled(s, Drain)
    ensures Inv(DoDrain(s))
  {
    var s' := DoDrain(s);
    assert s'.local + s'.queue == s.local + s.queue;
    forall h | 0 <= h < |s.handles| ensures Woken(s', h) {
      assert Woken(s, h);
      assert h in s'.local + s'.queue ==> h in s'.local;
    }
  }

  /** Moving the first element of one sequence to the end of the other. */
  lemma RotateParts(a: seq<nat>, b: seq<nat>)
    requires a != [] && Distinct(a + b)
    ensures Distinct(a[1..] + (b + [a[0]])) && forall x :: x in a[1..] + (b + [a[0]]) <==> x in a + b
  {
    assert a == [a[0]] + a[1..];
    DistinctParts(a, b);
    DistinctParts([a[0]], a[1..]);
    DistinctParts(a[1..], b + [a[0]]);
    DistinctParts(b, [a[0]]);
  }

  lemma VisitLists(s: State)
    requires Listed(s) && Enabled(s, Visit)
    ensures Listed(DoVisit(s, s.local[0]))
  {
    RotateParts(s.local, s.queue);
    hide Distinct;
    var s' := DoVisit(s, s.local[0]);
    forall h | 0 <= h < |s.handles| ensures s'.handles[h].phase != Closed <==> h in s'.local + s'.queue {
      assert h in s'.local + s'.queue <==> h in s.local + s.queue;
    }
  }

  lemma VisitStep(s: State)
    requires Inv(s) && Enabled(s, Visit)
    ensures Inv(DoVisit(s, s.local[0]))
  {
    VisitLists(s);
    hide Listed;
    var h0, s' := s.local[0], DoVisit(s, s.local[0]);
    assert s.local == [h0] + s'.local;
    forall h | 0 <= h < |s.handles| ensures Woken(s', h) && Served(s'.handles[h]) {
      assert Woken(s, h) && Served(s.handles[h]);
    }
  }

  lemma CloseStep(s: State, h: nat)
    requires Inv(s) && Enabled(s, Close(h))
    ensures Inv(DoClose(s, h))
  {
    var s' := DoClose(s, h);
    forall k | 0 <= k < |s.handles| ensures Woken(s', k) && Served(s'.handles[k]) {
      assert Woken(s, k) && Served(s.handles[k]);
    }
  }

  /** Taking an element out of both sequences. */
  lemma CutParts(a: seq<nat>, b: seq<nat>, x: nat)
    requires Distinct(a + b)
    ensures var a', b' := Without(a, x), Without(b, x);
      && Distinct(a' + b') && (forall y :: y in a' <==> y in a && y != x) && (forall y :: y in b' <==> y in b && y != x)
      && (forall k :: 0 <= k < |a'| ==> a'[k] in a) && (forall k :: 0 <= k < |b'| ==> b'[k] in b)
  {
    DistinctParts(a, b);
    WithoutOf(a, x);
    WithoutOf(b, x);
    WithoutIn(a, x);
    WithoutIn(b, x);
    DistinctParts(Without(a, x), Without(b, x));
  }

  lemma SpinOverLists(s: State)
    requires Listed(s) && Enabled(s, SpinOver)
    ensures Listed(DoSpinOver(s, s.loop.h))
  {
    CutParts(s.local, s.queue, s.loop.h);
    hide Distinct, Without;
    var s' := DoSpinOver(s, s.loop.h);
    forall h | 0 <= h < |s.handles| ensures s'.handles[h].phase != Closed <==> h in s'.local + s'.queue {
      assert h in s'.local + s'.queue <==> h in s.local + s.queue && h != s.loop.h;
    }
  }

  /** When `busy` has been seen as 0, nobody is going to write for the handle. */
  lemma SpinOverStep(s: State)
    requires Inv(s) && Enabled(s, SpinOver)
    ensures Inv(DoSpinOver(s, s.loop.h))
  {
    var h0, s' := s.loop.h, DoSpinOver(s, s.loop.h);
    forall t | 0 <= t < |s.senders| ensures s.senders[t] != Won(h0) { BusyNone(s.senders, h0, t); }
    SpinOverLists(s);
    CutParts(s.local, s.queue, h0);
    hide Listed, Distinct, Without;
    forall h | 0 <= h < |s.handles| ensures Woken(s', h) && Served(s'.handles[h]) {
      assert Woken(s, h) && Served(s.handles[h]);
    }
  }

  /** Every step keeps the invariant. */
  lemma StepKeeps(s: State, step: Step)
    requires Inv(s) && Enabled(s, step)
    ensures Inv(Apply(s, step))
  {
    hide Listed, Closing, Senders, Woken, Served, DoInit, DoDrain, DoVisit, DoClose, DoSpinOver;
    match step
    case Init => InitStep(s);
    case Drain => DrainStep(s);
    case Visit => VisitStep(s);
    case EndSweep => EndStep(s);
    case Close(h) => CloseStep(s, h);
    case SpinOver => SpinOverStep(s);
    case _ => SenderStep(s, step);
  }

  lemma EndStep(s: State)
    requires Inv(s) && Enabled(s, EndSweep)
    ensures Inv(s.(loop := Waiting))
  {
    var s' := s.(loop := Waiting);
    forall h | 0 <= h < |s.handles| ensures Woken(s', h) { assert Woken(s, h); }
  }

  // ----- runs -----

  ghost predicate Next(s: State, s': State) {
    exists step :: Enabled(s, step) && s' == Apply(s, step)
  }

  ghost predicate Run(run: seq<State>) {
    |run| > 0 && Start(run[0]) && forall k :: 0 <= k < |run| - 1 ==> Next(run[k], run[k + 1])
  }

  lemma {:induction false} RunInv(run: seq<State>, k: nat)
    requires Run(run) && k < |run|
    ensures Inv(run[k])
  {
    hide Inv, Enabled, Apply;
    if k == 0 {
      StartInv(run[0]);
    } else {
      RunInv(run, k - 1);
      assert Next(run[k - 1], run[k - 1 + 1]);
      var step :| Enabled(run[k - 1], step) && run[k] == Apply(run[k - 1], step);
      StepKeeps(run[k - 1], step);
    }
  }

  lemma StartInv(s: State)
    requires Start(s)
    ensures Inv(s)
  {
  }

  /**
    No send is lost: while a send to an open handle has not been answered, the descriptor is
    readable, or a sender is about to make it so, or the sweep has yet to come to the handle.
   */
  lemma NoSendLost(run: seq<State>, k: nat, h: nat)
    requires Run(run) && k < |run| && h < |run[k].handles|
    requires var v := run[k].handles[h]; v.phase == Open && (v.unserved || v.pending)
    ensures run[k].handles[h].pending
    ensures run[k].unread || SomeWon(run[k].senders, h) || h in run[k].local
  {
    RunInv(run, k);
    assert Woken(run[k], h) && Served(run[k].handles[h]);
  }

  /** Sends coalesce: a visit answers the one send that set the flag and all made until then. */
  lemma OneVisitForEachWin(run: seq<State>, k: nat, h: nat)
    requires Run(run) && k < |run| && h < |run[k].handles| && run[k].handles[h].phase == Open
    ensures var v := run[k].handles[h]; v.visits <= v.wins <= v.visits + 1 && (v.wins > v.visits <==> v.pending)
  {
    RunInv(run, k);
    assert Served(run[k].handles[h]);
  }

  /** When nothing is under way every send to an open handle has been answered. */
  lemma AllAnswered(run: seq<State>, k: nat, h: nat)
    requires Run(run) && k < |run| && h < |run[k].handles| && run[k].handles[h].phase == Open
    requires !run[k].unread && run[k].loop == Waiting && forall t :: 0 <= t < |run[k].senders| ==> run[k].senders[t] == Idle
    ensures !run[k].handles[h].unserved && run[k].handles[h].wins == run[k].handles[h].visits
  {
    RunInv(run, k);
    assert Woken(run[k], h) && Served(run[k].handles[h]);
  }

  /** Once the spin is over no sender, however far along, writes for the handle, then or later. */
  lemma {:induction false} NoWriteAfterClose(run: seq<State>, k: nat, j: nat, h: nat, t: nat)
    requires Run(run) && k <= j < |run| && h < |run[k].handles| && run[k].handles[h].phase == Closed
    requires t < |run[j].senders|
    ensures h < |run[j].handles| && run[j].handles[h].phase == Closed && run[j].handles[h].pending
    ensures run[j].senders[t] != Won(h)
    decreases j - k
  {
    hide Inv, Enabled, Apply;
    if k < j {
      assert Next(run[j - 1], run[j - 1 + 1]);
      var step :| Enabled(run[j - 1], step) && run[j] == Apply(run[j - 1], step);
      RunInv(run, j - 1);
      StaysClosed(run[j - 1], step, h);
      NoWriteAfterClose(run, k, j - 1, h, t);
    }
    RunInv(run, j);
    ClosedFacts(run[j], h, t);
  }

  lemma ClosedFacts(s: State, h: nat, t: nat)
    requires Inv(s) && h < |s.handles| && s.handles[h].phase == Closed && t < |s.senders|
    ensures s.handles[h].pending && s.senders[t] != Won(h)
  {
  }

  lemma StaysClosed(s: State, step: Step, h: nat)
    requires Inv(s) && Enabled(s, step)
    ensures var s' := Apply(s, step);
      && |s'.senders| == |s.senders|
      && (h < |s.handles| && s.handles[h].phase == Closed ==> h < |s'.handles| && s'.handles[h].phase == Closed)
  {
  }
}
