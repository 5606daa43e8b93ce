/**
  The portable barrier of `libuv/src/thread-common.c`: any number of threads and rounds.  What a
  thread does between taking the mutex and giving it up or sleeping is one step.
 */
module Barrier {

  datatype Pc =
    | Outside
    | Entering             // has called, or has been woken while a round was emptying
    | AsleepOut            // sleeps until the round before has emptied
    | AsleepIn(round: nat) // sleeps in its round
    | AwakeIn(round: nat)  // has been woken in its round

  /** The history of a round: how many have entered, how many have left, and how many of them got 1. */
  datatype Round = Round(entered: nat, left: nat, ones: nat)

  datatype State = State(threshold: nat, inside: nat, out: nat, pcs: seq<Pc>, rounds: seq<Round>)

  /** `uv_barrier_init` */
  predicate Start(s: State) {
    && s.threshold > 0 && s.inside == 0 && s.out == 0 && s.rounds == [Round(0, 0, 0)]
    && forall t :: 0 <= t < |s.pcs| ==> s.pcs[t] == Outside
  }

  // ----- steps -----

  function Woken(pc: Pc): Pc {
    match pc
    case AsleepOut => Entering
    case AsleepIn(k) => AwakeIn(k)
    case _ => pc
  }

  /** `uv_cond_broadcast` */
  function Broadcast(pcs: seq<Pc>): (r: seq<Pc>)
    ensures |r| == |pcs|
  {
    seq(|pcs|, t requires 0 <= t < |pcs| => Woken(pcs[t]))
  }

  /** The end of `uv_barrier_wait` in round `k`: the last to leave wakes those who wait for the next round. */
  function Leave(s: State, t: nat, k: nat): State
    requires t < |s.pcs| && k < |s.rounds| && s.out > 0
  {
    var r := s.rounds[k];
    var last := s.out == 1;
    var rounds := s.rounds[k := Round(r.entered, r.left + 1, if last then r.ones + 1 else r.ones)];
    s.(out := s.out - 1,
       pcs := (if last then Broadcast(s.pcs) else s.pcs)[t := Outside],
       rounds := if last then rounds + [Round(0, 0, 0)] else rounds)
  }

  /** A thread has the mutex and `out` is 0: it enters round `k` and completes it or sleeps. */
  function Arrive(s: State, t: nat, k: nat): State
    requires t < |s.pcs| && k < |s.rounds| && s.threshold > 0
  {
    var r := s.rounds[k];
    var s1 := s.(rounds := s.rounds[k := r.(entered := r.entered + 1)]);
    if s.inside + 1 == s.threshold then Leave(s1.(inside := 0, out := s.threshold, pcs := Broadcast(s.pcs)), t, k)
    else s1.(inside := s.inside + 1, pcs := s.pcs[t := AsleepIn(k)])
  }

  datatype Step = Call(t: nat) | Enter(t: nat) | Recheck(t: nat) | Spurious(t: nat)

  predicate Enabled(s: State, step: Step) {
    && s.rounds != [] && s.threshold > 0 && step.t < |s.pcs|
    && match step
       case Call(t) => s.pcs[t] == Outside
       case Enter(t) => s.pcs[t] == Entering
       case Recheck(t) => s.pcs[t].AwakeIn? && (s.inside == 0 ==> s.pcs[t].round < |s.rounds| && s.out > 0)
       case Spurious(t) => s.pcs[t] == AsleepOut || s.pcs[t].AsleepIn?
  }

  function Apply(s: State, step: Step): State
    requires Enabled(s, step)
  {
    match step
    case Call(t) => s.(pcs := s.pcs[t := Entering])
    case Enter(t) => if s.out != 0 then s.(pcs := s.pcs[t := AsleepOut]) else Arrive(s, t, |s.rounds| - 1)
    case Recheck(t) =>
      if s.inside != 0 then s.(pcs := s.pcs[t := AsleepIn(s.pcs[t].round)]) else Leave(s, t, s.pcs[t].round)
    case Spurious(t) => s.(pcs := s.pcs[t := Woken(s.pcs[t])])
  }

  // ----- invariant -----

  /** Whether a thread has entered its round and not left it. */
  function Waits(pc: Pc): nat {
    if pc.AsleepIn? || pc.AwakeIn? then 1 else 0
  }

  function Count(pcs: seq<Pc>): nat {
    if pcs == [] then 0 else Waits(pcs[0]) + Count(pcs[1..])
  }

  predicate Finished(r: Round, threshold: nat) {
    r.entered == threshold && r.left == threshold && r.ones == 1
  }

  /** The round that is filling or emptying. */
  predicate Current(s: State, r: Round) {
    && r.ones == 0
    && if s.out > 0 then r.entered == s.threshold && r.left == s.threshold - s.out else r.entered == s.inside && r.left == 0
  }

  predicate Threads(s: State)
    requires s.rounds != []
  {
    forall t :: 0 <= t < |s.pcs| ==>
      && (Waits(s.pcs[t]) == 1 ==> s.pcs[t].round == |s.rounds| - 1)
      && (s.pcs[t] == AsleepOut ==> s.out > 0)
      && (s.pcs[t].AsleepIn? ==> s.out == 0)
  }

  predicate Inv(s: State) {
    && s.threshold > 0 && s.rounds != [] && (s.inside == 0 || s.out == 0) && s.inside < s.threshold && s.out < s.threshold
    && Count(s.pcs) == s.inside + s.out
    && (forall k :: 0 <= k < |s.rounds| - 1 ==> Finished(s.rounds[k], s.threshold))
    && Current(s, s.rounds[|s.rounds| - 1])
    && Threads(s)
  }

  lemma {:induction false} CountSet(pcs: seq<Pc>, t: nat, pc: Pc)
    requires t < |pcs|
    ensures Count(pcs[t := pc]) == Count(pcs) - Waits(pcs[t]) + Waits(pc)
  {
    if t > 0 {
      CountSet(pcs[1..], t - 1, pc);
      assert pcs[t := pc][1..] == pcs[1..][t - 1 := pc];
    }
  }

  lemma {:induction false} CountWoken(pcs: seq<Pc>)
    ensures Count(Broadcast(pcs)) == Count(pcs)
  {
    if pcs != [] {
      assert Broadcast(pcs)[1..] == Broadcast(pcs[1..]);
      CountWoken(pcs[1..]);
    }
  }

  lemma {:induction false} CountZero(pcs: seq<Pc>, t: nat)
    requires t < |pcs| && Count(pcs) == 0
    ensures Waits(pcs[t]) == 0
  {
    if t > 0 { CountZero(pcs[1..], t - 1); }
  }

  lemma {:induction false} CountPositive(pcs: seq<Pc>, t: nat)
    requires t < |pcs| && Waits(pcs[t]) == 1
    ensures Count(pcs) > 0
  {
    if t > 0 { CountPositive(pcs[1..], t - 1); }
  }

  /** A thread that leaves: what holds before, with the thread's share in `out` still there. */
  lemma LeaveKeeps(s: State, t: nat, k: nat)
    requires s.threshold > 0 && s.rounds != [] && k == |s.rounds| - 1 && t < |s.pcs|
    requires s.inside == 0 && 0 < s.out <= s.threshold && Count(s.pcs) == s.out - 1 + Waits(s.pcs[t])
    requires forall j :: 0 <= j < k ==> Finished(s.rounds[j], s.threshold)
    requires Current(s, s.rounds[k])
    requires forall u :: 0 <= u < |s.pcs| && u != t ==> !s.pcs[u].AsleepIn? && (s.pcs[u].AwakeIn? ==> s.pcs[u].round == k)
    ensures Inv(Leave(s, t, k))
  {
    var s' := Leave(s, t, k);
    if s.out == 1 {
      CountWoken(s.pcs);
      CountSet(Broadcast(s.pcs), t, Outside);
      forall u | 0 <= u < |s.pcs| ensures Waits(s'.pcs[u]) == 0 && s'.pcs[u] != AsleepOut { CountZero(s'.pcs, u); }
    } else {
      CountSet(s.pcs, t, Outside);
    }
  }

  lemma StepKeeps(s: State, step: Step)
    requires Inv(s) && Enabled(s, step)
    ensures Inv(Apply(s, step))
  {
    var t := step.t;
    match step
    case Call(_) => CountSet(s.pcs, t, Entering);
    case Spurious(_) => CountSet(s.pcs, t, Woken(s.pcs[t]));
    case Recheck(_) =>
      if s.inside != 0 {
        CountSet(s.pcs, t, AsleepIn(s.pcs[t].round));
      } else {
        LeaveKeeps(s, t, s.pcs[t].round);
      }
    case Enter(_) =>
      if s.out != 0 {
        CountSet(s.pcs, t, AsleepOut);
      } else {
        ArriveKeeps(s, t);
      }
  }

  lemma ArriveKeeps(s: State, t: nat)
    requires Inv(s) && t < |s.pcs| && s.pcs[t] == Entering && s.out == 0
    ensures Inv(Arrive(s, t, |s.rounds| - 1))
  {
    var k := |s.rounds| - 1;
    var r := s.rounds[k];
    if s.inside + 1 == s.threshold {
      CountWoken(s.pcs);
      LeaveKeeps(s.(rounds := s.rounds[k := r.(entered := r.entered + 1)], inside := 0, out := s.threshold,
                    pcs := Broadcast(s.pcs)), t, k);
    } else {
      CountSet(s.pcs, t, AsleepIn(k));
    }
  }

  /** A thread that rechecks can go on: `out` is above 0 as long as somebody is left in the round. */
  lemma RecheckEnabled(s: State, t: nat)
    requires Inv(s) && t < |s.pcs| && s.pcs[t].AwakeIn?
    ensures Enabled(s, Recheck(t))
  {
    CountPositive(s.pcs, t);
  }

  // ----- runs -----

  ghost predicate Next(s: State, s': State) {
    exists step :: Enabled(s, step) && s' == Apply(s, step)
  }

  ghost predicate Run(run: seq<State>) {
    |run| > 0 && Start(run[0]) && forall k :: 0 <= k < |run| - 1 ==> Next(run[k], run[k + 1])
  }

  lemma {:induction false} NobodyWaits(pcs: seq<Pc>)
    requires forall t :: 0 <= t < |pcs| ==> pcs[t] == Outside
    ensures Count(pcs) == 0
  {
    if pcs != [] { NobodyWaits(pcs[1..]); }
  }

  lemma {:induction false} RunInv(run: seq<State>, k: nat)
    requires Run(run) && k < |run|
    ensures Inv(run[k])
  {
    if k == 0 {
      NobodyWaits(run[0].pcs);
    } else {
      hide Inv, Enabled, Apply;
      RunInv(run, k - 1);
      assert Next(run[k - 1], run[k - 1 + 1]);
      var step :| Enabled(run[k - 1], step) && run[k] == Apply(run[k - 1], step);
      StepKeeps(run[k - 1], step);
    }
  }

  /**
    In every run: threads enter or leave, never both; nobody leaves a round that is not full;
    and exactly `threshold` leave every round that is over, exactly one of them with 1.
   */
  lemma Rounds(run: seq<State>, k: nat)
    requires Run(run) && k < |run|
    ensures var s := run[k];
      && (s.inside == 0 || s.out == 0) && s.rounds != []
      && (forall j :: 0 <= j < |s.rounds| ==>
            && s.rounds[j].left <= s.rounds[j].entered <= s.threshold
            && (s.rounds[j].left > 0 ==> s.rounds[j].entered == s.threshold)
            && s.rounds[j].ones == if s.rounds[j].left == s.threshold then 1 else 0)
      && forall j :: 0 <= j < |s.rounds| - 1 ==> Finished(s.rounds[j], s.threshold)
  {
    RunInv(run, k);
    var s := run[k];
    forall j | 0 <= j < |s.rounds|
      ensures s.rounds[j].left <= s.rounds[j].entered <= s.threshold
      ensures s.rounds[j].left > 0 ==> s.rounds[j].entered == s.threshold
      ensures s.rounds[j].ones == if s.rounds[j].left == s.threshold then 1 else 0
    {
      if j < |s.rounds| - 1 { assert Finished(s.rounds[j], s.threshold); }
    }
  }

  /**
    No wakeup is lost: when every thread is outside or asleep, nobody waits for a round to
    empty, and those who sleep are the fewer than `threshold` who have entered the current round.
   */
  lemma OnlyTooFewSleep(run: seq<State>, k: nat)
    requires Run(run) && k < |run|
    requires forall t :: 0 <= t < |run[k].pcs| ==>
      run[k].pcs[t] == Outside || run[k].pcs[t] == AsleepOut || run[k].pcs[t].AsleepIn?
    ensures run[k].out == 0 && Count(run[k].pcs) == run[k].inside < run[k].threshold
    ensures forall t :: 0 <= t < |run[k].pcs| ==> run[k].pcs[t] != AsleepOut
  {
    RunInv(run, k);
    var s := run[k];
    if s.out > 0 {
      SomebodyWaits(s.pcs);
    }
  }

  lemma {:induction false} SomebodyWaits(pcs: seq<Pc>)
    requires Count(pcs) > 0
    ensures exists t :: 0 <= t < |pcs| && Waits(pcs[t]) == 1
  {
    if Waits(pcs[0]) == 0 {
      SomebodyWaits(pcs[1..]);
      var t :| 0 <= t < |pcs[1..]| && Waits(pcs[1..][t]) == 1;
      assert Waits(pcs[t + 1]) == 1;
    }
  }
}
