/**
  The timers of `libuv/src/timer.c`: handles in the heap of `libuv/src/heap-inl.h`, ordered by
  time and, at the same time, by the order in which they were started.
 */
module Timers {
  import opened Bytes
  import opened BinaryHeap

  const UINT64_MAX := 0xFFFF_FFFF_FFFF_FFFF
  const INT_MAX := 0x7FFF_FFFF
  const UV_EINVAL := -22

  /** The fields of a `uv_timer_t` beside its heap links; `hasCb` says that `timer_cb` is not null. */
  datatype Timer = Timer(timeout: u64, repeat: u64, startId: u64, hasCb: bool, active: bool, closing: bool)

  type Handle = Node<Timer>

  /** `timer_less_than` */
  predicate Less(a: Timer, b: Timer) {
    if a.timeout < b.timeout then true
    else if b.timeout < a.timeout then false
    else a.startId < b.startId
  }

  lemma LessIsStrict()
    ensures Strict(Less)
  {
  }

  /** The time `timeout` from `time` on, or the end of time. */
  function After(time: u64, timeout: u64): u64 {
    if time + timeout > UINT64_MAX then UINT64_MAX else time + timeout
  }

  /** How long until a timer is due. */
  function DueIn(time: u64, t: Timer): u64 {
    if time >= t.timeout then 0 else t.timeout - time
  }

  class Loop {
    var time: u64
    var counter: u64
    const heap: Heap<Timer>
    ghost const handles: set<Handle>

    /** The active handles are the ones in the heap. */
    ghost predicate Valid()
      reads this, heap, heap.repr, handles
    {
      && heap.Valid(Less) && heap.repr <= handles
      && forall h :: h in handles ==> (h.data.active <==> h in heap.repr) && (h.data.active ==> h.data.hasCb)
    }

    constructor (ghost handles: set<Handle>)
      requires forall h :: h in handles ==> !h.data.active
      ensures Valid() && this.handles == handles && heap.repr == {} && fresh(heap)
    {
      time, counter := 0, 0;
      heap := new Heap(Less);
      this.handles := handles;
    }

    /** `uv_timer_stop` */
    method Stop(h: Handle)
      requires Valid() && h in handles
      modifies heap, heap.repr, h
      ensures Valid() && heap.repr == old(heap.repr) - {h} && h.data == old(h.data).(active := false)
      ensures old(h.data.active) ==> heap.nelts == old(heap.nelts) - 1 < UINT_MAX
      ensures !old(h.data.active) ==> heap.nelts == old(heap.nelts)
      ensures forall n :: n in handles && n != h ==> n.data == old(n.data)
    {
      if !h.data.active {
        return;
      }
      LessIsStrict();
      heap.Remove(h, Less);
      h.data := h.data.(active := false);
    }

    /** What `uv_timer_start` makes of a handle. */
    ghost function Started(t: Timer, timeout: u64, repeat: u64): Timer
      reads this
    {
      t.(timeout := After(time, timeout), repeat := repeat, startId := counter, hasCb := true, active := true)
    }

    /** `uv_timer_start` */
    method Start(h: Handle, hasCb: bool, timeout: u64, repeat: u64) returns (rc: int)
      requires Valid() && h in handles && (!h.data.active ==> heap.nelts < UINT_MAX)
      modifies this`counter, heap, heap.repr, h
      ensures Valid()
      ensures old(h.data.closing) || !hasCb ==>
        rc == UV_EINVAL && heap.repr == old(heap.repr) && h.data == old(h.data) && counter == old(counter)
      ensures !old(h.data.closing) && hasCb ==>
        && rc == 0 && heap.repr == old(heap.repr) + {h} && h.data == old(Started(h.data, timeout, repeat))
        && counter == if old(counter) == UINT64_MAX then 0 else old(counter) + 1
      ensures old(h.data.active) ==> heap.nelts == old(heap.nelts)
      ensures forall n :: n in handles && n != h ==> n.data == old(n.data)
    {
      hide Valid, After;
      if h.data.closing || !hasCb {
        return UV_EINVAL;
      }
      if h.data.active {
        Stop(h);
      }
      var clamped := Clamped(timeout);
      Arm(h, clamped, repeat);
      rc := 0;
    }

    /** The lines of `uv_timer_start` that compute when the timer is due. */
    method Clamped(timeout: u64) returns (clamped: u64)
      ensures clamped == After(time, timeout)
    {
      clamped := (time + timeout) % 0x1_0000_0000_0000_0000;
      if clamped < timeout {
        clamped := UINT64_MAX;
      }
      WrapDetected(time, timeout);
    }

    /** The sum wraps around exactly when it comes out smaller than a summand. */
    static lemma WrapDetected(time: u64, timeout: u64)
      ensures var sum := (time + timeout) % 0x1_0000_0000_0000_0000;
        After(time, timeout) == if sum < timeout then UINT64_MAX else sum
    {
    }

    /** The assignments of `uv_timer_start` and the insertion. */
    method Arm(h: Handle, clamped: u64, repeat: u64)
      requires Valid() && h in handles && !h.data.active && heap.nelts < UINT_MAX
      modifies this`counter, heap, heap.repr, h
      ensures Valid() && heap.repr == old(heap.repr) + {h} && heap.nelts == old(heap.nelts) + 1
      ensures h.data == old(h.data).(timeout := clamped, repeat := repeat, startId := old(counter), hasCb := true, active := true)
      ensures counter == if old(counter) == UINT64_MAX then 0 else old(counter) + 1
      ensures forall n :: n in handles && n != h ==> n.data == old(n.data)
    {
      h.data := h.data.(timeout := clamped, repeat := repeat, startId := counter, hasCb := true, active := true);
      counter := (counter + 1) % 0x1_0000_0000_0000_0000;
      LessIsStrict();
      heap.Insert(h, Less);
    }

    /** `uv_timer_again`: the result of starting is not looked at, so a closing handle is only stopped. */
    method Again(h: Handle) returns (rc: int)
      requires Valid() && h in handles && (!h.data.active ==> heap.nelts < UINT_MAX)
      modifies this`counter, heap, heap.repr, h
      ensures Valid()
      ensures !old(h.data.hasCb) ==> rc == UV_EINVAL
      ensures old(h.data.hasCb) ==> rc == 0
      ensures old(h.data.hasCb) && old(h.data.repeat) > 0 && old(h.data.closing) ==>
        heap.repr == old(heap.repr) - {h} && h.data == old(h.data).(active := false) && counter == old(counter)
      ensures old(h.data.hasCb) && old(h.data.repeat) > 0 && !old(h.data.closing) ==>
        heap.repr == old(heap.repr) + {h} && h.data == old(Started(h.data, h.data.repeat, h.data.repeat))
      ensures !old(h.data.hasCb) || old(h.data.repeat) == 0 ==>
        heap.repr == old(heap.repr) && h.data == old(h.data) && counter == old(counter)
      ensures forall n :: n in handles && n != h ==> n.data == old(n.data)
    {
      if !h.data.hasCb {
        return UV_EINVAL;
      }
      if h.data.repeat != 0 {
        Stop(h);
        var r := Start(h, h.data.hasCb, h.data.repeat, h.data.repeat);
      }
      rc := 0;
    }

    /**
      `uv__next_timeout`: -1 without active timers, and otherwise the time to the earliest of
      them, at most INT_MAX.
     */
    method NextTimeout() returns (r: int)
      requires Valid()
      ensures heap.repr == {} <==> r == -1
      ensures heap.repr != {} ==> 0 <= r <= INT_MAX
      ensures forall h :: h in heap.repr ==> r <= DueIn(time, h.data)
      ensures heap.repr != {} ==> r == INT_MAX || exists h :: h in heap.repr && r == DueIn(time, h.data)
    {
      LessIsStrict();
      heap.MinIsLeast(Less);
      if heap.min == null {
        return -1;
      }
      var handle := heap.min;
      if handle.data.timeout <= time {
        return 0;
      }
      var diff := handle.data.timeout - time;
      if diff > INT_MAX {
        diff := INT_MAX;
      }
      return diff;
    }

    ghost function Data(): map<Handle, Timer>
      reads handles
    {
      map h | h in handles :: h.data
    }

    /** `uv_timer_stop(handle); uv_timer_again(handle);` */
    method Fire(h: Handle)
      requires Valid() && h in heap.repr && !h.data.closing
      modifies this`counter, heap, heap.repr
      ensures Valid() && Data() == old(Data())[h := h.data]
      ensures heap.repr == if old(h.data.repeat) > 0 then old(heap.repr) else old(heap.repr) - {h}
      ensures old(h.data.repeat) > 0 ==> h.data == old(Started(h.data, h.data.repeat, h.data.repeat))
      ensures old(h.data.repeat) == 0 ==> h.data == old(h.data).(active := false)
      ensures !h.data.closing && h in Data()
    {
      hide Valid;
      IsActive(h);
      Stop(h);
      var rc := Again(h);
    }

    lemma IsActive(h: Handle)
      requires Valid() && h in heap.repr
      ensures h in handles && h.data.active && h.data.hasCb && heap.nelts <= UINT_MAX
    {
    }

    /** `uv__run_timers`, with callbacks that do not touch timers; `fired` are the callbacks called. */
    method RunTimers() returns (fired: seq<Handle>, ghost before: map<Handle, Timer>)
      requires Valid() && time < UINT64_MAX && NoneClosing(Data(), heap.repr)
      modifies this`counter, heap, heap.repr
      ensures Valid() && before == old(Data())
      ensures Done(before, old(heap.repr), Data(), heap.repr, time, fired)
      ensures Due(Data(), heap.repr, time) == {} && (set h | h in fired) == Due(before, old(heap.repr), time)
    {
      hide Done, Due, Valid, Data, Less;
      fired, before := [], Data();
      ghost var a0 := heap.repr;
      LeastOf();
      DoneStart(before, a0, time);
      while true
        invariant Valid() && Done(before, a0, Data(), heap.repr, time, fired) && heap.repr <= a0
        invariant NoneClosing(Data(), heap.repr)
        decreases |Due(Data(), heap.repr, time)|
      {
        LeastOf();
        if heap.min == null {
          DoneEnd(Data(), heap.repr, time);
          break;
        }
        var handle := heap.min;
        if handle.data.timeout > time {
          DoneEnd(Data(), heap.repr, time);
          break;
        }
        ghost var d, a := Data(), heap.repr;
        Fire(handle);
        LeastOf();
        DoneStep(before, a0, d, a, Data(), heap.repr, time, fired, handle);
        fired := fired + [handle];
      }
      AllFired(before, a0, Data(), heap.repr, time, fired);
    }

    /** The root of the heap, seen from `Data`. */
    lemma LeastOf()
      requires Valid()
      ensures heap.repr <= Data().Keys && (heap.min == null <==> heap.repr == {})
      ensures forall h :: h in heap.repr ==> Data()[h] == h.data
      ensures heap.min != null ==> heap.min in heap.repr && Least(Data(), heap.repr, heap.min)
    {
      LessIsStrict();
      heap.MinIsLeast(Less);
    }
  }

  // ----- a pass over the timers -----

  ghost predicate NoneClosing(d: map<Handle, Timer>, a: set<Handle>) {
    forall h :: h in a && h in d ==> !d[h].closing
  }

  ghost predicate Least(d: map<Handle, Timer>, a: set<Handle>, m: Handle) {
    m in d && forall h :: h in a && h in d ==> !Less(d[h], d[m])
  }

  /** The handles that are due. */
  ghost function Due(d: map<Handle, Timer>, a: set<Handle>, time: u64): set<Handle> {
    set h | h in a && h in d && d[h].timeout <= time
  }

  /** What is left of a timer after it has fired. */
  ghost predicate Fired(before: Timer, now: Timer, active: bool, time: u64) {
    && active == (before.repeat > 0) && now.active == active && now.repeat == before.repeat
    && (active ==> now.timeout == After(time, before.repeat) > time)
  }

  /** Each handle that was due has fired once or is still due. */
  ghost predicate Split(d0: map<Handle, Timer>, a0: set<Handle>, d: map<Handle, Timer>, a: set<Handle>, time: u64,
                        fired: seq<Handle>) {
    && (forall i, j :: 0 <= i < j < |fired| ==> fired[i] != fired[j])
    && Due(d0, a0, time) == (set h | h in fired) + Due(d, a, time)
    && (forall h :: h in fired ==> h !in Due(d, a, time))
  }

  /** The handles that have fired are stopped or restarted, the others are as they were. */
  ghost predicate Changed(d0: map<Handle, Timer>, a0: set<Handle>, d: map<Handle, Timer>, a: set<Handle>, time: u64,
                          fired: seq<Handle>) {
    && d.Keys == d0.Keys && a0 <= d0.Keys && a <= d.Keys
    && (forall h :: h in fired ==> h in d && h in d0 && Fired(d0[h], d[h], h in a, time))
    && (forall h :: h in d && h !in fired ==> d[h] == d0[h] && (h in a <==> h in a0))
  }

  /** The order of firing is the order of the heap; what is still due comes later. */
  ghost predicate InTurn(d0: map<Handle, Timer>, d: map<Handle, Timer>, a: set<Handle>, time: u64, fired: seq<Handle>) {
    && (forall i, j :: 0 <= i < j < |fired| && fired[i] in d0 && fired[j] in d0 ==> !Less(d0[fired[j]], d0[fired[i]]))
    && (forall i, h :: 0 <= i < |fired| && fired[i] in d0 && h in Due(d, a, time) && h in d0 ==> !Less(d0[h], d0[fired[i]]))
  }

  /** A pass so far. */
  ghost predicate Done(d0: map<Handle, Timer>, a0: set<Handle>, d: map<Handle, Timer>, a: set<Handle>, time: u64,
                       fired: seq<Handle>) {
    Split(d0, a0, d, a, time, fired) && Changed(d0, a0, d, a, time, fired) && InTurn(d0, d, a, time, fired)
  }

  lemma DoneStart(d: map<Handle, Timer>, a: set<Handle>, time: u64)
    requires a <= d.Keys
    ensures Done(d, a, d, a, time, [])
  {
  }

  lemma DoneEnd(d: map<Handle, Timer>, a: set<Handle>, time: u64)
    requires a <= d.Keys
    requires a == {} || exists m :: m in a && Least(d, a, m) && d[m].timeout > time
    ensures Due(d, a, time) == {}
  {
  }

  lemma AllFired(d0: map<Handle, Timer>, a0: set<Handle>, d: map<Handle, Timer>, a: set<Handle>, time: u64, fired: seq<Handle>)
    requires Done(d0, a0, d, a, time, fired) && Due(d, a, time) == {}
    ensures (set h | h in fired) == Due(d0, a0, time)
  {
  }

  /** The data and the heap after `h`, which is due, has fired. */
  ghost predicate Fires(d: map<Handle, Timer>, a: set<Handle>, d': map<Handle, Timer>, a': set<Handle>, time: u64, h: Handle) {
    && time < UINT64_MAX && h in a && h in d && h in d' && d[h].timeout <= time
    && d' == d[h := d'[h]] && a' == (if d[h].repeat > 0 then a else a - {h})
    && if d[h].repeat > 0
       then d'[h].timeout == After(time, d[h].repeat) && d'[h].active && d'[h].repeat == d[h].repeat
       else d'[h] == d[h].(active := false)
  }

  lemma FiresDue(d: map<Handle, Timer>, a: set<Handle>, d': map<Handle, Timer>, a': set<Handle>, time: u64, h: Handle)
    requires Fires(d, a, d', a', time, h)
    ensures h in Due(d, a, time) && Due(d', a', time) == Due(d, a, time) - {h}
    ensures |Due(d', a', time)| < |Due(d, a, time)|
  {
    assert Due(d', a', time) == Due(d, a, time) - {h};
  }

  lemma SplitStep(d0: map<Handle, Timer>, a0: set<Handle>, d: map<Handle, Timer>, a: set<Handle>, d': map<Handle, Timer>,
                  a': set<Handle>, time: u64, fired: seq<Handle>, h: Handle)
    requires Split(d0, a0, d, a, time, fired) && h in Due(d, a, time) && Due(d', a', time) == Due(d, a, time) - {h}
    ensures Split(d0, a0, d', a', time, fired + [h])
  {
    hide Due;
    assert (set n | n in fired + [h]) == (set n | n in fired) + {h};
    assert h !in fired;
  }

  lemma ChangedStep(d0: map<Handle, Timer>, a0: set<Handle>, d: map<Handle, Timer>, a: set<Handle>, d': map<Handle, Timer>,
                    a': set<Handle>, time: u64, fired: seq<Handle>, h: Handle)
    requires Changed(d0, a0, d, a, time, fired) && Fires(d, a, d', a', time, h) && h !in fired
    ensures Changed(d0, a0, d', a', time, fired + [h])
  {
    assert forall n :: n in fired + [h] <==> n in fired || n == h;
  }

  lemma InTurnStep(d0: map<Handle, Timer>, d: map<Handle, Timer>, a: set<Handle>, d': map<Handle, Timer>,
                   a': set<Handle>, time: u64, fired: seq<Handle>, h: Handle)
    requires InTurn(d0, d, a, time, fired) && Least(d, a, h) && h in Due(d, a, time)
    requires Due(d', a', time) == Due(d, a, time) - {h}
    requires forall n :: n in Due(d, a, time) ==> n in d && n in a && n in d0 && d0[n] == d[n]
    ensures InTurn(d0, d', a', time, fired + [h])
  {
    hide Due;
    var f := fired + [h];
    assert forall i :: 0 <= i < |fired| ==> f[i] == fired[i];
  }

  /** The least handle fires and is no longer due. */
  lemma DoneStep(d0: map<Handle, Timer>, a0: set<Handle>, d: map<Handle, Timer>, a: set<Handle>, d': map<Handle, Timer>,
                 a': set<Handle>, time: u64, fired: seq<Handle>, h: Handle)
    requires Done(d0, a0, d, a, time, fired) && Fires(d, a, d', a', time, h) && Least(d, a, h)
    ensures Done(d0, a0, d', a', time, fired + [h])
    ensures |Due(d', a', time)| < |Due(d, a, time)|
  {
    FiresDue(d, a, d', a', time, h);
    StillDue(d0, a0, d, a, time, fired);
    hide Due, Fires, InTurn, Least;
    SplitStep(d0, a0, d, a, d', a', time, fired, h);
    ChangedStep(d0, a0, d, a, d', a', time, fired, h);
    InTurnStep(d0, d, a, d', a', time, fired, h);
  }

  lemma StillDue(d0: map<Handle, Timer>, a0: set<Handle>, d: map<Handle, Timer>, a: set<Handle>, time: u64, fired: seq<Handle>)
    requires Done(d0, a0, d, a, time, fired)
    ensures forall n :: n in Due(d, a, time) ==> n in d && n in a && n in d0 && d0[n] == d[n] && n !in fired
  {
  }
}
