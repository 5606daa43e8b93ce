/**
  One pass over the prepare, check or idle handles of a loop (`libuv/src/unix/loop-watcher.c`), on
  values: the list is moved to a local queue that is drained from its head, and the callbacks
  start and stop handles as they like.
 */
module WatcherPass {
  import opened Bytes
  import opened Sequences

  /** What a callback may do; closing a handle stops it. */
  datatype Op<T> = Start(handle: T, cb: Option<nat>) | Stop(handle: T)

  datatype Event<T> = Call(handle: T) | Did(op: Op<T>)

  /** The loop's list, what is left of the local queue, and what has happened in this pass. */
  datatype Watchers<T> = Watchers(list: seq<T>, rest: seq<T>, log: seq<Event<T>>)

  /** The sequence without any occurrence of `x`. */
  function Omit<T(==)>(s: seq<T>, x: T): (r: seq<T>)
    ensures |r| <= |s|
  {
    if s == [] then [] else if s[0] == x then Omit(s[1..], x) else [s[0]] + Omit(s[1..], x)
  }

  function Perform<T(==)>(w: Watchers<T>, op: Op<T>): (r: Watchers<T>)
    ensures |r.rest| <= |w.rest|
  {
    var log := w.log + [Did(op)];
    match op
    case Start(h, cb) =>
      if h in w.list || h in w.rest || cb.None? then Watchers(w.list, w.rest, log) else Watchers([h] + w.list, w.rest, log)
    case Stop(h) =>
      Watchers(Omit(w.list, h), Omit(w.rest, h), log)
  }

  function PerformAll<T(==)>(w: Watchers<T>, ops: seq<Op<T>>): (r: Watchers<T>)
    ensures |r.rest| <= |w.rest|
    decreases |ops|
  {
    if ops == [] then w else PerformAll(Perform(w, ops[0]), ops[1..])
  }

  /** The head of the local queue goes to the end of the list, and is called. */
  function CallHead<T>(w: Watchers<T>): Watchers<T>
    requires w.rest != []
  {
    Watchers(w.list + [w.rest[0]], w.rest[1..], w.log + [Call(w.rest[0])])
  }

  /** The rest of a pass, in which the `n`th callback performs `ops(n)`. */
  function Drain<T(==)>(w: Watchers<T>, ops: nat -> seq<Op<T>>, n: nat): Watchers<T>
    decreases |w.rest|
  {
    if w.rest == [] then w else Drain(PerformAll(CallHead(w), ops(n)), ops, n + 1)
  }

  lemma DrainStep<T>(w: Watchers<T>, ops: nat -> seq<Op<T>>, n: nat)
    ensures Drain(w, ops, n) == if w.rest == [] then w else Drain(PerformAll(CallHead(w), ops(n)), ops, n + 1)
  {
  }

  // -- What every pass keeps --------------------------------------------------------------------

  /** `x` comes before `y` in `all`. */
  ghost predicate Later<T>(all: seq<T>, x: T, y: T) {
    exists i, j :: 0 <= i < j < |all| && all[i] == x && all[j] == y
  }

  lemma NotLater<T>(all: seq<T>, x: T)
    requires Distinct(all)
    ensures !Later(all, x, x)
  {
  }

  ghost predicate RestOrdered<T>(all: seq<T>, rest: seq<T>) {
    && (forall y :: y in rest ==> y in all)
    && (forall i, j :: 0 <= i < j < |rest| ==> Later(all, rest[i], rest[j]))
  }

  ghost predicate CalledBefore<T(!new)>(all: seq<T>, w: Watchers<T>) {
    forall k :: 0 <= k < |w.log| && w.log[k].Call? ==>
      w.log[k].handle in all && w.log[k].handle !in w.rest && forall y :: y in w.rest ==> Later(all, w.log[k].handle, y)
  }

  ghost predicate CallsOrdered<T>(all: seq<T>, log: seq<Event<T>>) {
    forall i, j :: 0 <= i < j < |log| && log[i].Call? && log[j].Call? ==> Later(all, log[i].handle, log[j].handle)
  }

  ghost predicate Stopped<T>(log: seq<Event<T>>, h: T) {
    Did(Stop(h)) in log
  }

  ghost predicate CalledFirst<T>(log: seq<Event<T>>) {
    forall k :: 0 <= k < |log| && log[k].Call? ==> !Stopped(log[..k], log[k].handle)
  }

  ghost predicate Fate<T>(w: Watchers<T>, h: T) {
    if h in w.rest then !Stopped(w.log, h) else Stopped(w.log, h) || Call(h) in w.log
  }

  /** The state of a pass that began with the handles `all`. */
  ghost predicate PassInv<T(!new)>(all: seq<T>, w: Watchers<T>) {
    && RestOrdered(all, w.rest) && CalledBefore(all, w) && CallsOrdered(all, w.log) && CalledFirst(w.log)
    && forall h :: h in all ==> Fate(w, h)
  }

  lemma {:induction false} OmitIn<T>(s: seq<T>, x: T, y: T)
    ensures y in Omit(s, x) <==> y in s && y != x
  {
    if s != [] {
      assert s == [s[0]] + s[1..];
      OmitIn(s[1..], x, y);
    }
  }

  lemma {:induction false} OmitOrdered<T>(all: seq<T>, s: seq<T>, x: T)
    requires RestOrdered(all, s)
    ensures RestOrdered(all, Omit(s, x))
  {
    if s != [] {
      var t := Omit(s[1..], x);
      OmitOrdered(all, s[1..], x);
      forall y ensures y in t ==> y in s[1..] { OmitIn(s[1..], x, y); }
      if s[0] != x {
        forall j | 0 <= j < |t| ensures Later(all, s[0], t[j]) {
          assert t[j] in t && t[j] in s[1..];
        }
        assert Omit(s, x) == [s[0]] + t;
      }
    }
  }

  lemma FirstSnoc<T>(log: seq<Event<T>>, e: Event<T>)
    requires CalledFirst(log) && (e.Call? ==> !Stopped(log, e.handle))
    ensures CalledFirst(log + [e])
  {
    forall k | 0 <= k < |log + [e]| && (log + [e])[k].Call? ensures !Stopped((log + [e])[..k], (log + [e])[k].handle) {
      if k < |log| {
        assert (log + [e])[..k] == log[..k];
      } else {
        assert (log + [e])[..k] == log;
      }
    }
  }

  lemma CallKeeps<T(!new)>(all: seq<T>, w: Watchers<T>)
    requires Distinct(all) && PassInv(all, w) && w.rest != []
    ensures PassInv(all, CallHead(w))
  {
    var h, v := w.rest[0], CallHead(w);
    assert w.rest == [h] + v.rest;
    NotLater(all, h);
    forall y | y in v.rest ensures Later(all, h, y) {
      var j :| 0 <= j < |v.rest| && v.rest[j] == y;
      assert w.rest[j + 1] == y;
    }
    assert h in all && Fate(w, h);
    FirstSnoc(w.log, Call(h));
    forall k | 0 <= k < |v.log| && v.log[k].Call?
      ensures v.log[k].handle in all && v.log[k].handle !in v.rest && forall y :: y in v.rest ==> Later(all, v.log[k].handle, y)
    {
      if k < |w.log| { assert v.log[k] == w.log[k]; }
    }
    forall g | g in all ensures Fate(v, g) {
      assert Fate(w, g);
    }
  }

  lemma PerformKeeps<T(!new)>(all: seq<T>, w: Watchers<T>, op: Op<T>)
    requires PassInv(all, w)
    ensures PassInv(all, Perform(w, op))
  {
    var v := Perform(w, op);
    FirstSnoc(w.log, Did(op));
    if op.Stop? { OmitOrdered(all, w.rest, op.handle); }
    forall y ensures y in v.rest <==> y in w.rest && !(op.Stop? && y == op.handle) {
      OmitIn(w.rest, op.handle, y);
    }
    forall k | 0 <= k < |v.log| && v.log[k].Call? ensures k < |w.log| && v.log[k] == w.log[k] {
    }
    forall g | g in all ensures Fate(v, g) {
      assert Fate(w, g);
    }
  }

  lemma {:induction false} PerformAllKeeps<T(!new)>(all: seq<T>, w: Watchers<T>, ops: seq<Op<T>>)
    requires PassInv(all, w)
    ensures PassInv(all, PerformAll(w, ops))
    decreases |ops|
  {
    hide PassInv;
    if ops != [] {
      PerformKeeps(all, w, ops[0]);
      PerformAllKeeps(all, Perform(w, ops[0]), ops[1..]);
    }
  }

  lemma {:induction false} DrainKeeps<T(!new)>(all: seq<T>, w: Watchers<T>, ops: nat -> seq<Op<T>>, n: nat)
    requires Distinct(all) && PassInv(all, w)
    ensures PassInv(all, Drain(w, ops, n)) && Drain(w, ops, n).rest == []
    decreases |w.rest|
  {
    hide PassInv;
    if w.rest != [] {
      CallKeeps(all, w);
      PerformAllKeeps(all, CallHead(w), ops(n));
      DrainKeeps(all, PerformAll(CallHead(w), ops(n)), ops, n + 1);
    }
  }

  // -- Main results -----------------------------------------------------------------------------

  /** What happened to a handle in a pass: one call, with no stop before it, or a stop and no call. */
  ghost predicate CalledOnce<T>(log: seq<Event<T>>, h: T) {
    exists k :: 0 <= k < |log| && log[k] == Call(h) && Call(h) !in log[..k] && Call(h) !in log[k + 1..] && !Stopped(log[..k], h)
  }

  lemma StartInv<T(!new)>(all: seq<T>)
    ensures PassInv(all, Watchers([], all, []))
  {
  }

  /**
    A pass calls every handle that was active at its start exactly once, unless the handle was
    stopped before its turn; then it is not called in this pass, even if it was started again.
   */
  lemma EveryHandleOnce<T(!new)>(all: seq<T>, ops: nat -> seq<Op<T>>, h: T)
    requires Distinct(all) && h in all
    ensures
      var log := Drain(Watchers([], all, []), ops, 0).log;
      CalledOnce(log, h) || (Call(h) !in log && Stopped(log, h))
  {
    hide Drain;
    StartInv(all);
    DrainKeeps(all, Watchers([], all, []), ops, 0);
    var w := Drain(Watchers([], all, []), ops, 0);
    assert Fate(w, h);
    NotLater(all, h);
    if Call(h) in w.log {
      var k :| 0 <= k < |w.log| && w.log[k] == Call(h);
      assert CalledOnce(w.log, h) by {
        assert forall i :: 0 <= i < |w.log| && w.log[i] == Call(h) ==> i == k;
      }
    }
  }

  /** A handle that was not active at the start of a pass is not called in it. */
  lemma NoneStartedInPass<T(!new)>(all: seq<T>, ops: nat -> seq<Op<T>>, h: T)
    requires Distinct(all) && h !in all
    ensures Call(h) !in Drain(Watchers([], all, []), ops, 0).log
  {
    hide Drain;
    StartInv(all);
    DrainKeeps(all, Watchers([], all, []), ops, 0);
  }

  /** The calls come in the order of the list. */
  lemma CallsInOrder<T(!new)>(all: seq<T>, ops: nat -> seq<Op<T>>)
    requires Distinct(all)
    ensures CallsOrdered(all, Drain(Watchers([], all, []), ops, 0).log)
  {
    hide Drain;
    StartInv(all);
    DrainKeeps(all, Watchers([], all, []), ops, 0);
  }

  /** Callbacks that start and stop nothing leave the list as it was. */
  lemma {:induction false} QuietPass<T>(w: Watchers<T>, ops: nat -> seq<Op<T>>, n: nat)
    requires forall k :: ops(k) == []
    ensures Drain(w, ops, n).list == w.list + w.rest
    decreases |w.rest|
  {
    if w.rest != [] {
      QuietPass(CallHead(w), ops, n + 1);
      assert w.list + [w.rest[0]] + w.rest[1..] == w.list + w.rest;
    }
  }
}
