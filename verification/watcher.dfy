/**
  The prepare, check and idle handles of a loop, `libuv/src/unix/loop-watcher.c`, on the circular
  lists of `libuv/src/queue.h`.
 */
module LoopWatcher {
  import opened Bytes
  import opened Sequences
  import opened Queue
  import opened WatcherPass

  const EINVAL := -22

  /** A loop with one kind of watchers: `handles` is the header of their list. */
  class Loop {
    const handles: Node
    /** The fields of every node that belongs to the loop. */
    ghost var links: Cells
    /** What is on the list of `handles`. */
    ghost var list: seq<Node>
    /** The local queue of the pass that is being made, its header first; empty outside a pass. */
    ghost var local: seq<Node>
    /** What has happened since the pass began. */
    ghost var log: seq<Event<Node>>

    ghost predicate Fields()
      reads this, links.Keys
    {
      forall x :: x in links ==> x.next == links[x].next && x.prev == links[x].prev && x.active == links[x].active && x.cb == links[x].cb
    }

    constructor ()
      ensures Valid() && list == [] && local == [] && fresh(links.Keys)
    {
      var h := new Node();
      handles := h;
      list, local, log := [], [], [];
      new;
      h.next, h.prev := h, h;
      links := map[h := Cell(h, h, false, None)];
    }

    // -- Fields of nodes, read and assigned ------------------------------------------------------------------

    method GetNext(x: Node) returns (v: Node?)
      requires Fields() && x in links
      ensures v == links[x].next
    {
      v := x.next;
    }

    method GetPrev(x: Node) returns (v: Node?)
      requires Fields() && x in links
      ensures v == links[x].prev
    {
      v := x.prev;
    }

    method GetCallback(x: Node) returns (v: Option<nat>)
      requires Fields() && x in links
      ensures v == links[x].cb == x.cb
    {
      v := x.cb;
    }

    method SetNext(x: Node, v: Node?)
      requires Fields() && x in links
      modifies this`links, x
      ensures Fields() && links == WithNext(old(links), x, v)
    {
      x.next := v;
      links := WithNext(links, x, v);
    }

    method SetPrev(x: Node, v: Node?)
      requires Fields() && x in links
      modifies this`links, x
      ensures Fields() && links == WithPrev(old(links), x, v)
    {
      x.prev := v;
      links := WithPrev(links, x, v);
    }

    method SetActive(x: Node, v: bool)
      requires Fields() && x in links
      modifies this`links, x
      ensures Fields() && links == old(links)[x := old(links)[x].(active := v)]
    {
      x.active := v;
      links := links[x := links[x].(active := v)];
    }

    method SetCallback(x: Node, v: Option<nat>)
      requires Fields() && x in links
      modifies this`links, x
      ensures Fields() && links == old(links)[x := old(links)[x].(cb := v)]
    {
      x.cb := v;
      links := links[x := links[x].(cb := v)];
    }

    ghost method Record(lists: (seq<Node>, seq<Node>), events: seq<Event<Node>>)
      requires Fields()
      modifies this`list, this`local, this`log
      ensures Fields() && list == lists.0 && local == lists.1 && log == events
    {
      list, local, log := lists.0, lists.1, events;
    }

    // -- The macros of queue.h ------------------------------------------------------------------

    method QueueInit(q: Node)
      requires Fields() && q in links
      modifies this`links, links.Keys
      ensures Fields() && links.Keys == old(links.Keys) && Ring(links, [q]) && Relinked(old(links), links, [q])
    {
      SetNext(q, q);
      SetPrev(q, q);
      assert LinkAt(links, [q], 0);
    }

    /** `QUEUE_ADD`: the list of `n` is put behind that of `h`. */
    method QueueAdd(h: Node, n: Node, ghost s: seq<Node>, ghost t: seq<Node>)
      requires Fields() && Ring(links, [h] + s) && Ring(links, [n] + t) && Apart([h] + s, [n] + t)
      modifies this`links, links.Keys
      ensures Fields() && links.Keys == old(links.Keys) && Ring(links, [h] + s + t) && Relinked(old(links), links, [h] + s + ([n] + t))
    {
      hide Fields, Ring, Relinked, Apart;
      AddFacts(links, h, s, n, t);
      var p := GetPrev(h);
      var first := GetNext(n);
      SetNext(p, first);
      first := GetNext(n);
      p := GetPrev(h);
      SetPrev(first, p);
      var last := GetPrev(n);
      SetPrev(h, last);
      last := GetPrev(h);
      SetNext(last, h);
    }

    /** The first half of `QUEUE_SPLIT`: `n` goes between the last node of the list of `h` and `q`. */
    method SplitTail(h: Node, q: Node, n: Node)
      requires Fields() && h in links && n in links && n != h
      requires var last := links[h].prev; last != null && last in links && last != n
      modifies this`links, links.Keys
      ensures Fields()
      ensures var m, last := old(links), old(links)[h].prev; links == WithNext(WithNext(WithPrev(m, n, last), last, n), n, q)
    {
      hide Fields;
      var last := GetPrev(h);
      SetPrev(n, last);
      last := GetPrev(n);
      SetNext(last, n);
      SetNext(n, q);
    }

    /** `QUEUE_SPLIT`: the list of `h` is cut before `q`, and the rest becomes the list of `n`. */
    method QueueSplit(h: Node, q: Node, n: Node, ghost c: seq<Node>, ghost k: nat)
      requires Fields() && Ring(links, c) && 1 <= k < |c| && h == c[0] && q == c[k] && n in links && n !in c
      modifies this`links, links.Keys
      ensures Fields() && links.Keys == old(links.Keys) && Ring(links, c[..k]) && Ring(links, [n] + c[k..]) && Relinked(old(links), links, [n] + c)
    {
      hide Fields, Ring, Relinked;
      SplitFacts(links, c, k, n);
      SplitTail(h, q, n);
      var p := GetPrev(q);
      SetPrev(h, p);
      p := GetPrev(h);
      SetNext(p, h);
      SetPrev(q, n);
    }

    /** `QUEUE_MOVE`: the whole list of `h` becomes that of `n`. */
    method QueueMove(h: Node, n: Node, ghost s: seq<Node>)
      requires Fields() && Ring(links, [h] + s) && n in links && n !in [h] + s
      modifies this`links, links.Keys
      ensures Fields() && links.Keys == old(links.Keys) && Ring(links, [h]) && Ring(links, [n] + s) && Relinked(old(links), links, [n] + ([h] + s))
    {
      hide Fields, Ring, Relinked;
      ghost var m, c := links, [h] + s;
      HeadOf(m, h, s);
      var q := GetNext(h);
      if h == q {
        assert c == [h] && [n] + s == [n];
        QueueInit(n);
        RingFrameOne(m, links, h, n);
      } else {
        QueueSplit(h, q, n, c, 1);
        assert c[..1] == [h] && c[1..] == s;
      }
    }

    /** `QUEUE_INSERT_HEAD`. */
    method QueueInsertHead(h: Node, q: Node, ghost s: seq<Node>)
      requires Fields() && Ring(links, [h] + s) && q in links && q !in [h] + s
      modifies this`links, links.Keys
      ensures Fields() && links.Keys == old(links.Keys) && Ring(links, [h] + ([q] + s)) && Relinked(old(links), links, [q] + ([h] + s))
    {
      hide Fields, Ring, Relinked;
      HeadFacts(links, h, s, q);
      var first := GetNext(h);
      SetNext(q, first);
      SetPrev(q, h);
      first := GetNext(q);
      SetPrev(first, q);
      SetNext(h, q);
    }

    /** `QUEUE_INSERT_TAIL`. */
    method QueueInsertTail(h: Node, q: Node, ghost s: seq<Node>)
      requires Fields() && Ring(links, [h] + s) && q in links && q !in [h] + s
      modifies this`links, links.Keys
      ensures Fields() && links.Keys == old(links.Keys) && Ring(links, [h] + (s + [q])) && Relinked(old(links), links, [q] + ([h] + s))
    {
      hide Fields, Ring, Relinked;
      TailFacts(links, h, s, q);
      SetNext(q, h);
      var last := GetPrev(h);
      SetPrev(q, last);
      last := GetPrev(q);
      SetNext(last, q);
      SetPrev(h, q);
    }

    /** `QUEUE_REMOVE` of the node at `k` of a list. */
    method QueueRemove(q: Node, ghost c: seq<Node>, ghost k: nat)
      requires Fields() && Ring(links, c) && 1 <= k < |c| && q == c[k]
      modifies this`links, links.Keys
      ensures Fields() && links.Keys == old(links.Keys) && Ring(links, c[..k] + c[k + 1..]) && Relinked(old(links), links, c)
    {
      hide Fields, Ring, Relinked;
      RemoveFacts(links, c, k);
      var next := GetNext(q);
      var prev := GetPrev(q);
      SetNext(prev, next);
      next := GetNext(q);
      prev := GetPrev(q);
      SetPrev(next, prev);
    }

    // -- The watchers ---------------------------------------------------------------------------

    /** The handles that wait for their turn in the pass. */
    ghost function Waiting(): seq<Node>
      reads this
    {
      Tail(local)
    }

    ghost predicate Valid()
      reads this, links.Keys
    {
      Fields() && Consistent(links, handles, list, local)
    }

    /** The initialised handles of the loop. */
    ghost predicate IsHandle(x: Node)
      reads this
    {
      x in links && x != handles && (local == [] || x != local[0])
    }

    ghost function View(): Watchers<Node>
      reads this
    {
      Watchers(list, Waiting(), log)
    }

    /** `uv_##name##_init`: a handle that is not active. */
    method NewHandle() returns (x: Node)
      requires Valid()
      modifies this`links
      ensures Valid() && fresh(x) && IsHandle(x) && links == old(links)[x := Cell(null, null, false, None)]
    {
      x := new Node();
      NewNode(links, handles, list, local, x);
      links := links[x := Cell(null, null, false, None)];
    }

    method IsActive(x: Node) returns (b: bool)
      requires Valid() && x in links
      ensures b <==> x in list || x in Waiting()
      ensures b == x.active == links[x].active
    {
      hide Ring;
      b := x.active;
    }

    /** `uv_##name##_start`. */
    method Start(x: Node, cb: Option<nat>) returns (r: int)
      requires Valid() && IsHandle(x)
      modifies this`links, this`list, this`local, this`log, links.Keys
      ensures Valid() && links.Keys == old(links.Keys) && local == old(local) && log == old(log)
      ensures r == if old(x in list || x in Waiting()) || cb.Some? then 0 else EINVAL
      ensures
        if old(x in list || x in Waiting()) || cb.None? then
          links == old(links) && list == old(list)
        else
          list == [x] + old(list) && links[x].cb == cb
    {
      hide Ring, Relinked, Consistent, Fields;
      var active := IsActive(x);
      if active { return 0; }
      if cb.None? { return EINVAL; }
      ghost var m := links;
      ActiveIff(m, handles, list, local, x);
      QueueInsertHead(handles, x, list);
      ghost var m1 := links;
      SetCallback(x, cb);
      SetActive(x, true);
      StartedConsistent(m, m1, handles, list, local, x, cb);
      Record(([x] + list, local), log);
      r := 0;
    }

    /** `uv_##name##_stop`: the handle leaves the list that it is on. */
    method Stop(x: Node)
      requires Valid() && IsHandle(x)
      modifies this`links, this`list, this`local, this`log, links.Keys
      ensures Valid() && links.Keys == old(links.Keys) && log == old(log)
      ensures list == Omit(old(list), x) && Waiting() == Omit(old(Waiting()), x)
      ensures if old(local) == [] then local == [] else local != [] && local[0] == old(local)[0]
    {
      hide Ring, Relinked, Consistent, Fields, Omit, Tail;
      var active := IsActive(x);
      if !active {
        OmitNone(list, x);
        OmitNone(Waiting(), x);
        return;
      }
      ghost var m := links;
      ghost var c, k := Located(m, handles, list, local, x);
      QueueRemove(x, c, k + 1);
      ghost var m1 := links;
      SetActive(x, false);
      if x in list {
        OnList(m, handles, list, local, x, k);
        StoppedOnList(m, m1, handles, list, local, x, k);
        OmitNone(Waiting(), x);
        Record((list[..k] + list[k + 1..], local), log);
      } else {
        OnLocal(m, handles, list, local, x, k);
        StoppedOnLocal(m, m1, handles, list, local, x, k);
        OmitNone(list, x);
        Record((list, local[..k + 1] + local[k + 2..]), log);
      }
    }

    /** A callback. */
    method Callback(ops: seq<Op<Node>>)
      requires Valid() && forall i :: 0 <= i < |ops| ==> IsHandle(ops[i].handle)
      modifies this, links.Keys
      ensures Valid() && links.Keys == old(links.Keys)
      ensures View() == PerformAll(old(View()), ops) && |Waiting()| <= |old(Waiting())|
      ensures if old(local) == [] then local == [] else local != [] && local[0] == old(local)[0]
    {
      hide Consistent, Fields, Omit, Tail;
      ghost var all := PerformAll(View(), ops);
      assert ops[0..] == ops;
      for i := 0 to |ops|
        invariant Valid() && links.Keys == old(links.Keys) && PerformAll(View(), ops[i..]) == all
        invariant if old(local) == [] then local == [] else local != [] && local[0] == old(local)[0]
      {
        assert ops[i..][0] == ops[i] && ops[i..][1..] == ops[i + 1..] && IsHandle(ops[i].handle);
        ghost var before := View();
        match ops[i] {
          case Start(x, cb) =>
            var _ := Start(x, cb);
          case Stop(x) =>
            Stop(x);
        }
        Record((list, local), log + [Did(ops[i])]);
        assert View() == Perform(before, ops[i]);
      }
    }

    /** `QUEUE_MOVE` of the list to the local queue. */
    method PassBegins(queue: Node)
      requires Valid() && local == [] && queue !in links && queue.next == null && queue.prev == null && !queue.active && queue.cb == None
      modifies this`links, this`list, this`local, this`log, links.Keys, queue
      ensures Valid() && links.Keys == old(links.Keys) + {queue} && queue != handles
      ensures local == [queue] + old(list) && list == [] && log == []
    {
      hide Consistent, Ring, Relinked;
      NewNode(links, handles, list, local, queue);
      links := links[queue := Cell(null, null, false, None)];
      ghost var m := links;
      ActiveIff(m, handles, list, local, queue);
      QueueMove(handles, queue, list);
      MovedConsistent(m, links, handles, list, queue);
      local, list, log := [queue] + list, [], [];
    }

    /** The head of the local queue goes to the end of the list, and its callback is called. */
    method TakeHead(queue: Node) returns (x: Node)
      requires Valid() && |local| > 1 && local[0] == queue
      modifies this`links, this`list, this`local, this`log, links.Keys
      ensures Valid() && links.Keys == old(links.Keys) && local != [] && local[0] == queue
      ensures x.cb.Some? && View() == CallHead(old(View()))
    {
      hide Consistent, Ring, Relinked, Fields;
      ghost var m, c := links, local;
      HeadTaken(m, handles, list, c);
      var head := GetNext(queue);
      x := head;
      QueueRemove(x, c, 1);
      ghost var m1 := links;
      HeadOut(m, m1, handles, list, c);
      QueueInsertTail(handles, x, list);
      HeadBack(m, m1, links, handles, list, c);
      Record((list + [x], c[..1] + c[2..]), log + [Call(x)]);
      var cb := GetCallback(x);
      assert cb.Some?;
    }

    /** The local queue is empty, and goes out of scope. */
    ghost method PassEnds(queue: Node)
      requires Valid() && local == [queue]
      modifies this`links, this`local
      ensures Valid() && links.Keys == old(links.Keys) - {queue} && local == []
    {
      EndedConsistent(links, handles, list, queue);
      links := links - {queue};
      local := [];
    }

    /** One turn of the loop of `uv__run_##name`, with the callback's doings. */
    method RunOne(queue: Node, ops: seq<Op<Node>>)
      requires Valid() && |local| > 1 && local[0] == queue && forall i :: 0 <= i < |ops| ==> IsHandle(ops[i].handle)
      modifies this, links.Keys
      ensures Valid() && links.Keys == old(links.Keys) && local != [] && local[0] == queue
      ensures View() == PerformAll(CallHead(old(View())), ops) && |Waiting()| < |old(Waiting())|
    {
      hide Consistent, Fields, PerformAll;
      var _ := TakeHead(queue);
      Callback(ops);
    }

    /**
      `uv__run_##name`, when the `n`th callback performs `ops(n)`: the loop ends, and the calls
      and the list it leaves are those of `Drain`.
     */
    method Run(ops: nat -> seq<Op<Node>>)
      requires Valid() && local == [] && forall n, i :: 0 <= i < |ops(n)| ==> IsHandle(ops(n)[i].handle)
      modifies this, links.Keys
      ensures Valid() && local == [] && links.Keys == old(links.Keys)
      ensures View() == Drain(Watchers([], old(list), []), ops, 0)
    {
      hide Consistent, Fields, PerformAll, Drain, CallHead;
      ghost var keys, all := links.Keys, list;
      var queue := new Node();
      PassBegins(queue);
      var n := 0;
      EmptyIff(links, handles, list, local);
      var q := GetNext(queue);
      while q != queue
        invariant Valid() && links.Keys == keys + {queue} && local != [] && local[0] == queue && queue !in keys
        invariant queue != handles && (q == queue <==> |local| == 1)
        invariant Drain(View(), ops, n) == Drain(Watchers([], all, []), ops, 0)
        decreases |Waiting()|
      {
        DrainStep(View(), ops, n);
        RunOne(queue, ops(n));
        n := n + 1;
        EmptyIff(links, handles, list, local);
        q := GetNext(queue);
      }
      assert local == [queue];
      DrainStep(View(), ops, n);
      PassEnds(queue);
    }
  }

  /** The active handles are those on one of the two lists, each once, and have a callback. */
  ghost predicate Consistent(links: Cells, handles: Node, list: seq<Node>, local: seq<Node>) {
    && Ring(links, [handles] + list) && (local == [] || Ring(links, local)) && Apart([handles] + list, local)
    && Activity(links, list, Tail(local))
  }

  ghost predicate Activity(links: Cells, list: seq<Node>, waiting: seq<Node>) {
    forall x :: x in links ==>
      (links[x].active ==> links[x].cb.Some?) && (links[x].active <==> x in list || x in waiting)
  }

  lemma ActivityFrame(m: Cells, m': Cells, list: seq<Node>, w: seq<Node>, list': seq<Node>, w': seq<Node>)
    requires Activity(m, list, w) && m'.Keys == m.Keys
    requires forall x :: x in m ==> m'[x].active == m[x].active && m'[x].cb == m[x].cb
    requires forall x :: x in list || x in w <==> x in list' || x in w'
    ensures Activity(m', list', w')
  {
  }

  ghost function Tail(local: seq<Node>): seq<Node> {
    if local == [] then [] else local[1..]
  }

  lemma SameLinks(m: Cells, m': Cells, c: seq<Node>)
    requires Ring(m, c) && forall x :: x in c && x in m ==> x in m' && m'[x].next == m[x].next && m'[x].prev == m[x].prev
    ensures Ring(m', c)
  {
    RingNodes(m, c);
    forall k | 0 <= k < |c| ensures LinkAt(m', c, k) {
      assert LinkAt(m, c, k);
      assert c[k] in c && After(c, k) in c;
    }
  }

  lemma NewNode(m: Cells, h: Node, list: seq<Node>, local: seq<Node>, x: Node)
    requires Consistent(m, h, list, local) && x !in m
    ensures Consistent(m[x := Cell(null, null, false, None)], h, list, local) && x != h && (local != [] ==> x != local[0])
  {
    var m' := m[x := Cell(null, null, false, None)];
    RingNodes(m, [h] + list);
    assert ([h] + list)[0] == h;
    assert forall y :: y in list ==> y in [h] + list;
    SameLinks(m, m', [h] + list);
    if local != [] {
      RingNodes(m, local);
      SameLinks(m, m', local);
    }
  }

  lemma ActiveIff(m: Cells, h: Node, list: seq<Node>, local: seq<Node>, x: Node)
    requires Consistent(m, h, list, local) && x in m
    ensures m[x].active <==> x in list || x in Tail(local)
    ensures x != h && (local == [] || x != local[0]) && !m[x].active ==> x !in [h] + list && x !in local
    ensures Ring(m, [h] + list) && (local != [] ==> Ring(m, local))
  {
    if local != [] { assert local == [local[0]] + Tail(local); }
  }

  lemma ApartWith(h: Node, x: Node, list: seq<Node>, local: seq<Node>)
    requires Apart([h] + list, local) && x !in local
    ensures Apart([h] + ([x] + list), local)
  {
    var c := [h] + ([x] + list);
    forall i, j | 0 <= i < |c| && 0 <= j < |local| ensures c[i] != local[j] {
      assert i != 1 ==> c[i] == ([h] + list)[if i == 0 then 0 else i - 1];
    }
  }

  lemma StartedConsistent(m: Cells, m1: Cells, h: Node, list: seq<Node>, local: seq<Node>, x: Node, cb: Option<nat>)
    requires Consistent(m, h, list, local) && x in m && x !in [h] + list && x !in local && cb.Some?
    requires Ring(m1, [h] + ([x] + list)) && Relinked(m, m1, [x] + ([h] + list))
    ensures
      var m2 := m1[x := m1[x].(cb := cb)];
      Consistent(m2[x := m2[x].(active := true)], h, [x] + list, local)
  {
    var m2 := m1[x := m1[x].(cb := cb)];
    var m3 := m2[x := m2[x].(active := true)];
    var c := [h] + ([x] + list);
    hide Ring, Apart, Relinked, Activity;
    SameLinks(m1, m3, c);
    ApartWith(h, x, list, local);
    if local != [] {
      RingFrame(m, m1, local, [x] + ([h] + list));
      SameLinks(m1, m3, local);
    }
    StartedActivity(m, m1, [x] + ([h] + list), list, Tail(local), x, cb);
  }

  lemma StartedActivity(m: Cells, m1: Cells, c: seq<Node>, list: seq<Node>, w: seq<Node>, x: Node, cb: Option<nat>)
    requires Activity(m, list, w) && Relinked(m, m1, c) && x in m && cb.Some?
    ensures x in m1
    ensures var m2 := m1[x := m1[x].(cb := cb)];
      Activity(m2[x := m2[x].(active := true)], [x] + list, w)
  {
  }

  lemma {:induction false} OmitNone(s: seq<Node>, x: Node)
    ensures x !in s ==> Omit(s, x) == s
    decreases |s|
  {
    if s != [] { OmitNone(s[1..], x); }
  }

  lemma {:induction false} OmitAt(s: seq<Node>, k: nat)
    requires k < |s| && Distinct(s)
    ensures Omit(s, s[k]) == Cut(s, k)
    decreases |s|
  {
    var t, x := s[1..], s[k];
    if k == 0 {
      assert x !in t;
      OmitNone(t, x);
    } else {
      assert Distinct(t) && t[k - 1] == x;
      OmitAt(t, k - 1);
      assert Cut(s, k) == [s[0]] + Cut(t, k - 1);
    }
  }

  lemma OnList(m: Cells, h: Node, list: seq<Node>, local: seq<Node>, x: Node, k: nat)
    requires Consistent(m, h, list, local) && k < |list| && x == list[k]
    ensures ([h] + list)[k + 1] == x && Omit(list, x) == Cut(list, k) && x !in Tail(local)
  {
    var c := [h] + list;
    assert c[k + 1] == x;
    assert Distinct(list) by {
      forall i, j | 0 <= i < j < |list| ensures list[i] != list[j] { assert c[i + 1] != c[j + 1]; }
    }
    OmitAt(list, k);
    forall i | 0 <= i < |Tail(local)| ensures Tail(local)[i] != x {
      assert Tail(local)[i] == local[i + 1];
    }
  }

  /** The list that an active handle is on, and its place there. */
  lemma Located(m: Cells, h: Node, list: seq<Node>, local: seq<Node>, x: Node) returns (c: seq<Node>, k: nat)
    requires Consistent(m, h, list, local) && x in m && m[x].active
    ensures Ring(m, c) && k + 1 < |c| && c[k + 1] == x
    ensures if x in list then k < |list| && list[k] == x && c == [h] + list else k < |Tail(local)| && Tail(local)[k] == x && c == local
  {
    if x in list {
      c := [h] + list;
      k :| 0 <= k < |list| && list[k] == x;
    } else {
      c := local;
      k :| 0 <= k < |Tail(local)| && Tail(local)[k] == x;
    }
  }

  /** What is left of a list without the node at `k`. */
  ghost function Cut(s: seq<Node>, k: nat): seq<Node>
    requires k < |s|
  {
    s[..k] + s[k + 1..]
  }

  lemma CutApart(c: seq<Node>, k: nat, d: seq<Node>)
    requires k < |c| && Apart(c, d)
    ensures Apart(Cut(c, k), d) && Apart(d, Cut(c, k))
  {
    assert forall i :: 0 <= i < |Cut(c, k)| ==> Cut(c, k)[i] == c[if i < k then i else i + 1];
  }

  /** The rings after a node was cut out of one of them and is not active any more. */
  lemma CutRings(m: Cells, m1: Cells, c: seq<Node>, k: nat, d: seq<Node>)
    requires Ring(m, c) && 1 <= k < |c| && Apart(c, d) && (d != [] ==> Ring(m, d))
    requires Ring(m1, Cut(c, k)) && Relinked(m, m1, c)
    ensures
      c[k] in m1
      && var m2 := m1[c[k] := m1[c[k]].(active := false)];
         Ring(m2, Cut(c, k)) && (d != [] ==> Ring(m2, d)) && m2.Keys == m.Keys
         && forall y :: y in m ==> m2[y].cb == m[y].cb && m2[y].active == (m[y].active && y != c[k])
  {
    RingNodes(m, c);
    var m2 := m1[c[k] := m1[c[k]].(active := false)];
    SameLinks(m1, m2, Cut(c, k));
    if d != [] {
      assert Apart(d, c);
      RingFrame(m, m1, d, c);
      SameLinks(m1, m2, d);
    }
  }

  lemma StoppedOnList(m: Cells, m1: Cells, h: Node, list: seq<Node>, local: seq<Node>, x: Node, k: nat)
    requires Consistent(m, h, list, local) && k < |list| && x == list[k]
    requires Ring(m1, ([h] + list)[..k + 1] + ([h] + list)[k + 2..]) && Relinked(m, m1, [h] + list)
    ensures x in m1 && Consistent(m1[x := m1[x].(active := false)], h, list[..k] + list[k + 1..], local)
  {
    hide Ring, Relinked, Tail, Apart;
    var c := [h] + list;
    OnList(m, h, list, local, x, k);
    CutRings(m, m1, c, k + 1, local);
    CutApart(c, k + 1, local);
    assert Cut(c, k + 1) == [h] + Cut(list, k);
    forall y ensures y in Cut(list, k) <==> y in list && y != x {
      OnceOut(m, c);
      OutOf(list, k, y);
    }
  }

  /** The nodes after the header are distinct. */
  lemma OnceOut(m: Cells, c: seq<Node>)
    requires Ring(m, c)
    ensures Distinct(c[1..])
  {
    forall i, j | 0 <= i < j < |c[1..]| ensures c[1..][i] != c[1..][j] {
      assert c[i + 1] != c[j + 1];
    }
  }

  lemma OutOf(s: seq<Node>, k: nat, y: Node)
    requires k < |s| && Distinct(s)
    ensures y in Cut(s, k) <==> y in s && y != s[k]
  {
    assert s == s[..k] + [s[k]] + s[k + 1..];
  }

  lemma OnLocal(m: Cells, h: Node, list: seq<Node>, local: seq<Node>, x: Node, k: nat)
    requires Consistent(m, h, list, local) && k < |Tail(local)| && x == Tail(local)[k]
    ensures local[k + 1] == x && Omit(Tail(local), x) == Tail(local[..k + 1] + local[k + 2..])
    ensures Ring(m, local) && x !in [h] + list
  {
    var w := Tail(local);
    assert Distinct(w) by {
      forall i, j | 0 <= i < j < |w| ensures w[i] != w[j] { assert local[i + 1] != local[j + 1]; }
    }
    OmitAt(w, k);
    assert Cut(w, k) == Tail(local[..k + 1] + local[k + 2..]);
  }

  lemma StoppedOnLocal(m: Cells, m1: Cells, h: Node, list: seq<Node>, local: seq<Node>, x: Node, k: nat)
    requires Consistent(m, h, list, local) && k < |Tail(local)| && x == Tail(local)[k]
    requires Ring(m1, local[..k + 1] + local[k + 2..]) && Relinked(m, m1, local)
    ensures x in m1 && Consistent(m1[x := m1[x].(active := false)], h, list, local[..k + 1] + local[k + 2..])
  {
    hide Ring, Relinked;
    var c, w := [h] + list, Tail(local);
    OnLocal(m, h, list, local, x, k);
    assert Apart(local, c);
    hide Apart;
    CutRings(m, m1, local, k + 1, c);
    CutApart(local, k + 1, c);
    assert Cut(local, k + 1) == local[..k + 1] + local[k + 2..];
    assert Tail(Cut(local, k + 1)) == Cut(w, k);
    OnceOut(m, local);
    NotOnList(list, h, x);
    forall y ensures y in Cut(w, k) <==> y in w && y != x {
      OutOf(w, k, y);
    }
  }

  lemma NotOnList(list: seq<Node>, h: Node, x: Node)
    ensures x !in [h] + list ==> x !in list
  {
    assert forall i :: 0 <= i < |list| ==> ([h] + list)[i + 1] == list[i];
  }

  lemma MovedConsistent(m: Cells, m1: Cells, h: Node, list: seq<Node>, n: Node)
    requires Consistent(m, h, list, []) && n in m && n !in [h] + list
    requires Ring(m1, [h]) && Ring(m1, [n] + list) && Relinked(m, m1, [n] + ([h] + list))
    ensures Consistent(m1, h, [], [n] + list)
  {
    var c := [h] + list;
    assert [h] + [] == [h] && Tail([n] + list) == list && c[0] == h;
    forall i | 0 <= i < |[n] + list| ensures h != ([n] + list)[i] {
      if i > 0 { assert c[i] == ([n] + list)[i]; }
    }
  }

  lemma EmptyIff(m: Cells, h: Node, list: seq<Node>, local: seq<Node>)
    requires Consistent(m, h, list, local) && local != []
    ensures local[0] in m && (m[local[0]].next == local[0] <==> |local| == 1)
  {
    RingNodes(m, local);
  }

  lemma HeadTaken(m: Cells, h: Node, list: seq<Node>, c: seq<Node>)
    requires Consistent(m, h, list, c) && |c| > 1
    ensures Ring(m, [h] + list) && Ring(m, c) && c[0] in m && c[1] in m && m[c[0]].next == c[1] && c[1] !in [h] + list
    ensures m[c[1]].cb.Some?
  {
    RingNodes(m, c);
    assert c[1] == Tail(c)[0] && c[1] in Tail(c);
  }

  lemma HeadOut(m: Cells, m1: Cells, h: Node, list: seq<Node>, c: seq<Node>)
    requires Consistent(m, h, list, c) && |c| > 1 && Relinked(m, m1, c)
    ensures Ring(m1, [h] + list)
  {
    RingFrame(m, m1, [h] + list, c);
  }

  lemma HeadBack(m: Cells, m1: Cells, m2: Cells, h: Node, list: seq<Node>, c: seq<Node>)
    requires Consistent(m, h, list, c) && |c| > 1 && Relinked(m, m1, c) && Ring(m1, c[..1] + c[2..])
    requires Relinked(m1, m2, [c[1]] + ([h] + list)) && Ring(m2, [h] + (list + [c[1]]))
    ensures Consistent(m2, h, list + [c[1]], c[..1] + c[2..]) && c[1] in m2 && m2[c[1]].cb.Some?
    ensures CallHead(Watchers(list, Tail(c), [])) == Watchers(list + [c[1]], Tail(c[..1] + c[2..]), [Call(c[1])])
  {
    hide Ring, Apart, Relinked, Activity, Tail;
    ApartSwap([h] + list, c);
    HeadRings(m, m1, m2, h, list, c);
    HeadActive(m, m1, m2, h, list, c);
    HeadLists(list, c);
  }

  lemma ApartSwap(c: seq<Node>, d: seq<Node>)
    requires Apart(c, d)
    ensures Apart(d, c)
  {
  }

  lemma HeadActive(m: Cells, m1: Cells, m2: Cells, h: Node, list: seq<Node>, c: seq<Node>)
    requires Ring(m, c) && |c| > 1 && Activity(m, list, Tail(c)) && Relinked(m, m1, c)
    requires Relinked(m1, m2, [c[1]] + ([h] + list))
    ensures Activity(m2, list + [c[1]], Tail(c[..1] + c[2..])) && c[1] in m2 && m2[c[1]].cb.Some?
  {
    hide Relinked, Ring, Tail;
    HeadLists(list, c);
    RelinkedTwice(m, m1, m2, c, [c[1]] + ([h] + list));
    EveryIn(m, c);
    assert m[c[1]].active;
    hide Activity;
    ActivityFrame(m, m2, list, Tail(c), list + [c[1]], Tail(c[..1] + c[2..]));
  }

  lemma EveryIn(m: Cells, c: seq<Node>)
    requires Ring(m, c)
    ensures forall k :: 0 <= k < |c| ==> c[k] in m
  {
    RingNodes(m, c);
  }

  lemma HeadLists(list: seq<Node>, c: seq<Node>)
    requires |c| > 1
    ensures Tail(c) == [c[1]] + Tail(c[..1] + c[2..]) && c[1] in Tail(c) && Tail(c)[0] == c[1] && Tail(c)[1..] == Tail(c[..1] + c[2..])
    ensures forall y :: y in list || y in Tail(c) <==> y in list + [c[1]] || y in Tail(c[..1] + c[2..])
  {
    assert Tail(c) == [c[1]] + Tail(c[..1] + c[2..]);
  }

  lemma RelinkedTwice(m: Cells, m1: Cells, m2: Cells, c: seq<Node>, d: seq<Node>)
    requires Relinked(m, m1, c) && Relinked(m1, m2, d)
    ensures m2.Keys == m.Keys && forall x :: x in m ==> m2[x].active == m[x].active && m2[x].cb == m[x].cb
  {
  }

  lemma HeadRings(m: Cells, m1: Cells, m2: Cells, h: Node, list: seq<Node>, c: seq<Node>)
    requires Ring(m, c) && Apart(c, [h] + list) && |c| > 1 && Ring(m1, c[..1] + c[2..])
    requires Relinked(m1, m2, [c[1]] + ([h] + list)) && Ring(m2, [h] + (list + [c[1]]))
    ensures Ring(m2, c[..1] + c[2..]) && Apart([h] + (list + [c[1]]), c[..1] + c[2..])
  {
    hide Relinked;
    var x, e, l, r := c[1], c[..1] + c[2..], [h] + (list + [c[1]]), [c[1]] + ([h] + list);
    DistinctOf(m, c);
    hide Ring;
    assert forall i :: 0 <= i < |e| ==> e[i] == c[if i == 0 then 0 else i + 1];
    assert forall i :: 0 <= i < |r| ==> r[i] == if i == 0 then x else ([h] + list)[i - 1];
    assert Apart(e, r);
    RingFrame(m1, m2, e, r);
    assert forall i :: 0 <= i < |l| ==> l[i] == if i == |l| - 1 then x else ([h] + list)[i];
  }

  lemma EndedConsistent(m: Cells, h: Node, list: seq<Node>, n: Node)
    requires Consistent(m, h, list, [n])
    ensures Consistent(m - {n}, h, list, [])
  {
    var c := [h] + list;
    assert forall i :: 0 <= i < |c| ==> c[i] != [n][0];
    RingNodes(m, c);
    SameLinks(m, m - {n}, c);
  }
}
