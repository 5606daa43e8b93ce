/**
  The circular lists of `libuv/src/queue.h`: nodes that are linked both ways, of which one is the
  header.  The nodes are seen through a map from node to fields, and a list through the sequence of
  its nodes, the header first.
 */
module Queue {
  import opened Bytes
  import opened Sequences

  /** A `QUEUE` inside a watcher handle; of a header only the links are used. */
  class Node {
    var next: Node?
    var prev: Node?
    var active: bool
    var cb: Option<nat>

    constructor ()
      ensures !active && next == null && prev == null && cb == None
    {
      next, prev, active, cb := null, null, false, None;
    }
  }

  datatype Cell = Cell(next: Node?, prev: Node?, active: bool, cb: Option<nat>)

  type Cells = map<Node, Cell>

  ghost function WithNext(m: Cells, x: Node, v: Node?): (r: Cells)
    requires x in m
    ensures r.Keys == m.Keys
  {
    m[x := m[x].(next := v)]
  }

  ghost function WithPrev(m: Cells, x: Node, v: Node?): (r: Cells)
    requires x in m
    ensures r.Keys == m.Keys
  {
    m[x := m[x].(prev := v)]
  }

  ghost predicate Apart(c: seq<Node>, d: seq<Node>) {
    forall i, j :: 0 <= i < |c| && 0 <= j < |d| ==> c[i] != d[j]
  }

  function After<T>(c: seq<T>, k: nat): T
    requires k < |c|
  {
    if k + 1 < |c| then c[k + 1] else c[0]
  }

  ghost predicate Joined(m: Cells, a: Node, b: Node) {
    a in m && b in m && m[a].next == b && m[b].prev == a
  }

  ghost predicate LinkAt(m: Cells, c: seq<Node>, k: nat)
    requires k < |c|
  {
    Joined(m, c[k], After(c, k))
  }

  /** The nodes `c` are linked in a circle, in this order. */
  ghost predicate Ring(m: Cells, c: seq<Node>) {
    c != [] && Distinct(c) && forall k :: 0 <= k < |c| ==> LinkAt(m, c, k)
  }

  /** Nodes outside of `c` are as they were, and no node has changed but for its links. */
  ghost predicate Relinked(m: Cells, m': Cells, c: seq<Node>) {
    && m'.Keys == m.Keys
    && (forall x :: x in m ==> m'[x].active == m[x].active && m'[x].cb == m[x].cb)
    && (forall x :: x in m && x !in c ==> m'[x] == m[x])
  }

  lemma RingNodes(m: Cells, c: seq<Node>)
    requires Ring(m, c)
    ensures forall k :: 0 <= k < |c| ==> c[k] in m
    ensures m[c[0]].prev == c[|c| - 1] && m[c[|c| - 1]].next == c[0]
    ensures |c| > 1 ==> m[c[0]].next == c[1] && m[c[1]].prev == c[0]
    ensures |c| == 1 ==> m[c[0]].next == c[0]
  {
    assert LinkAt(m, c, |c| - 1) && LinkAt(m, c, 0);
    forall k | 0 <= k < |c| ensures c[k] in m { assert LinkAt(m, c, k); }
  }

  /** A circle whose nodes are left alone stays one. */
  lemma RingFrame(m: Cells, m': Cells, c: seq<Node>, d: seq<Node>)
    requires Ring(m, c) && Relinked(m, m', d) && Apart(c, d)
    ensures Ring(m', c)
  {
    forall k | 0 <= k < |c| ensures LinkAt(m', c, k) {
      assert LinkAt(m, c, k);
      assert c[k] !in d && After(c, k) !in d;
    }
  }

  // -- QUEUE_ADD --------------------------------------------------------------------------------

  lemma AddNothing(m: Cells, c: seq<Node>, n: Node, p: Node)
    requires Ring(m, c) && n !in c && n in m
    ensures Ring(WithPrev(m, n, p), c)
  {
    forall k | 0 <= k < |c| ensures LinkAt(WithPrev(m, n, p), c, k) {
      assert LinkAt(m, c, k);
      assert c[k] in c && After(c, k) in c;
    }
  }

  lemma AddSome(m: Cells, c: seq<Node>, d: seq<Node>)
    requires Ring(m, c) && Ring(m, d) && Apart(c, d) && |d| > 1
    requires c[0] in m && c[|c| - 1] in m && d[1] in m && d[|d| - 1] in m
    ensures
      var m' := WithNext(WithPrev(WithPrev(WithNext(m, c[|c| - 1], d[1]), d[1], c[|c| - 1]), c[0], d[|d| - 1]), d[|d| - 1], c[0]);
      Ring(m', c + d[1..])
  {
    var e := c + d[1..];
    var p, h, first, last := c[|c| - 1], c[0], d[1], d[|d| - 1];
    var m' := WithNext(WithPrev(WithPrev(WithNext(m, p, first), first, p), h, last), last, h);
    assert Distinct(e);
    forall k | 0 <= k < |e| ensures LinkAt(m', e, k) {
      if k < |c| - 1 {
        assert LinkAt(m, c, k) && e[k] == c[k] && e[k + 1] == c[k + 1];
      } else if k == |c| - 1 {
        assert e[k] == p && e[k + 1] == first;
      } else if k < |e| - 1 {
        assert LinkAt(m, d, k - |c| + 1) && e[k] == d[k - |c| + 1] && e[k + 1] == d[k - |c| + 2];
      } else {
        assert e[k] == last;
      }
    }
  }

  // -- QUEUE_SPLIT ------------------------------------------------------------------------------

  /** The six assignments of the macro. */
  ghost function Cloven(m: Cells, c: seq<Node>, k: nat, n: Node): (r: Cells)
    requires 1 <= k < |c| && n in m && c[0] in m && c[k - 1] in m && c[k] in m && c[|c| - 1] in m
    ensures r.Keys == m.Keys
  {
    var h, q, p, last := c[0], c[k], c[k - 1], c[|c| - 1];
    WithPrev(WithNext(WithPrev(WithNext(WithNext(WithPrev(m, n, last), last, n), n, q), h, p), p, h), q, n)
  }

  /** The list of `h` is cut before `q`, and the rest of it becomes the list of `n`. */
  lemma SplitRing(m: Cells, c: seq<Node>, k: nat, n: Node)
    requires Ring(m, c) && 1 <= k < |c| && n in m && n !in c
    requires c[0] in m && c[k - 1] in m && c[k] in m && c[|c| - 1] in m
    ensures Ring(Cloven(m, c, k, n), c[..k]) && Ring(Cloven(m, c, k, n), [n] + c[k..])
  {
    SplitFront(m, c, k, n);
    SplitBack(m, c, k, n);
  }

  lemma SplitFront(m: Cells, c: seq<Node>, k: nat, n: Node)
    requires Ring(m, c) && 1 <= k < |c| && n in m && n !in c
    requires c[0] in m && c[k - 1] in m && c[k] in m && c[|c| - 1] in m
    ensures Ring(Cloven(m, c, k, n), c[..k])
  {
    var m', a := Cloven(m, c, k, n), c[..k];
    assert Distinct(a);
    forall i | 0 <= i < |a| ensures LinkAt(m', a, i) {
      assert LinkAt(m, c, i) && c[i] in c;
    }
  }

  lemma SplitBack(m: Cells, c: seq<Node>, k: nat, n: Node)
    requires Ring(m, c) && 1 <= k < |c| && n in m && n !in c
    requires c[0] in m && c[k - 1] in m && c[k] in m && c[|c| - 1] in m
    ensures Ring(Cloven(m, c, k, n), [n] + c[k..])
  {
    var m', b := Cloven(m, c, k, n), [n] + c[k..];
    assert forall i :: 0 <= i < |c| ==> c[i] in c;
    assert Distinct(b);
    forall i | 0 <= i < |b| ensures LinkAt(m', b, i) {
      if i > 0 { assert LinkAt(m, c, k + i - 1); }
    }
  }

  // -- QUEUE_INSERT_HEAD, QUEUE_INSERT_TAIL, QUEUE_REMOVE ---------------------------------------

  ghost function Inserted(c: seq<Node>, k: nat, x: Node): seq<Node>
    requires k < |c|
  {
    c[..k + 1] + [x] + c[k + 1..]
  }

  lemma InsertedAt(c: seq<Node>, k: nat, x: Node, i: nat)
    requires k < |c| && i <= |c|
    ensures |Inserted(c, k, x)| == |c| + 1
    ensures Inserted(c, k, x)[i] == if i <= k then c[i] else if i == k + 1 then x else c[i - 1]
  {
  }

  lemma InsertedDistinct(c: seq<Node>, k: nat, x: Node)
    requires k < |c| && Distinct(c) && x !in c
    ensures Distinct(Inserted(c, k, x))
  {
    InsertedAt(c, k, x, 0);
    forall i, j | 0 <= i < j <= |c| ensures Inserted(c, k, x)[i] != Inserted(c, k, x)[j] {
      InsertedAt(c, k, x, i);
      InsertedAt(c, k, x, j);
    }
  }

  lemma InsertRing(m: Cells, c: seq<Node>, k: nat, x: Node)
    requires Ring(m, c) && k < |c| && x in m && x !in c
    requires c[k] in m && After(c, k) in m
    ensures
      var a, b := c[k], After(c, k);
      var m' := WithNext(WithPrev(WithPrev(WithNext(m, x, b), x, a), b, x), a, x);
      Ring(m', Inserted(c, k, x))
  {
    var a, b := c[k], After(c, k);
    var m' := WithNext(WithPrev(WithPrev(WithNext(m, x, b), x, a), b, x), a, x);
    var e := Inserted(c, k, x);
    InsertedDistinct(c, k, x);
    InsertedAt(c, k, x, 0);
    assert forall i :: 0 <= i < |c| ==> c[i] in c;
    forall i | 0 <= i < |e| ensures LinkAt(m', e, i) {
      hide Inserted;
      InsertedAt(c, k, x, i);
      InsertedAt(c, k, x, if i < |c| then i + 1 else 0);
      assert i < k ==> LinkAt(m, c, i);
      assert i > k + 1 ==> LinkAt(m, c, i - 1);
    }
  }

  /** The node at `k` is taken out; its own links stay. */
  lemma RemoveRing(m: Cells, c: seq<Node>, k: nat)
    requires Ring(m, c) && 1 <= k < |c|
    requires c[k - 1] in m && After(c, k) in m
    ensures Ring(WithPrev(WithNext(m, c[k - 1], After(c, k)), After(c, k), c[k - 1]), c[..k] + c[k + 1..])
  {
    var p, b := c[k - 1], After(c, k);
    var m' := WithPrev(WithNext(m, p, b), b, p);
    var e := c[..k] + c[k + 1..];
    assert forall i :: 0 <= i < |e| ==> e[i] == if i < k then c[i] else c[i + 1];
    assert Distinct(e);
    forall i | 0 <= i < |e| ensures LinkAt(m', e, i) {
      if i < k - 1 {
        assert LinkAt(m, c, i);
      } else if i >= k {
        assert LinkAt(m, c, i + 1);
      }
    }
  }

  lemma NothingRelinked(m: Cells, c: seq<Node>)
    ensures Relinked(m, m, c)
  {
  }

  lemma RelinkNext(m: Cells, m1: Cells, c: seq<Node>, x: Node, v: Node?)
    requires Relinked(m, m1, c) && x in c && x in m
    ensures x in m1 && Relinked(m, WithNext(m1, x, v), c)
  {
  }

  lemma RelinkPrev(m: Cells, m1: Cells, c: seq<Node>, x: Node, v: Node?)
    requires Relinked(m, m1, c) && x in c && x in m
    ensures x in m1 && Relinked(m, WithPrev(m1, x, v), c)
  {
  }

  // -- What the macros read and leave -----------------------------------------------------------

  lemma AddReads(m: Cells, h: Node, s: seq<Node>, n: Node, t: seq<Node>)
    requires Ring(m, [h] + s) && Ring(m, [n] + t) && Apart([h] + s, [n] + t)
    ensures h in m && n in m && h != n && n !in [h] + s
    ensures
      var c, d, p, first, last := [h] + s, [n] + t, m[h].prev, m[n].next, m[n].prev;
      && p != null && first != null && last != null && p in m && first in m && last in m && p != n
      && first != h && last != h && first != p && last != p
      && c[0] == h && d[0] == n && p == c[|c| - 1] && p in c && last == d[|d| - 1] && last in d && first in d
      && if t == [] then first == n && last == n else first == d[1] && first != n && last != n
  {
    var c, d := [h] + s, [n] + t;
    RingNodes(m, c);
    RingNodes(m, d);
    DistinctOf(m, d);
    assert c[0] == h && d[0] == n;
    assert c[|c| - 1] in c && d[|d| - 1] in d && (t != [] ==> d[1] in d);
  }

  lemma AddFacts(m: Cells, h: Node, s: seq<Node>, n: Node, t: seq<Node>)
    requires Ring(m, [h] + s) && Ring(m, [n] + t) && Apart([h] + s, [n] + t)
    ensures h in m && n in m && h != n
    ensures
      var p, first, last := m[h].prev, m[n].next, m[n].prev;
      && p != null && first != null && last != null && p in m && first in m && last in m && p != n
      && (first == n <==> last == n) && first != h && last != h && first != p && last != p
      && var m1 := WithPrev(WithPrev(WithNext(m, p, first), first, p), h, if first == n then p else last);
         var m' := WithNext(m1, if first == n then p else last, h);
         Ring(m', [h] + s + t) && Relinked(m, m', [h] + s + ([n] + t))
  {
    hide Ring, LinkAt, Apart, Relinked;
    var c, d, e := [h] + s, [n] + t, [h] + s + ([n] + t);
    AddReads(m, h, s, n, t);
    var p, first := m[h].prev, m[n].next;
    var last := if first == n then p else m[n].prev;
    AddRelinked(m, e, p, h, first, last);
    if t == [] {
      AddNothing(m, c, n, p);
      LastPrev(m, c);
      assert c + t == c;
      assert WithNext(WithPrev(WithPrev(WithNext(m, p, n), n, p), h, p), p, h) == WithPrev(m, n, p);
    } else {
      AddSome(m, c, d);
      assert c + d[1..] == c + t;
    }
  }

  lemma AddRelinked(m: Cells, e: seq<Node>, p: Node, h: Node, first: Node, last: Node)
    requires p in e && h in e && first in e && last in e && p in m && h in m && first in m && last in m
    ensures Relinked(m, WithNext(WithPrev(WithPrev(WithNext(m, p, first), first, p), h, last), last, h), e)
  {
    hide Relinked;
    NothingRelinked(m, e);
    var m1 := WithNext(m, p, first);
    RelinkNext(m, m, e, p, first);
    var m2 := WithPrev(m1, first, p);
    RelinkPrev(m, m1, e, first, p);
    RelinkPrev(m, m2, e, h, last);
    RelinkNext(m, WithPrev(m2, h, last), e, last, h);
  }

  lemma LastPrev(m: Cells, c: seq<Node>)
    requires Ring(m, c)
    ensures c[|c| - 1] in m && m[c[|c| - 1]].next == c[0]
  {
    RingNodes(m, c);
  }

  lemma DistinctOf(m: Cells, c: seq<Node>)
    requires Ring(m, c)
    ensures Distinct(c)
  {
  }

  lemma SplitReads(m: Cells, c: seq<Node>, k: nat, n: Node)
    requires Ring(m, c) && 1 <= k < |c| && n in m && n !in c
    ensures c[0] in m && c[k - 1] in m && c[k] in m && c[|c| - 1] in m
    ensures m[c[0]].prev == c[|c| - 1] && m[c[k]].prev == c[k - 1] && c[0] != c[k] && c[|c| - 1] != n && c[k] != n && c[0] != n
  {
    RingNodes(m, c);
    assert LinkAt(m, c, k - 1);
  }

  lemma SplitFacts(m: Cells, c: seq<Node>, k: nat, n: Node)
    requires Ring(m, c) && 1 <= k < |c| && n in m && n !in c
    ensures c[0] in m && c[k - 1] in m && c[k] in m && c[|c| - 1] in m
    ensures m[c[0]].prev == c[|c| - 1] && m[c[k]].prev == c[k - 1] && c[0] != c[k] && c[|c| - 1] != n && c[k] != n && c[0] != n
    ensures
      var h, q, p, last := c[0], c[k], c[k - 1], c[|c| - 1];
      var m' := WithPrev(WithNext(WithPrev(WithNext(WithNext(WithPrev(m, n, last), last, n), n, q), h, p), p, h), q, n);
      Ring(m', c[..k]) && Ring(m', [n] + c[k..]) && Relinked(m, m', [n] + c)
  {
    hide Ring, Relinked;
    SplitReads(m, c, k, n);
    SplitRing(m, c, k, n);
    var h, q, p, last, d := c[0], c[k], c[k - 1], c[|c| - 1], [n] + c;
    assert d[0] == n && d[1] == h && d[k] == p && d[k + 1] == q && d[|c|] == last;
    NothingRelinked(m, d);
    var m1 := WithPrev(m, n, last);
    RelinkPrev(m, m, d, n, last);
    var m2 := WithNext(m1, last, n);
    RelinkNext(m, m1, d, last, n);
    var m3 := WithNext(m2, n, q);
    RelinkNext(m, m2, d, n, q);
    var m4 := WithPrev(m3, h, p);
    RelinkPrev(m, m3, d, h, p);
    var m5 := WithNext(m4, p, h);
    RelinkNext(m, m4, d, p, h);
    RelinkPrev(m, m5, d, q, n);
  }

  lemma HeadOf(m: Cells, h: Node, s: seq<Node>)
    requires Ring(m, [h] + s)
    ensures h in m && m[h].next == (if s == [] then h else s[0]) && (s != [] ==> s[0] in m && s[0] != h && ([h] + s)[1] == s[0])
  {
    var c := [h] + s;
    RingNodes(m, c);
    assert c[0] == h;
    if s != [] { assert c[1] == s[0]; }
  }

  lemma RingFrameOne(m: Cells, m': Cells, h: Node, n: Node)
    requires Ring(m, [h]) && n != h && Relinked(m, m', [n])
    ensures Ring(m', [h]) && Relinked(m, m', [n] + [h])
  {
    RingFrame(m, m', [h], [n]);
  }

  lemma HeadFacts(m: Cells, h: Node, s: seq<Node>, q: Node)
    requires Ring(m, [h] + s) && q in m && q !in [h] + s
    ensures h in m && h != q && m[h].next != null && m[h].next in m && m[h].next != q
    ensures
      var first := m[h].next;
      var m' := WithNext(WithPrev(WithPrev(WithNext(m, q, first), q, h), first, q), h, q);
      Ring(m', [h] + ([q] + s)) && Relinked(m, m', [q] + ([h] + s))
  {
    hide Ring;
    var c := [h] + s;
    RingNodes(m, c);
    assert c[0] == h && After(c, 0) in c;
    InsertRing(m, c, 0, q);
    assert Inserted(c, 0, q) == [h] + ([q] + s);
  }

  lemma TailFacts(m: Cells, h: Node, s: seq<Node>, q: Node)
    requires Ring(m, [h] + s) && q in m && q !in [h] + s
    ensures h in m && h != q && m[h].prev != null && m[h].prev in m && m[h].prev != q
    ensures
      var last := m[h].prev;
      var m' := WithPrev(WithNext(WithPrev(WithNext(m, q, h), q, last), last, q), h, q);
      Ring(m', [h] + (s + [q])) && Relinked(m, m', [q] + ([h] + s))
  {
    hide Ring, Relinked;
    var c, e := [h] + s, [q] + ([h] + s);
    RingNodes(m, c);
    var last := c[|c| - 1];
    assert c[0] == h && last in c && h in e && last in e && q in e;
    InsertRing(m, c, |c| - 1, q);
    assert Inserted(c, |c| - 1, q) == [h] + (s + [q]);
    var m2 := WithPrev(WithNext(m, q, h), q, last);
    assert WithPrev(WithNext(m2, last, q), h, q) == WithNext(WithPrev(m2, h, q), last, q);
    NothingRelinked(m, e);
    RelinkNext(m, m, e, q, h);
    RelinkPrev(m, WithNext(m, q, h), e, q, last);
    RelinkNext(m, m2, e, last, q);
    RelinkPrev(m, WithNext(m2, last, q), e, h, q);
  }

  lemma RemoveFacts(m: Cells, c: seq<Node>, k: nat)
    requires Ring(m, c) && 1 <= k < |c|
    ensures c[k - 1] in m && c[k] in m && After(c, k) in m && m[c[k]].prev == c[k - 1] && m[c[k]].next == After(c, k)
    ensures c[k - 1] != c[k] && After(c, k) != c[k]
    ensures
      var m' := WithPrev(WithNext(m, c[k - 1], After(c, k)), After(c, k), c[k - 1]);
      Ring(m', c[..k] + c[k + 1..]) && Relinked(m, m', c)
  {
    assert LinkAt(m, c, k - 1) && LinkAt(m, c, k);
    DistinctOf(m, c);
    hide Ring;
    RemoveRing(m, c, k);
    assert forall i :: 0 <= i < |c| ==> c[i] in c;
  }
}
