/**
  The chained, resizing hash table of `src/hash_table.c` as a finite map.
 */
module HashTable {
  import opened Bytes

  type Key = seq<byte>

  /** A `hash_node_t`; the slots of the table are nodes too. */
  class Node<V> {
    var name: Option<Key>
    var data: Option<V>
    var next: Node?<V>

    constructor (name: Option<Key>, data: Option<V>)
      ensures this.name == name && this.data == data && next == null
    {
      this.name, this.data, next := name, data, null;
    }
  }

  /** What the fields of one node hold. */
  datatype Cell<V> = Cell(name: Option<Key>, data: Option<V>, next: Node?<V>)

  type Cells<V> = map<Node<V>, Cell<V>>

  datatype Entry<V> = Entry(key: Key, value: V)

  // ----- the string comparison -----

  /** `string_equal` on strings that are not null. */
  method StringEqual(a: Key, b: Key) returns (flag: bool)
    ensures flag <==> a == b
  {
    if |a| != |b| {
      return false;
    }
    flag := true;
    for i := 0 to |a|
      invariant flag && a[..i] == b[..i]
    {
      if a[i] != b[i] {
        flag := false;
        break;
      }
      assert a[..i + 1] == a[..i] + [a[i]] && b[..i + 1] == b[..i] + [b[i]];
    }
    if flag { assert a[..|a|] == a && b[..|a|] == b; }
  }

  // ----- buckets -----

  /** The value bound to `key` in a bucket. */
  function Find<V>(e: seq<Entry<V>>, key: Key): Option<V> {
    if e == [] then None else if e[0].key == key then Some(e[0].value) else Find(e[1..], key)
  }

  /** No key occurs twice. */
  ghost predicate Unique<V>(e: seq<Entry<V>>) {
    forall i, j :: 0 <= i < j < |e| ==> e[i].key != e[j].key
  }

  lemma {:induction false} FindAt<V>(e: seq<Entry<V>>, k: nat)
    requires Unique(e) && k < |e|
    ensures Find(e, e[k].key) == Some(e[k].value)
  {
    if k > 0 { FindAt(e[1..], k - 1); }
  }

  lemma {:induction false} FindSome<V>(e: seq<Entry<V>>, key: Key) returns (k: nat)
    requires Find(e, key).Some?
    ensures k < |e| && e[k].key == key && Find(e, key) == Some(e[k].value)
  {
    if e[0].key == key {
      k := 0;
    } else {
      k := FindSome(e[1..], key);
      k := k + 1;
    }
  }

  lemma {:induction false} FindNone<V>(e: seq<Entry<V>>, key: Key)
    requires forall k :: 0 <= k < |e| ==> e[k].key != key
    ensures Find(e, key) == None
  {
    if e != [] { FindNone(e[1..], key); }
  }

  /** A chain of nodes holds a bucket; an empty bucket is an empty head with nothing behind it. */
  ghost predicate Chain<V>(c: seq<Node<V>>, m: Cells<V>, e: seq<Entry<V>>) {
    |c| == (if e == [] then 1 else |e|) && forall k :: 0 <= k < |c| ==> Link(c, m, e, k)
  }

  /** One node of a chain. */
  ghost predicate Link<V>(c: seq<Node<V>>, m: Cells<V>, e: seq<Entry<V>>, k: nat)
    requires k < |c| && |c| == if e == [] then 1 else |e|
  {
    && c[k] in m && m[c[k]].next == After(c, k)
    && if e == [] then m[c[k]].name == None else m[c[k]].name == Some(e[k].key) && m[c[k]].data == Some(e[k].value)
  }

  ghost function After<V>(c: seq<Node<V>>, k: nat): Node?<V> {
    if k + 1 < |c| then c[k + 1] else null
  }

  ghost predicate Chains<V>(cs: seq<seq<Node<V>>>, m: Cells<V>, b: seq<seq<Entry<V>>>) {
    |cs| == |b| && forall i :: 0 <= i < |b| ==> Chain(cs[i], m, b[i])
  }

  /** No node is in two places. */
  ghost predicate Apart<V>(cs: seq<seq<Node<V>>>) {
    forall i, j, k, l :: 0 <= i < |cs| && 0 <= j < |cs| && 0 <= k < |cs[i]| && 0 <= l < |cs[j]| && cs[i][k] == cs[j][l] ==>
      i == j && k == l
  }

  /** Every key is in the bucket of its hash, once. */
  ghost predicate Placed<V>(b: seq<seq<Entry<V>>>, hash: Key -> nat) {
    && |b| > 0
    && forall i :: 0 <= i < |b| ==> Unique(b[i]) && forall k :: 0 <= k < |b[i]| ==> hash(b[i][k].key) % |b| == i
  }

  /** The buckets hold the bindings of `m`. */
  ghost predicate Represents<V>(b: seq<seq<Entry<V>>>, hash: Key -> nat, m: map<Key, V>) {
    |b| > 0 && forall key :: Find(b[hash(key) % |b|], key) == if key in m then Some(m[key]) else None
  }

  function Total<V>(b: seq<seq<Entry<V>>>): nat {
    if b == [] then 0 else |b[0]| + Total(b[1..])
  }

  lemma {:induction false} TotalSet<V>(b: seq<seq<Entry<V>>>, i: nat, e: seq<Entry<V>>)
    requires i < |b|
    ensures Total(b[i := e]) == Total(b) - |b[i]| + |e|
  {
    if i > 0 {
      TotalSet(b[1..], i - 1, e);
      assert b[i := e][1..] == b[1..][i - 1 := e];
    }
  }

  // ----- adding, changing and removing a binding in the buckets -----

  lemma {:induction false} FindSnoc<V>(e: seq<Entry<V>>, x: Entry<V>, key: Key)
    ensures Find(e + [x], key) == if Find(e, key).Some? then Find(e, key) else if x.key == key then Some(x.value) else None
  {
    if e != [] {
      FindSnoc(e[1..], x, key);
      assert (e + [x])[1..] == e[1..] + [x];
    } else {
      assert [x][1..] == [];
    }
  }

  lemma {:induction false} FindSet<V>(e: seq<Entry<V>>, k: nat, v: V, key: Key)
    requires Unique(e) && k < |e|
    ensures Find(e[k := Entry(e[k].key, v)], key) == if key == e[k].key then Some(v) else Find(e, key)
  {
    var e' := e[k := Entry(e[k].key, v)];
    if k > 0 {
      FindSet(e[1..], k - 1, v, key);
      assert e'[1..] == e[1..][k - 1 := Entry(e[k].key, v)];
    }
  }

  lemma {:induction false} FindCut<V>(e: seq<Entry<V>>, k: nat, key: Key)
    requires Unique(e) && k < |e|
    ensures Find(e[..k] + e[k + 1..], key) == if key == e[k].key then None else Find(e, key)
  {
    var e' := e[..k] + e[k + 1..];
    if k > 0 {
      FindCut(e[1..], k - 1, key);
      assert e'[1..] == e[1..][..k - 1] + e[1..][k..];
    } else {
      assert e' == e[1..];
      if key == e[0].key { FindNone(e[1..], key); }
    }
  }

  /** The entries of a bucket have different keys, whose hash leads to it. */
  ghost predicate InBucket<V>(e: seq<Entry<V>>, hash: Key -> nat, n: nat, i: nat)
    requires n > 0
  {
    Unique(e) && forall k :: 0 <= k < |e| ==> hash(e[k].key) % n == i
  }

  lemma AddInBucket<V>(e: seq<Entry<V>>, key: Key, v: V, hash: Key -> nat, n: nat)
    requires n > 0 && InBucket(e, hash, n, hash(key) % n) && Find(e, key).None?
    ensures InBucket(e + [Entry(key, v)], hash, n, hash(key) % n)
  {
    forall k | 0 <= k < |e| ensures e[k].key != key { FindAt(e, k); }
  }

  lemma SetInBucket<V>(e: seq<Entry<V>>, k: nat, v: V, hash: Key -> nat, n: nat, i: nat)
    requires n > 0 && InBucket(e, hash, n, i) && k < |e|
    ensures InBucket(e[k := Entry(e[k].key, v)], hash, n, i)
  {
  }

  lemma CutInBucket<V>(e: seq<Entry<V>>, k: nat, hash: Key -> nat, n: nat, i: nat)
    requires n > 0 && InBucket(e, hash, n, i) && k < |e|
    ensures InBucket(e[..k] + e[k + 1..], hash, n, i)
  {
    var e' := e[..k] + e[k + 1..];
    assert forall j :: 0 <= j < |e'| ==> e'[j] == e[if j < k then j else j + 1];
  }

  lemma BucketPlaced<V>(b: seq<seq<Entry<V>>>, hash: Key -> nat, i: nat, e: seq<Entry<V>>)
    requires Placed(b, hash) && i < |b|
    ensures InBucket(b[i], hash, |b|, i)
    ensures InBucket(e, hash, |b|, i) ==> Placed(b[i := e], hash)
  {
  }

  lemma UniqueBucket<V>(e: seq<Entry<V>>, hash: Key -> nat, n: nat, i: nat, k: nat)
    requires n > 0 && InBucket(e, hash, n, i) && k < |e|
    ensures Unique(e) && hash(e[k].key) % n == i
  {
  }

  /** One bucket and the bindings of its keys are replaced. */
  lemma BucketRepresents<V>(b: seq<seq<Entry<V>>>, hash: Key -> nat, m: map<Key, V>, i: nat, e: seq<Entry<V>>, m': map<Key, V>)
    requires Represents(b, hash, m) && i < |b|
    requires forall q :: hash(q) % |b| != i ==> (q in m' <==> q in m) && (q in m ==> m'[q] == m[q])
    requires forall q :: hash(q) % |b| == i ==> Find(e, q) == if q in m' then Some(m'[q]) else None
    ensures Represents(b[i := e], hash, m')
  {
    hide Find;
  }

  lemma RepresentsAt<V>(b: seq<seq<Entry<V>>>, hash: Key -> nat, m: map<Key, V>, q: Key)
    requires Represents(b, hash, m)
    ensures Find(b[hash(q) % |b|], q) == if q in m then Some(m[q]) else None
  {
  }

  lemma AddRepresents<V>(b: seq<seq<Entry<V>>>, hash: Key -> nat, m: map<Key, V>, key: Key, v: V)
    requires Placed(b, hash) && Represents(b, hash, m) && key !in m
    ensures var i := hash(key) % |b|;
      var b' := b[i := b[i] + [Entry(key, v)]];
      Placed(b', hash) && Represents(b', hash, m[key := v]) && Total(b') == Total(b) + 1
  {
    var i := hash(key) % |b|;
    var e, e' := b[i], b[i] + [Entry(key, v)];
    BucketPlaced(b, hash, i, e');
    hide Placed, Represents, Find, InBucket;
    TotalSet(b, i, e');
    RepresentsAt(b, hash, m, key);
    AddInBucket(e, key, v, hash, |b|);
    forall q | hash(q) % |b| == i ensures Find(e', q) == if q in m[key := v] then Some(m[key := v][q]) else None {
      RepresentsAt(b, hash, m, q);
      FindSnoc(e, Entry(key, v), q);
    }
    BucketRepresents(b, hash, m, i, e', m[key := v]);
  }

  lemma SetRepresents<V>(b: seq<seq<Entry<V>>>, hash: Key -> nat, m: map<Key, V>, i: nat, k: nat, v: V)
    requires Placed(b, hash) && Represents(b, hash, m) && i < |b| && k < |b[i]|
    ensures b[i][k].key in m
    ensures var key := b[i][k].key;
      var b' := b[i := b[i][k := Entry(key, v)]];
      Placed(b', hash) && Represents(b', hash, m[key := v]) && Total(b') == Total(b)
  {
    var key := b[i][k].key;
    var e, e' := b[i], b[i][k := Entry(key, v)];
    BucketPlaced(b, hash, i, e');
    UniqueBucket(e, hash, |b|, i, k);
    hide Placed, Represents, Find, InBucket, Unique;
    TotalSet(b, i, e');
    FindAt(e, k);
    RepresentsAt(b, hash, m, key);
    SetInBucket(e, k, v, hash, |b|, i);
    forall q | hash(q) % |b| == i ensures Find(e', q) == if q in m[key := v] then Some(m[key := v][q]) else None {
      RepresentsAt(b, hash, m, q);
      FindSet(e, k, v, q);
    }
    BucketRepresents(b, hash, m, i, e', m[key := v]);
  }

  lemma CutRepresents<V>(b: seq<seq<Entry<V>>>, hash: Key -> nat, m: map<Key, V>, i: nat, k: nat)
    requires Placed(b, hash) && Represents(b, hash, m) && i < |b| && k < |b[i]|
    ensures b[i][k].key in m
    ensures var key := b[i][k].key;
      var b' := b[i := b[i][..k] + b[i][k + 1..]];
      Placed(b', hash) && Represents(b', hash, m - {key}) && Total(b') == Total(b) - 1
  {
    var key := b[i][k].key;
    var e, e' := b[i], b[i][..k] + b[i][k + 1..];
    BucketPlaced(b, hash, i, e');
    UniqueBucket(e, hash, |b|, i, k);
    hide Placed, Represents, Find, InBucket, Unique;
    TotalSet(b, i, e');
    FindAt(e, k);
    RepresentsAt(b, hash, m, key);
    CutInBucket(e, k, hash, |b|, i);
    forall q | hash(q) % |b| == i ensures Find(e', q) == if q in m - {key} then Some((m - {key})[q]) else None {
      RepresentsAt(b, hash, m, q);
      FindCut(e, k, q);
    }
    BucketRepresents(b, hash, m, i, e', m - {key});
  }

  lemma EmptyRepresents<V>(n: nat, hash: Key -> nat)
    requires n > 0
    ensures var b: seq<seq<Entry<V>>> := seq(n, _ => []);
      Placed(b, hash) && Represents(b, hash, map[]) && Total(b) == 0
  {
    TotalZero<V>(n);
  }

  lemma {:induction false} TotalZero<V>(n: nat)
    ensures var b: seq<seq<Entry<V>>> := seq(n, _ => []); Total(b) == 0
  {
    if n > 0 {
      var b: seq<seq<Entry<V>>> := seq(n, _ => []);
      TotalZero<V>(n - 1);
      var c: seq<seq<Entry<V>>> := seq(n - 1, _ => []);
      assert b[1..] == c;
    }
  }

  // ----- the same in the nodes -----

  /** The slots lead to chains of different nodes that hold the buckets. */
  ghost predicate Held<V>(slots: seq<Node<V>>, cs: seq<seq<Node<V>>>, m: Cells<V>, b: seq<seq<Entry<V>>>) {
    && |slots| == |b| && Chains(cs, m, b) && Apart(cs) && forall i :: 0 <= i < |b| ==> slots[i] == cs[i][0]
  }

  lemma ChainSame<V>(c: seq<Node<V>>, m: Cells<V>, m': Cells<V>, e: seq<Entry<V>>)
    requires Chain(c, m, e) && forall k :: 0 <= k < |c| ==> c[k] in m && c[k] in m' && m'[c[k]] == m[c[k]]
    ensures Chain(c, m', e)
  {
    forall k | 0 <= k < |c| ensures Link(c, m', e, k) { assert Link(c, m, e, k); }
  }

  /** A chain that is replaced by another one, the other nodes being as they were. */
  lemma HeldSet<V>(slots: seq<Node<V>>, cs: seq<seq<Node<V>>>, m: Cells<V>, b: seq<seq<Entry<V>>>,
                   i: nat, c: seq<Node<V>>, m': Cells<V>, e: seq<Entry<V>>)
    requires Held(slots, cs, m, b) && i < |b| && Chain(c, m', e) && c[0] == cs[i][0]
    requires forall k :: 0 <= k < |c| ==> c[k] in cs[i] || c[k] !in m
    requires forall k, l :: 0 <= k < l < |c| ==> c[k] != c[l]
    requires forall n :: n in m && n !in cs[i] ==> n in m' && m'[n] == m[n]
    ensures Held(slots, cs[i := c], m', b[i := e])
  {
    var cs', b' := cs[i := c], b[i := e];
    forall j | 0 <= j < |b| ensures Chain(cs'[j], m', b'[j]) {
      if j != i {
        assert Chain(cs[j], m, b[j]);
        forall k | 0 <= k < |cs[j]| ensures cs[j][k] in m && cs[j][k] in m' && m'[cs[j][k]] == m[cs[j][k]] {
          NotIn(cs, i, j, k);
          assert Link(cs[j], m, b[j], k);
        }
        ChainSame(cs[j], m, m', b[j]);
      }
    }
    forall j, l, k, n | 0 <= j < |cs'| && 0 <= l < |cs'| && 0 <= k < |cs'[j]| && 0 <= n < |cs'[l]| && cs'[j][k] == cs'[l][n]
      ensures j == l && k == n
    {
      if j != i && l != i {
        assert cs[j][k] == cs[l][n];
      } else if j == i && l != i {
        assert Chain(cs[l], m, b[l]) && Link(cs[l], m, b[l], n);
        NotIn(cs, i, l, n);
      } else if j != i && l == i {
        assert Chain(cs[j], m, b[j]) && Link(cs[j], m, b[j], k);
        NotIn(cs, i, j, k);
      }
    }
  }

  lemma NotIn<V>(cs: seq<seq<Node<V>>>, i: nat, j: nat, k: nat)
    requires Apart(cs) && i < |cs| && j < |cs| && i != j && k < |cs[j]|
    ensures cs[j][k] !in cs[i]
  {
    forall l | 0 <= l < |cs[i]| ensures cs[i][l] != cs[j][k] { }
  }

  lemma ChainApart<V>(cs: seq<seq<Node<V>>>, i: nat)
    requires Apart(cs) && i < |cs|
    ensures forall k, l :: 0 <= k < l < |cs[i]| ==> cs[i][k] != cs[i][l]
  {
  }

  lemma FillHead<V>(slots: seq<Node<V>>, cs: seq<seq<Node<V>>>, m: Cells<V>, b: seq<seq<Entry<V>>>, i: nat, key: Key, v: V)
    requires Held(slots, cs, m, b) && i < |b| && b[i] == []
    ensures Chain(cs[i], m, b[i])
    ensures Held(slots, cs, m[cs[i][0] := Cell(Some(key), Some(v), null)], b[i := b[i] + [Entry(key, v)]])
  {
    var c := cs[i];
    assert Chain(c, m, b[i]);
    var m', e' := m[c[0] := Cell(Some(key), Some(v), null)], b[i] + [Entry(key, v)];
    assert Link(c, m', e', 0);
    HeldSet(slots, cs, m, b, i, c, m', e');
    assert cs[i := c] == cs;
  }

  lemma AppendNode<V>(slots: seq<Node<V>>, cs: seq<seq<Node<V>>>, m: Cells<V>, b: seq<seq<Entry<V>>>,
                      i: nat, n: Node<V>, key: Key, v: V)
    requires Held(slots, cs, m, b) && i < |b| && b[i] != [] && n !in m
    ensures Chain(cs[i], m, b[i])
    ensures var last := cs[i][|cs[i]| - 1];
      && last in m
      && Held(slots, cs[i := cs[i] + [n]], m[n := Cell(Some(key), Some(v), null)][last := m[last].(next := n)],
              b[i := b[i] + [Entry(key, v)]])
  {
    var c := cs[i];
    assert Chain(c, m, b[i]);
    var last := c[|c| - 1];
    assert Link(c, m, b[i], |c| - 1);
    ChainApart(cs, i);
    var m', e', c' := m[n := Cell(Some(key), Some(v), null)][last := m[last].(next := n)], b[i] + [Entry(key, v)], c + [n];
    forall k | 0 <= k < |c'| ensures Link(c', m', e', k) {
      if k < |c| { assert Link(c, m, b[i], k); }
    }
    forall k | 0 <= k < |c| ensures c[k] != n { assert Link(c, m, b[i], k); }
    HeldSet(slots, cs, m, b, i, c', m', e');
  }

  lemma ChangeData<V>(slots: seq<Node<V>>, cs: seq<seq<Node<V>>>, m: Cells<V>, b: seq<seq<Entry<V>>>, i: nat, k: nat, v: V)
    requires Held(slots, cs, m, b) && i < |b| && k < |b[i]|
    ensures Chain(cs[i], m, b[i]) && k < |cs[i]|
    ensures var n := cs[i][k];
      n in m && Held(slots, cs, m[n := m[n].(data := Some(v))], b[i := b[i][k := Entry(b[i][k].key, v)]])
  {
    var c := cs[i];
    assert Chain(c, m, b[i]) && Link(c, m, b[i], k);
    ChainApart(cs, i);
    var m', e' := m[c[k] := m[c[k]].(data := Some(v))], b[i][k := Entry(b[i][k].key, v)];
    forall j | 0 <= j < |c| ensures Link(c, m', e', j) { assert Link(c, m, b[i], j); }
    HeldSet(slots, cs, m, b, i, c, m', e');
    assert cs[i := c] == cs;
  }

  lemma EmptyHead<V>(slots: seq<Node<V>>, cs: seq<seq<Node<V>>>, m: Cells<V>, b: seq<seq<Entry<V>>>, i: nat)
    requires Held(slots, cs, m, b) && i < |b| && |b[i]| == 1
    ensures Chain(cs[i], m, b[i])
    ensures Held(slots, cs, m[cs[i][0] := Cell(None, None, null)], b[i := b[i][..0] + b[i][1..]])
  {
    var c := cs[i];
    assert Chain(c, m, b[i]);
    assert b[i][..0] + b[i][1..] == [];
    var m': Cells<V> := m[c[0] := Cell(None, None, null)];
    assert Link(c, m', [], 0);
    HeldSet(slots, cs, m, b, i, c, m', []);
    assert cs[i := c] == cs;
  }

  lemma ChainPull<V>(c: seq<Node<V>>, m: Cells<V>, e: seq<Entry<V>>)
    requires Chain(c, m, e) && |e| > 1 && forall k, l :: 0 <= k < l < |c| ==> c[k] != c[l]
    ensures c[1] in m && Chain([c[0]] + c[2..], m[c[0] := m[c[1]]], e[1..])
  {
    assert Link(c, m, e, 1);
    var c', m', e' := [c[0]] + c[2..], m[c[0] := m[c[1]]], e[1..];
    forall k | 0 <= k < |c'| ensures Link(c', m', e', k) {
      assert Link(c, m, e, k + 1) && e'[k] == e[k + 1];
      assert k > 0 ==> c'[k] == c[k + 1];
      assert After(c', k) == After(c, k + 1);
    }
  }

  lemma PullHead<V>(slots: seq<Node<V>>, cs: seq<seq<Node<V>>>, m: Cells<V>, b: seq<seq<Entry<V>>>, i: nat)
    requires Held(slots, cs, m, b) && i < |b| && |b[i]| > 1
    ensures Chain(cs[i], m, b[i])
    ensures cs[i][1] in m
    ensures Held(slots, cs[i := [cs[i][0]] + cs[i][2..]], m[cs[i][0] := m[cs[i][1]]], b[i := b[i][..0] + b[i][1..]])
  {
    var c, e := cs[i], b[i][..0] + b[i][1..];
    assert Chain(c, m, b[i]);
    ChainApart(cs, i);
    assert e == b[i][1..];
    ChainPull(c, m, b[i]);
    var c' := [c[0]] + c[2..];
    hide Link;
    forall k, l | 0 <= k < l < |c'| ensures c'[k] != c'[l] { }
    HeldSet(slots, cs, m, b, i, c', m[c[0] := m[c[1]]], e);
  }

  lemma ChainCut<V>(c: seq<Node<V>>, m: Cells<V>, e: seq<Entry<V>>, k: nat)
    requires Chain(c, m, e) && 0 < k < |e| && forall j, l :: 0 <= j < l < |c| ==> c[j] != c[l]
    ensures c[k - 1] in m && c[k] in m
    ensures Chain(c[..k] + c[k + 1..], m[c[k - 1] := m[c[k - 1]].(next := m[c[k]].next)], e[..k] + e[k + 1..])
  {
    assert Link(c, m, e, k - 1) && Link(c, m, e, k);
    var c', m', e' := c[..k] + c[k + 1..], m[c[k - 1] := m[c[k - 1]].(next := m[c[k]].next)], e[..k] + e[k + 1..];
    forall j | 0 <= j < |c'| ensures Link(c', m', e', j) {
      var o := if j < k then j else j + 1;
      assert Link(c, m, e, o) && c'[j] == c[o] && e'[j] == e[o];
      assert After(c', j) == After(c, if j == k - 1 then k else o);
    }
  }

  lemma Unlinked<V>(slots: seq<Node<V>>, cs: seq<seq<Node<V>>>, m: Cells<V>, b: seq<seq<Entry<V>>>, i: nat, k: nat)
    requires Held(slots, cs, m, b) && i < |b| && 0 < k < |b[i]|
    ensures Chain(cs[i], m, b[i])
    ensures var p, n := cs[i][k - 1], cs[i][k];
      && p in m && n in m
      && Held(slots, cs[i := cs[i][..k] + cs[i][k + 1..]], m[p := m[p].(next := m[n].next)], b[i := b[i][..k] + b[i][k + 1..]])
  {
    var c, e := cs[i], b[i][..k] + b[i][k + 1..];
    assert Chain(c, m, b[i]);
    ChainApart(cs, i);
    ChainCut(c, m, b[i], k);
    var c' := c[..k] + c[k + 1..];
    hide Link;
    forall j | 0 <= j < |c'| ensures c'[j] == c[if j < k then j else j + 1] { }
    HeldSet(slots, cs, m, b, i, c', m[c[k - 1] := m[c[k - 1]].(next := m[c[k]].next)], e);
  }

  // ----- copying into a larger table -----

  /** The bindings of the first `i` buckets and the first `k` entries of the next one. */
  ghost function Moved<V>(b: seq<seq<Entry<V>>>, hash: Key -> nat, m: map<Key, V>, i: nat, k: nat): map<Key, V>
    requires |b| > 0
  {
    map key | key in m && Before(b, hash, i, k, key) :: m[key]
  }

  ghost predicate Before<V>(b: seq<seq<Entry<V>>>, hash: Key -> nat, i: nat, k: nat, key: Key)
    requires |b| > 0
  {
    hash(key) % |b| < i || (hash(key) % |b| == i && exists l :: 0 <= l < k && l < |b[i]| && b[i][l].key == key)
  }

  lemma MovedStart<V>(b: seq<seq<Entry<V>>>, hash: Key -> nat, m: map<Key, V>)
    requires |b| > 0
    ensures Moved(b, hash, m, 0, 0) == map[]
  {
  }

  lemma MovedStep<V>(b: seq<seq<Entry<V>>>, hash: Key -> nat, m: map<Key, V>, i: nat, k: nat)
    requires Placed(b, hash) && Represents(b, hash, m) && i < |b| && k < |b[i]|
    ensures var x := b[i][k];
      x.key !in Moved(b, hash, m, i, k) && Moved(b, hash, m, i, k + 1) == Moved(b, hash, m, i, k)[x.key := x.value]
  {
    var x := b[i][k];
    FindAt(b[i], k);
    assert hash(x.key) % |b| == i;
    assert Before(b, hash, i, k + 1, x.key);
    forall key | key in m && key != x.key
      ensures Before(b, hash, i, k + 1, key) <==> Before(b, hash, i, k, key)
    {
    }
  }

  lemma MovedBucket<V>(b: seq<seq<Entry<V>>>, hash: Key -> nat, m: map<Key, V>, i: nat)
    requires Placed(b, hash) && Represents(b, hash, m) && i < |b|
    ensures Moved(b, hash, m, i, |b[i]|) == Moved(b, hash, m, i + 1, 0)
  {
    forall key | key in m ensures Before(b, hash, i, |b[i]|, key) <==> Before(b, hash, i + 1, 0, key) {
      if hash(key) % |b| == i {
        assert Find(b[i], key).Some?;
        var k := FindSome(b[i], key);
      }
    }
  }

  lemma MovedAll<V>(b: seq<seq<Entry<V>>>, hash: Key -> nat, m: map<Key, V>)
    requires |b| > 0
    ensures Moved(b, hash, m, |b|, 0) == m
  {
    assert forall key :: key in m ==> Before(b, hash, |b|, 0, key);
  }

  lemma MovedSmaller<V>(b: seq<seq<Entry<V>>>, hash: Key -> nat, m: map<Key, V>, i: nat, k: nat)
    requires |b| > 0
    ensures Moved(b, hash, m, i, k).Keys <= m.Keys
  {
  }

  // ----- the table -----

  class Table<V> {
    var table: array<Node<V>>
    var count: int
    var capacity: int
    var threshold: int
    /** `string_hash_code`, some fixed function whose values are not negative. */
    const hash: Key -> nat
    ghost var repr: set<Node<V>>
    ghost var cells: Cells<V>
    ghost var chains: seq<seq<Node<V>>>
    ghost var buckets: seq<seq<Entry<V>>>
    ghost var bindings: map<Key, V>

    ghost predicate Fields()
      reads this`repr, this`cells, repr
    {
      cells.Keys == repr && forall n :: n in repr ==> Cell(n.name, n.data, n.next) == cells[n]
    }

    /** The nodes hold `bindings`. */
    ghost predicate Holds()
      reads this, table, repr
    {
      && Fields() && table.Length == capacity && Held(table[..], chains, cells, buckets)
      && Placed(buckets, hash) && Represents(buckets, hash, bindings) && Total(buckets) == |bindings|
    }

    /** There are at most `count` bindings, and at most three quarters of the capacity. */
    ghost predicate Valid()
      reads this, table, repr
    {
      Holds() && threshold == capacity * 3 / 4 && |bindings| <= count && |bindings| <= threshold
    }

    /** The fields of the node at place `k` of a chain. */
    lemma ReadLink(c: seq<Node<V>>, e: seq<Entry<V>>, k: nat)
      requires Fields() && Chain(c, cells, e) && k < |c|
      ensures c[k] in repr && c[k].next == After(c, k)
      ensures if e == [] then c[k].name == None else k < |e| && c[k].name == Some(e[k].key) && c[k].data == Some(e[k].value)
    {
      assert Link(c, cells, e, k);
    }

    /**
      The walk along a chain to the node of `name`, or to the end; `lastNode` is the node before.
     */
    method Search(head: Node<V>, name: Key, ghost c: seq<Node<V>>, ghost e: seq<Entry<V>>)
      returns (node: Node?<V>, lastNode: Node?<V>, ghost k: nat)
      requires Fields() && Chain(c, cells, e) && head == c[0]
      ensures node == null ==> Find(e, name) == None
      ensures node != null ==> k < |e| && |c| == |e| && node == c[k] && e[k].key == name
      ensures node != null ==> lastNode == if k == 0 then null else c[k - 1]
    {
      hide Chain, Fields, Find;
      node, lastNode, k := head, null, 0;
      ChainLength(c, cells, e);
      ReadLink(c, e, 0);
      while node != null && node.name != None
        invariant k <= |e| && node == (if k < |c| then c[k] else null)
        invariant lastNode == if k == 0 then null else c[k - 1]
        invariant forall j :: 0 <= j < k ==> e[j].key != name
        invariant k < |c| ==> (if e == [] then c[k].name == None else k < |e| && c[k].name == Some(e[k].key))
        decreases |c| - k
      {
        ReadLink(c, e, k);
        var equal := StringEqual(node.name.value, name);
        if equal {
          return;
        }
        lastNode := node;
        node := node.next;
        k := k + 1;
        if k < |c| { ReadLink(c, e, k); }
      }
      FindNone(e, name);
      node := null;
    }

    lemma BucketOf(name: Key)
      requires Holds()
      ensures capacity == |buckets| == |chains| > 0 && table.Length == capacity
      ensures var i := hash(name) % capacity;
        && table[i] == chains[i][0] && Chain(chains[i], cells, buckets[i]) && Unique(buckets[i])
        && Find(buckets[i], name) == if name in bindings then Some(bindings[name]) else None
    {
      var i := hash(name) % capacity;
      assert table[..][i] == table[i] && Chain(chains[i], cells, buckets[i]);
    }

    /** `hash_table_get` */
    method Get(name: Key) returns (data: Option<V>)
      requires Holds()
      ensures data == if name in bindings then Some(bindings[name]) else None
    {
      hide Held, Chain, Placed, Represents, Find, Unique;
      BucketOf(name);
      var index := hash(name) % capacity;
      var node, last;
      ghost var k;
      node, last, k := Search(table[index], name, chains[index], buckets[index]);
      if node != null {
        ReadLink(chains[index], buckets[index], k);
        FindAt(buckets[index], k);
        return node.data;
      }
      data := None;
    }

    method SetCell(n: Node<V>, name: Option<Key>, data: Option<V>, next: Node?<V>)
      requires Fields() && n in repr
      modifies this`cells, n
      ensures Fields() && cells == old(cells)[n := Cell(name, data, next)]
    {
      n.name, n.data, n.next := name, data, next;
      cells := cells[n := Cell(name, data, next)];
    }

    method NewNode(name: Option<Key>, data: Option<V>) returns (n: Node<V>)
      requires Fields()
      modifies this`cells, this`repr
      ensures fresh(n) && n !in old(repr) && repr == old(repr) + {n}
      ensures Fields() && cells == old(cells)[n := Cell(name, data, null)]
    {
      n := new Node(name, data);
      repr, cells := repr + {n}, cells[n := Cell(name, data, null)];
    }

    /** The ghost view follows the pointers. */
    ghost method Record(cs: seq<seq<Node<V>>>, b: seq<seq<Entry<V>>>, m: map<Key, V>)
      requires Fields() && table.Length == capacity && Held(table[..], cs, cells, b)
      requires Placed(b, hash) && Represents(b, hash, m) && Total(b) == |m|
      modifies this`chains, this`buckets, this`bindings
      ensures Holds() && bindings == m && chains == cs && buckets == b
    {
      chains, buckets, bindings := cs, b, m;
    }

    /** The walk to the end of a chain. */
    method Tail(head: Node<V>, ghost c: seq<Node<V>>, ghost e: seq<Entry<V>>) returns (node: Node<V>)
      requires Fields() && Chain(c, cells, e) && head == c[0]
      ensures node in repr && |c| > 0 && node == c[|c| - 1]
      ensures e == [] ==> node.name == None && node == c[0]
      ensures e != [] ==> node.name != None && node.next == null
    {
      hide Chain, Fields;
      node := head;
      ghost var k := 0;
      ChainLength(c, cells, e);
      ReadLink(c, e, 0);
      while node.name != None && node.next != null
        invariant k < |c| && node == c[k] && node in repr && node.next == After(c, k)
        invariant node.name == if e == [] then None else Some(e[k].key)
        decreases |c| - k
      {
        node := node.next;
        k := k + 1;
        ReadLink(c, e, k);
      }
    }

    /** The branch of `add_node` for an empty slot. */
    method Fill(node: Node<V>, ghost i: nat, name: Key, data: V)
      requires Holds() && i < |buckets| && i < |chains| && i == hash(name) % |buckets| && buckets[i] == [] && name !in bindings && node == chains[i][0] && node in repr
      modifies this`cells, this`chains, this`buckets, this`bindings, node
      ensures Holds() && bindings == old(bindings)[name := data]
    {
      hide Held, Placed, Represents;
      ghost var m, b := bindings, buckets;
      AddRepresents(b, hash, m, name, data);
      FillHead(table[..], chains, cells, b, i, name, data);
      SetCell(node, Some(name), Some(data), null);
      Record(chains, b[i := b[i] + [Entry(name, data)]], m[name := data]);
    }

    /** The branch of `add_node` for the end of a chain. */
    method Append(node: Node<V>, ghost i: nat, name: Key, data: V)
      requires Holds() && i < |buckets| && i < |chains| && i == hash(name) % |buckets| && buckets[i] != [] && name !in bindings && |chains[i]| > 0
      requires node == chains[i][|chains[i]| - 1] && node in repr
      modifies this`cells, this`chains, this`buckets, this`bindings, this`repr, node
      ensures Holds() && bindings == old(bindings)[name := data] && fresh(repr - old(repr))
    {
      hide Held, Placed, Represents;
      ghost var m, b, cs, c := bindings, buckets, chains, cells;
      AddRepresents(b, hash, m, name, data);
      var newNode := NewNode(Some(name), Some(data));
      AppendNode(table[..], cs, c, b, i, newNode, name, data);
      SetCell(node, node.name, node.data, newNode);
      Record(cs[i := cs[i] + [newNode]], b[i := b[i] + [Entry(name, data)]], m[name := data]);
    }

    /** `add_node`, for a name that is not bound. */
    method AddNode(name: Key, data: V)
      requires Holds() && name !in bindings
      modifies this, repr
      ensures Holds() && bindings == old(bindings)[name := data] && count == old(count) + 1
      ensures table == old(table) && capacity == old(capacity) && threshold == old(threshold)
      ensures fresh(repr - old(repr))
    {
      hide Held, Chain, Placed, Represents, Find, Unique;
      BucketOf(name);
      var index := hash(name) % capacity;
      var node := Tail(table[index], chains[index], buckets[index]);
      if node.name == None {
        Fill(node, index, name, data);
      } else {
        Append(node, index, name, data);
      }
      count := count + 1;
    }

    /** New slots, every one an empty node. */
    method NewSlots(n: nat) returns (slots: array<Node<V>>)
      requires n > 0
      ensures fresh(slots) && slots.Length == n
      ensures forall i :: 0 <= i < n ==> fresh(slots[i]) && Cell(slots[i].name, slots[i].data, slots[i].next) == Cell(None, None, null)
      ensures forall i, j :: 0 <= i < j < n ==> slots[i] != slots[j]
    {
      var first := new Node(None, None);
      slots := new Node<V>[n](_ => first);
      for i := 1 to n
        invariant slots[0] == first && fresh(first)
        invariant forall j :: 0 <= j < i ==> fresh(slots[j]) && slots[j].name == None && slots[j].data == None && slots[j].next == null
        invariant forall j, k :: 0 <= j < k < i ==> slots[j] != slots[k]
      {
        slots[i] := new Node(None, None);
      }
    }

    /** The ghost view of empty slots. */
    ghost method Clear(slots: seq<Node<V>>)
      requires table[..] == slots && |slots| == capacity > 0
      requires forall i :: 0 <= i < |slots| ==> Cell(slots[i].name, slots[i].data, slots[i].next) == Cell(None, None, null)
      requires forall i, j :: 0 <= i < j < |slots| ==> slots[i] != slots[j]
      modifies this`repr, this`cells, this`chains, this`buckets, this`bindings
      ensures Holds() && bindings == map[] && repr == set i | 0 <= i < |slots| :: slots[i]
    {
      hide Held, Placed, Represents;
      repr := set i | 0 <= i < |slots| :: slots[i];
      cells := map n | n in repr :: Cell(None, None, null);
      ghost var cs: seq<seq<Node<V>>> := seq(|slots|, i requires 0 <= i < |slots| => [slots[i]]);
      ghost var b: seq<seq<Entry<V>>> := seq(|slots|, _ => []);
      EmptyRepresents<V>(|slots|, hash);
      EmptyHeld(slots, cs, cells, b);
      Record(cs, b, map[]);
    }

    /** `hash_table_new` */
    constructor (hash: Key -> nat)
      ensures Valid() && bindings == map[] && fresh(repr) && fresh(table)
    {
      this.hash := hash;
      capacity, count := 8, 0;
      threshold := 8 * 3 / 4;
      table := new Node<V>[0];
      new;
      table := NewSlots(8);
      Clear(table[..]);
    }

    /** The loop of `resize` over one chain of the old table. */
    method CopyChain(head: Node<V>, ghost c: seq<Node<V>>, ghost m: Cells<V>, ghost b: seq<seq<Entry<V>>>,
                     ghost all: map<Key, V>, ghost i: nat)
      requires Holds() && Placed(b, hash) && Represents(b, hash, all) && i < |b| && bindings == Moved(b, hash, all, i, 0)
      requires Chain(c, m, b[i]) && head == c[0] && m.Keys !! repr
      requires forall n :: n in m ==> Cell(n.name, n.data, n.next) == m[n]
      modifies this, repr
      ensures Holds() && bindings == Moved(b, hash, all, i + 1, 0) && count >= old(count)
      ensures table == old(table) && capacity == old(capacity) && threshold == old(threshold)
      ensures fresh(repr - old(repr))
    {
      hide Holds, Placed, Represents, Chain, Moved;
      var node: Node?<V> := head;
      ghost var e := b[i];
      ghost var k := 0;
      ChainLength(c, m, e);
      OldLink(c, m, e, 0);
      while node != null && node.name != None
        invariant Holds() && k <= |e| && node == (if k < |c| then c[k] else null)
        invariant k < |c| ==> node in m && (node.name == if e == [] then None else Some(e[k].key))
        invariant bindings == Moved(b, hash, all, i, k) && count >= old(count)
        invariant table == old(table) && capacity == old(capacity) && threshold == old(threshold)
        invariant fresh(repr - old(repr)) && m.Keys !! repr
        invariant forall n :: n in m ==> Cell(n.name, n.data, n.next) == m[n]
        decreases |c| - k
      {
        OldLink(c, m, e, k);
        MovedStep(b, hash, all, i, k);
        AddNode(node.name.value, node.data.value);
        node := node.next;
        k := k + 1;
        if k < |c| { OldLink(c, m, e, k); }
      }
      MovedBucket(b, hash, all, i);
    }

    /** An empty table in the place of the old one. */
    method Replace(newCapacity: int)
      requires newCapacity > 0
      modifies this
      ensures Holds() && bindings == map[] && fresh(table) && fresh(repr) && count == old(count)
      ensures capacity == newCapacity && threshold == newCapacity * 3 / 4
    {
      hide Holds;
      capacity := newCapacity;
      threshold := newCapacity * 3 / 4;
      table := NewSlots(newCapacity);
      Clear(table[..]);
    }

    /** The old table: chains of nodes with the fields `m`, none of them in the new table. */
    ghost predicate Old(oldTable: array<Node<V>>, cs: seq<seq<Node<V>>>, m: Cells<V>, b: seq<seq<Entry<V>>>, all: map<Key, V>)
      reads oldTable, m.Keys
    {
      && oldTable.Length == |cs| == |b| > 0 && Placed(b, hash) && Represents(b, hash, all)
      && (forall i :: 0 <= i < |b| ==> Chain(cs[i], m, b[i]) && oldTable[i] == cs[i][0])
      && forall n :: n in m ==> Cell(n.name, n.data, n.next) == m[n]
    }

    /** `resize`: the bindings go over one by one, and each of them counts again. */
    method Resize()
      requires Holds() && |bindings| <= count && |bindings| <= capacity * 3 / 4 + 1
      modifies this
      ensures Valid() && bindings == old(bindings) && fresh(table) && fresh(repr)
    {
      ghost var cs, m, b, all := chains, cells, buckets, bindings;
      var oldCapacity, oldTable := capacity, table;
      OldTable();
      hide Holds, Placed, Represents, Chain, Moved, Old;
      var newCapacity := 2 * oldCapacity + 1;
      Replace(newCapacity);
      CopyAll(oldCapacity, oldTable, cs, m, b, all);
    }

    /** The outer loop of `resize`. */
    method CopyAll(oldCapacity: int, oldTable: array<Node<V>>, ghost cs: seq<seq<Node<V>>>, ghost m: Cells<V>,
                   ghost b: seq<seq<Entry<V>>>, ghost all: map<Key, V>)
      requires Holds() && Old(oldTable, cs, m, b, all) && bindings == map[] && m.Keys !! repr && oldCapacity == |b|
      modifies this, repr
      ensures Holds() && bindings == all && count >= old(count)
      ensures table == old(table) && capacity == old(capacity) && threshold == old(threshold) && fresh(repr - old(repr))
    {
      hide Holds, Placed, Represents, Chain, Moved;
      MovedStart(b, hash, all);
      for i := 0 to oldCapacity
        invariant Holds() && bindings == Moved(b, hash, all, i, 0) && Old(oldTable, cs, m, b, all) && m.Keys !! repr
        invariant table == old(table) && capacity == old(capacity) && threshold == old(threshold) && count >= old(count)
        invariant fresh(repr - old(repr))
      {
        CopyChain(oldTable[i], cs[i], m, b, all, i);
      }
      MovedAll(b, hash, all);
    }

    /** The data of a name that is bound. */
    method Change(node: Node<V>, ghost i: nat, ghost k: nat, data: V)
      requires Holds() && i < |buckets| && k < |buckets[i]| && k < |chains[i]| && node == chains[i][k]
      modifies this`cells, this`chains, this`buckets, this`bindings, node
      ensures Holds() && buckets == old(buckets[i := buckets[i][k := Entry(buckets[i][k].key, data)]])
      ensures bindings == old(bindings)[old(buckets[i][k].key) := data] && old(buckets[i][k].key) in old(bindings)
    {
      hide Held, Placed, Represents;
      SetRepresents(buckets, hash, bindings, i, k, data);
      ChangeData(table[..], chains, cells, buckets, i, k, data);
      ghost var key, b, m := buckets[i][k].key, buckets, bindings;
      SetCell(node, node.name, Some(data), node.next);
      Record(chains, b[i := b[i][k := Entry(key, data)]], m[key := data]);
    }

    /** `hash_table_put`; null names and null data are ignored. */
    method Put(name: Option<Key>, data: Option<V>)
      requires Valid()
      modifies this, repr
      ensures Valid() && fresh(repr - old(repr)) && (table == old(table) || fresh(table))
      ensures name.None? || data.None? ==> bindings == old(bindings)
      ensures name.Some? && data.Some? ==> bindings == old(bindings)[name.value := data.value]
    {
      hide Held, Placed, Represents, Chain, Unique, Find;
      if name == None || data == None {
        return;
      }
      BucketOf(name.value);
      var index := hash(name.value) % capacity;
      var node, last;
      ghost var k;
      node, last, k := Search(table[index], name.value, chains[index], buckets[index]);
      if node != null {
        FindAt(buckets[index], k);
        ReadLink(chains[index], buckets[index], k);
        Change(node, index, k, data.value);
        return;
      }
      AddNode(name.value, data.value);
      if count > threshold {
        Resize();
      }
    }

    /** A binding at the head of its chain: the slot is emptied, or takes over the node behind it. */
    method RemoveHead(node: Node<V>, ghost i: nat)
      requires Holds() && i < |buckets| && i < |chains| && |buckets[i]| > 0 && |chains[i]| == |buckets[i]| && node == chains[i][0]
      requires Chain(chains[i], cells, buckets[i])
      modifies this`cells, this`chains, this`buckets, this`bindings, node
      ensures Holds() && bindings == old(bindings) - {old(buckets[i][0].key)}
    {
      hide Held, Placed, Represents, Chain;
      ghost var cs, b, m := chains, buckets, bindings;
      CutRepresents(b, hash, m, i, 0);
      ReadLink(cs[i], b[i], 0);
      if node.next == null {
        EmptyHead(table[..], cs, cells, b, i);
        SetCell(node, None, None, null);
      } else {
        PullHead(table[..], cs, cells, b, i);
        ReadLink(cs[i], b[i], 1);
        var next := node.next;
        SetCell(node, next.name, next.data, next.next);
        cs := cs[i := [cs[i][0]] + cs[i][2..]];
      }
      Record(cs, b[i := b[i][..0] + b[i][1..]], m - {b[i][0].key});
    }

    /** A binding further down: the node before is linked to the node behind. */
    method RemoveInner(node: Node<V>, last: Node<V>, ghost i: nat, ghost k: nat)
      requires Holds() && i < |buckets| && i < |chains| && 0 < k < |buckets[i]| && |chains[i]| == |buckets[i]|
      requires node == chains[i][k] && last == chains[i][k - 1] && Chain(chains[i], cells, buckets[i])
      modifies this`cells, this`chains, this`buckets, this`bindings, last
      ensures Holds() && bindings == old(bindings) - {old(buckets[i][k].key)}
    {
      hide Held, Placed, Represents, Chain;
      ghost var cs, b, m := chains, buckets, bindings;
      CutRepresents(b, hash, m, i, k);
      Unlinked(table[..], cs, cells, b, i, k);
      ReadLink(cs[i], b[i], k - 1);
      ReadLink(cs[i], b[i], k);
      SetCell(last, last.name, last.data, node.next);
      Record(cs[i := cs[i][..k] + cs[i][k + 1..]], b[i := b[i][..k] + b[i][k + 1..]], m - {b[i][k].key});
    }

    /** `hash_table_remove`; `count` keeps its value. */
    method Remove(name: Key)
      requires Valid()
      modifies this, repr
      ensures Valid() && bindings == old(bindings) - {name} && count == old(count) && repr == old(repr)
    {
      hide Held, Placed, Represents, Chain, Unique, Find;
      BucketOf(name);
      var index := hash(name) % capacity;
      var node, last;
      ghost var k;
      node, last, k := Search(table[index], name, chains[index], buckets[index]);
      if node != null {
        RemoveFound(node, last, index, k);
      }
    }

    method RemoveFound(node: Node<V>, last: Node?<V>, ghost i: nat, ghost k: nat)
      requires Holds() && i < |buckets| && i < |chains| && k < |buckets[i]| && |chains[i]| == |buckets[i]|
      requires node == chains[i][k] && last == (if k == 0 then null else chains[i][k - 1]) && Chain(chains[i], cells, buckets[i])
      modifies this`cells, this`chains, this`buckets, this`bindings, repr
      ensures Holds() && bindings == old(bindings) - {old(buckets[i][k].key)}
    {
      hide Held, Placed, Represents, Chain;
      ReadLink(chains[i], buckets[i], k);
      if last == null {
        RemoveHead(node, i);
      } else {
        ReadLink(chains[i], buckets[i], k - 1);
        RemoveInner(node, last, i, k);
      }
    }

    /** The chain behind a slot. */
    lemma AllChains(i: nat)
      requires Holds() && i < capacity
      ensures |chains| == |buckets| == table.Length == capacity && table[i] == chains[i][0]
      ensures Chain(chains[i], cells, buckets[i])
    {
      assert table[..][i] == table[i];
    }

    lemma OldTable()
      requires Holds()
      ensures table.Length == capacity == |buckets| > 0 && cells.Keys == repr && Old(table, chains, cells, buckets, bindings)
    {
      assert forall i :: 0 <= i < capacity ==> table[..][i] == table[i];
    }
  }

  lemma OldLink<V>(c: seq<Node<V>>, m: Cells<V>, e: seq<Entry<V>>, k: nat)
    requires Chain(c, m, e) && k < |c|
    ensures c[k] in m && m[c[k]].next == After(c, k)
    ensures if e == [] then m[c[k]].name == None
            else k < |e| && m[c[k]].name == Some(e[k].key) && m[c[k]].data == Some(e[k].value)
  {
    assert Link(c, m, e, k);
  }

  lemma EmptyHeld<V>(slots: seq<Node<V>>, cs: seq<seq<Node<V>>>, m: Cells<V>, b: seq<seq<Entry<V>>>)
    requires |slots| == |cs| == |b| && forall i :: 0 <= i < |b| ==> cs[i] == [slots[i]] && b[i] == []
    requires forall i :: 0 <= i < |slots| ==> slots[i] in m && m[slots[i]] == Cell(None, None, null)
    requires forall i, j :: 0 <= i < j < |slots| ==> slots[i] != slots[j]
    ensures Held(slots, cs, m, b)
  {
    forall i | 0 <= i < |b| ensures Chain(cs[i], m, b[i]) { assert Link(cs[i], m, b[i], 0); }
  }

  lemma ChainLength<V>(c: seq<Node<V>>, m: Cells<V>, e: seq<Entry<V>>)
    requires Chain(c, m, e)
    ensures |c| == if e == [] then 1 else |e|
  {
  }
}
