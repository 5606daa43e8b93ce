/**
  `hash_table_remove` of `src/hash_table.c` as it is written, next to the intended removal of
  `HashTable`: where it follows a null pointer, which node it frees, and exactly when the table
  is none the worse.
 */
module HashRemove {
  import opened Bytes
  import opened HashTable

  /** What removal makes of one chain: it faults, or leaves a chain and frees a node. */
  datatype Removal<V> = Fault | Removed(chain: seq<Node<V>>, entries: seq<Entry<V>>, freed: set<Node<V>>)

  ghost function Cut<T>(s: seq<T>, k: nat): seq<T>
    requires k < |s|
  {
    s[..k] + s[k + 1..]
  }

  /** The node at place `k` is the one to remove. */
  ghost function TakeOut<V>(c: seq<Node<V>>, e: seq<Entry<V>>, k: nat): Removal<V>
    requires |c| == |e| && k < |e|
  {
    if k > 0 then Removed(Cut(c, k), Cut(e, k), {c[k]})
    else if |c| == 1 then Removed(c, [], {})
    else Removed([c[0]] + c[2..], e[1..], if |c| > 2 then {c[2]} else {})
  }

  /** The walk from place `k` on; the loop tests the name behind a pointer that it has not tested. */
  ghost function Walk<V>(c: seq<Node<V>>, e: seq<Entry<V>>, name: Key, k: nat): Removal<V>
    requires |c| == (if e == [] then 1 else |e|) && k <= |e|
    decreases |e| - k
  {
    if e == [] then Removed(c, e, {})
    else if k == |e| then Fault
    else if e[k].key == name then TakeOut(c, e, k)
    else Walk(c, e, name, k + 1)
  }

  /** No fault, and no freed node is linked. */
  ghost predicate Sound<V>(r: Removal<V>) {
    r.Removed? && forall k :: 0 <= k < |r.chain| ==> r.chain[k] !in r.freed
  }

  /** What a caller can look up before the call. */
  ghost predicate SafeToRemove<V>(e: seq<Entry<V>>, name: Key) {
    (Find(e, name).Some? || e == []) && !(|e| >= 3 && e[0].key == name)
  }

  ghost predicate Different<V>(c: seq<Node<V>>) {
    forall k, l :: 0 <= k < l < |c| ==> c[k] != c[l]
  }

  lemma TakeOutSound<V>(c: seq<Node<V>>, e: seq<Entry<V>>, k: nat)
    requires |c| == |e| && k < |e| && Different(c)
    ensures Sound(TakeOut(c, e, k)) <==> !(k == 0 && |e| >= 3)
  {
    if k > 0 {
      assert forall j :: 0 <= j < |Cut(c, k)| ==> Cut(c, k)[j] == c[if j < k then j else j + 1];
    } else if |c| >= 3 {
      assert ([c[0]] + c[2..])[1] == c[2];
    }
  }

  lemma {:induction false} WalkFinds<V>(c: seq<Node<V>>, e: seq<Entry<V>>, name: Key, k: nat)
    requires |c| == (if e == [] then 1 else |e|) && k <= |e| && Unique(e)
    requires forall j :: 0 <= j < k ==> e[j].key != name
    ensures Walk(c, e, name, k) ==
      if e == [] then Removed(c, e, {})
      else if Place(e, name) == |e| then Fault
      else TakeOut(c, e, Place(e, name))
    decreases |e| - k
  {
    hide Unique;
    PlaceIs(e, name);
    if e != [] && k < |e| {
      if e[k].key == name { UniquePlace(e, k, Place(e, name)); } else { WalkFinds(c, e, name, k + 1); }
    }
  }

  /** The first place of a key, or the length. */
  ghost function Place<V>(e: seq<Entry<V>>, name: Key): (k: nat)
    ensures k <= |e|
  {
    if e == [] || e[0].key == name then 0 else 1 + Place(e[1..], name)
  }

  lemma {:induction false} PlaceIs<V>(e: seq<Entry<V>>, name: Key)
    ensures var k := Place(e, name); (k < |e| <==> Find(e, name).Some?) && (k < |e| ==> e[k].key == name)
    ensures forall j :: 0 <= j < Place(e, name) ==> e[j].key != name
    decreases |e|
  {
    if e != [] && e[0].key != name { PlaceIs(e[1..], name); }
  }

  lemma UniquePlace<V>(e: seq<Entry<V>>, j: nat, k: nat)
    requires Unique(e) && j < |e| && k < |e| && e[j].key == e[k].key
    ensures j == k
  {
  }

  /**
    Removal as written is sound exactly if the key is bound or its bucket is empty, and the key is
    not at the head of a bucket of three entries or more.
   */
  lemma SoundIff<V>(c: seq<Node<V>>, e: seq<Entry<V>>, name: Key)
    requires |c| == (if e == [] then 1 else |e|) && Unique(e) && Different(c)
    ensures Sound(Walk(c, e, name, 0)) <==> SafeToRemove(e, name)
  {
    hide Unique, Different;
    WalkFinds(c, e, name, 0);
    PlaceIs(e, name);
    if Find(e, name).Some? {
      TakeOutSound(c, e, Place(e, name));
      if e[0].key == name { UniquePlace(e, 0, Place(e, name)); }
    }
  }

  /** A key that is not bound, in a bucket with one entry: a null pointer is followed. */
  lemma AbsentKeyFaults<V>(c: Node<V>, v: V)
    ensures Walk([c], [Entry([1], v)], [2], 0) == Fault
  {
    assert Walk([c], [Entry([1], v)], [2], 1) == Fault;
  }

  /** The head of a chain of three: the third node is freed, and stays linked. */
  lemma HeadOfThreeFreed<V>(a: Node<V>, b: Node<V>, c: Node<V>, v: V)
    ensures Walk([a, b, c], [Entry([1], v), Entry([2], v), Entry([3], v)], [1], 0) ==
      Removed([a, c], [Entry([2], v), Entry([3], v)], {c})
  {
    var ns, e := [a, b, c], [Entry([1], v), Entry([2], v), Entry([3], v)];
    assert [ns[0]] + ns[2..] == [a, c] && e[1..] == [Entry([2], v), Entry([3], v)];
  }

  /** The assignments of the branch for the head. */
  method TakeHead<V>(t: Table<V>, node: Node<V>, ghost i: nat) returns (ghost freed: set<Node<V>>)
    requires t.Holds() && i < |t.buckets| && i < |t.chains| && |t.buckets[i]| > 0 && |t.chains[i]| == |t.buckets[i]|
    requires node == t.chains[i][0] && Chain(t.chains[i], t.cells, t.buckets[i])
    modifies t`cells, t`chains, t`buckets, t`bindings, node
    ensures t.Holds() && t.bindings == old(t.bindings) - {old(t.buckets[i][0].key)}
    ensures var r := TakeOut(old(t.chains[i]), old(t.buckets[i]), 0);
      t.chains == old(t.chains)[i := r.chain] && t.buckets == old(t.buckets)[i := r.entries] && freed == r.freed
  {
    hide Held, Placed, Represents, Chain;
    ghost var cs, b, m := t.chains, t.buckets, t.bindings;
    CutRepresents(b, t.hash, m, i, 0);
    t.ReadLink(cs[i], b[i], 0);
    assert b[i][..0] + b[i][1..] == b[i][1..];
    freed := {};
    if node.next == null {
      EmptyHead(t.table[..], cs, t.cells, b, i);
      t.SetCell(node, None, None, null);
    } else {
      PullHead(t.table[..], cs, t.cells, b, i);
      t.ReadLink(cs[i], b[i], 1);
      var next := node.next;
      t.SetCell(node, next.name, next.data, next.next);
      if node.next != null { freed := {node.next}; }
      cs := cs[i := [cs[i][0]] + cs[i][2..]];
    }
    t.Record(cs, b[i := b[i][..0] + b[i][1..]], m - {b[i][0].key});
  }

  /** The assignments of the branch for a node further down. */
  method TakeInner<V>(t: Table<V>, node: Node<V>, last: Node<V>, ghost i: nat, ghost k: nat) returns (ghost freed: set<Node<V>>)
    requires t.Holds() && i < |t.buckets| && i < |t.chains| && 0 < k < |t.buckets[i]| && |t.chains[i]| == |t.buckets[i]|
    requires node == t.chains[i][k] && last == t.chains[i][k - 1] && Chain(t.chains[i], t.cells, t.buckets[i])
    modifies t`cells, t`chains, t`buckets, t`bindings, last
    ensures t.Holds() && t.bindings == old(t.bindings) - {old(t.buckets[i][k].key)}
    ensures var r := TakeOut(old(t.chains[i]), old(t.buckets[i]), k);
      t.chains == old(t.chains)[i := r.chain] && t.buckets == old(t.buckets)[i := r.entries] && freed == r.freed
  {
    hide Held, Placed, Represents, Chain;
    ghost var cs, b, m := t.chains, t.buckets, t.bindings;
    CutRepresents(b, t.hash, m, i, k);
    Unlinked(t.table[..], cs, t.cells, b, i, k);
    t.ReadLink(cs[i], b[i], k - 1);
    t.ReadLink(cs[i], b[i], k);
    t.SetCell(last, last.name, last.data, node.next);
    freed := {node};
    t.Record(cs[i := cs[i][..k] + cs[i][k + 1..]], b[i := b[i][..k] + b[i][k + 1..]], m - {b[i][k].key});
  }

  method TakeNode<V>(t: Table<V>, node: Node<V>, last: Node?<V>, ghost i: nat, ghost k: nat) returns (ghost freed: set<Node<V>>)
    requires t.Holds() && i < |t.buckets| && i < |t.chains| && k < |t.buckets[i]| && |t.chains[i]| == |t.buckets[i]|
    requires node == t.chains[i][k] && last == (if k == 0 then null else t.chains[i][k - 1]) && Chain(t.chains[i], t.cells, t.buckets[i])
    modifies t`cells, t`chains, t`buckets, t`bindings, t.repr
    ensures t.Holds() && t.bindings == old(t.bindings) - {old(t.buckets[i][k].key)}
    ensures var r := TakeOut(old(t.chains[i]), old(t.buckets[i]), k);
      t.chains == old(t.chains)[i := r.chain] && freed == r.freed
  {
    hide Held, Placed, Represents, Chain;
    t.ReadLink(t.chains[i], t.buckets[i], k);
    if last == null {
      freed := TakeHead(t, node, i);
    } else {
      t.ReadLink(t.chains[i], t.buckets[i], k - 1);
      freed := TakeInner(t, node, last, i, k);
    }
  }

  /** No linked node has been freed. */
  ghost predicate NoneFreed<V>(cs: seq<seq<Node<V>>>, freed: set<Node<V>>) {
    forall i, k :: 0 <= i < |cs| && 0 <= k < |cs[i]| ==> cs[i][k] !in freed
  }

  lemma OtherChains<V>(cs: seq<seq<Node<V>>>, i: nat, c: seq<Node<V>>, freed: set<Node<V>>)
    requires Apart(cs) && i < |cs| && forall n :: n in freed ==> n in cs[i]
    ensures NoneFreed(cs[i := c], freed) <==> forall k :: 0 <= k < |c| ==> c[k] !in freed
  {
    var d := cs[i := c];
    if forall k :: 0 <= k < |c| ==> c[k] !in freed {
      forall j, k | 0 <= j < |d| && 0 <= k < |d[j]| ensures d[j][k] !in freed {
        if j != i { NotIn(cs, i, j, k); }
      }
    } else {
      var k :| 0 <= k < |c| && c[k] in freed;
      assert d[i][k] in freed;
    }
  }

  lemma FreedFromChain<V>(c: seq<Node<V>>, e: seq<Entry<V>>, k: nat)
    requires |c| == |e| && k < |e|
    ensures TakeOut(c, e, k).Removed? && forall n :: n in TakeOut(c, e, k).freed ==> n in c
  {
  }

  lemma ChainsDiffer<V>(t: Table<V>, i: nat)
    requires t.Holds() && i < |t.chains|
    ensures Apart(t.chains) && Different(t.chains[i])
  {
    ChainApart(t.chains, i);
  }

  lemma WalkStep<V>(c: seq<Node<V>>, e: seq<Entry<V>>, name: Key, k: nat)
    requires |c| == (if e == [] then 1 else |e|) && k < |e|
    ensures Walk(c, e, name, k) == if e[k].key == name then TakeOut(c, e, k) else Walk(c, e, name, k + 1)
  {
  }

  lemma WalkEnd<V>(c: seq<Node<V>>, e: seq<Entry<V>>, name: Key)
    requires |c| == (if e == [] then 1 else |e|)
    ensures Walk(c, e, name, |e|) == if e == [] then Removed(c, e, {}) else Fault
  {
  }

  /** The loop over the chain: at its end `node` is null if the name of a null pointer would be read. */
  method WalkAsWritten<V>(t: Table<V>, head: Node<V>, name: Key, ghost c: seq<Node<V>>, ghost e: seq<Entry<V>>)
    returns (found: bool, node: Node?<V>, last: Node?<V>, ghost k: nat)
    requires t.Fields() && Chain(c, t.cells, e) && head == c[0] && |c| == if e == [] then 1 else |e|
    ensures found ==> k < |e| && |c| == |e| && node == c[k] && e[k].key == name && last == if k == 0 then null else c[k - 1]
    ensures found ==> Walk(c, e, name, 0) == TakeOut(c, e, k)
    ensures !found ==> Find(e, name) == None && (node == null <==> e != [])
    ensures !found ==> Walk(c, e, name, 0) == if e == [] then Removed(c, e, {}) else Fault
  {
    hide Chain, Find, Walk, TakeOut;
    found, node, last, k := false, head, null, 0;
    t.ReadLink(c, e, 0);
    while node != null && node.name != None
      invariant k <= |e| && node == (if k < |c| then c[k] else null) && last == if k == 0 then null else c[k - 1]
      invariant k < |c| ==> (if e == [] then c[k].name == None else k < |e| && c[k].name == Some(e[k].key))
      invariant Walk(c, e, name, k) == Walk(c, e, name, 0) && forall j :: 0 <= j < k ==> e[j].key != name
      decreases |c| - k
    {
      t.ReadLink(c, e, k);
      WalkStep(c, e, name, k);
      var equal := StringEqual(node.name.value, name);
      if equal {
        found := true;
        return;
      }
      last := node;
      node := node.next;
      k := k + 1;
      if k < |c| { t.ReadLink(c, e, k); }
    }
    WalkEnd(c, e, name);
    FindNone(e, name);
  }

  /**
    `hash_table_remove` as written: when it does not fault the binding is gone, and the table is none the
    worse, with no fault and no freed node linked, exactly in the case of `SafeToRemove`.
   */
  method RemoveAsWritten<V>(t: Table<V>, name: Key) returns (fault: bool, ghost freed: set<Node<V>>)
    requires t.Holds()
    modifies t`cells, t`chains, t`buckets, t`bindings, t.repr
    ensures |old(t.buckets)| == |old(t.chains)| == t.capacity > 0
    ensures fault <==> name !in old(t.bindings) && old(t.buckets)[t.hash(name) % t.capacity] != []
    ensures !fault ==> t.Holds() && t.bindings == old(t.bindings) - {name}
    ensures !fault && NoneFreed(t.chains, freed) <==> SafeToRemove(old(t.buckets)[t.hash(name) % t.capacity], name)
  {
    hide Held, Placed, Represents, Chain, Unique, Find, Walk, TakeOut, Apart, NoneFreed, Different;
    t.BucketOf(name);
    var index := t.hash(name) % t.capacity;
    ghost var cs, c, e := t.chains, t.chains[index], t.buckets[index];
    ChainLength(c, t.cells, e);
    ChainsDiffer(t, index);
    SoundIff(c, e, name);
    var found, node, last;
    ghost var k;
    found, node, last, k := WalkAsWritten(t, t.table[index], name, c, e);
    if !found {
      fault, freed := node == null, {};
      OtherChains(cs, index, c, {});
      assert cs[index := c] == cs;
      return;
    }
    FindAt(e, k);
    FreedFromChain(c, e, k);
    fault := false;
    freed := TakeNode(t, node, last, index, k);
    OtherChains(cs, index, TakeOut(c, e, k).chain, freed);
  }
}
