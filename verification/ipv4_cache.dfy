/**
  The IPv4 cache of `src/ipv4_cache.c`: bindings in a hash table, and the sweep that removes the
  ones that have expired.
 */
module Ipv4Cache {
  import opened Bytes
  import opened Sequences
  import opened DnsMessage
  import opened HashTable

  /** An `ipv4_cache_t`. */
  datatype Cache = Cache(addresses: seq<u32>, ttl: int, timestamp: int, manual: bool)

  /** `ipv4_cache_put` at time `now`: entries that are kept by hand are left alone. */
  method CachePut(t: Table<Cache>, name: Key, cache: Cache, now: int)
    requires t.Valid()
    modifies t, t.repr
    ensures t.Valid()
    ensures t.bindings ==
      if name in old(t.bindings) && old(t.bindings)[name].manual then old(t.bindings)
      else old(t.bindings)[name := Cache(cache.addresses, cache.ttl, now, false)]
  {
    var oldCache := t.Get(name);
    if oldCache.None? || !oldCache.value.manual {
      t.Put(Some(name), Some(Cache(cache.addresses, cache.ttl, now, false)));
    }
  }

  predicate Expired(c: Cache, now: int) {
    !c.manual && c.timestamp + c.ttl < now
  }

  ghost function ExpiredKeys(m: map<Key, Cache>, now: int): set<Key> {
    set key | key in m && Expired(m[key], now)
  }

  /** The entries that the sweep leaves. */
  ghost function Kept(m: map<Key, Cache>, now: int): map<Key, Cache> {
    map key | key in m && !Expired(m[key], now) :: m[key]
  }

  ghost function Names(names: seq<Key>): set<Key> {
    set n | n in names
  }

  lemma NamesSnoc(names: seq<Key>, i: nat)
    requires i < |names|
    ensures Names(names[..i + 1]) == Names(names[..i]) + {names[i]}
  {
    assert names[..i + 1] == names[..i] + [names[i]];
  }

  /** `names` are the expired keys of `m`, each once. */
  ghost predicate Collected(names: seq<Key>, m: map<Key, Cache>, now: int) {
    Distinct(names) && Names(names) == ExpiredKeys(m, now)
  }

  lemma {:induction false} CollectedSize(names: seq<Key>, s: set<Key>)
    requires Distinct(names) && forall n :: n in names ==> n in s
    ensures |names| <= |s|
    decreases |names|
  {
    if names != [] {
      var rest, last := names[..|names| - 1], names[|names| - 1];
      forall n | n in rest ensures n in s - {last} {
        var i :| 0 <= i < |rest| && rest[i] == n;
        assert names[i] == n && n in names;
      }
      assert last in names;
      CollectedSize(rest, s - {last});
    }
  }

  lemma CollectStep(names: seq<Key>, m: map<Key, Cache>, key: Key, c: Cache, now: int)
    requires Collected(names, m, now) && key !in m
    ensures Expired(c, now) ==> Collected(names + [key], m[key := c], now)
    ensures !Expired(c, now) ==> Collected(names, m[key := c], now)
  {
    if Expired(c, now) {
      assert forall i :: 0 <= i < |names| ==> names[i] in Names(names);
      assert Names(names + [key]) == Names(names) + {key};
      assert ExpiredKeys(m[key := c], now) == ExpiredKeys(m, now) + {key};
    } else {
      assert ExpiredKeys(m[key := c], now) == ExpiredKeys(m, now);
    }
  }

  /** Fewer names have been collected than there is room for, as long as an expired one is left. */
  lemma RoomLeft(names: seq<Key>, m: map<Key, Cache>, all: map<Key, Cache>, key: Key, count: int, now: int)
    requires Collected(names, m, now) && m.Keys <= all.Keys && key in all && key !in m && |all| <= count
    ensures |names| < count
  {
    forall n | n in names ensures n in all.Keys - {key} {
      assert n in ExpiredKeys(m, now) && n in m.Keys;
    }
    CollectedSize(names, all.Keys - {key});
    assert |all.Keys| == |all|;
  }

  /** One entry: its key is collected if it has expired, and there is room for it. */
  method CollectOne(result: array<Key>, count0: nat, key: Key, cache: Cache, now: int,
                    ghost seen: map<Key, Cache>, ghost all: map<Key, Cache>)
    returns (count: nat)
    requires count0 <= result.Length && Collected(result[..count0], seen, now)
    requires key !in seen && seen.Keys <= all.Keys && key in all && |all| <= result.Length
    modifies result
    ensures count0 <= count <= result.Length && Collected(result[..count], seen[key := cache], now)
  {
    hide Collected;
    count := count0;
    CollectStep(result[..count], seen, key, cache, now);
    RoomLeft(result[..count], seen, all, key, result.Length, now);
    if !cache.manual && cache.timestamp + cache.ttl < now {
      result[count] := key;
      count := count + 1;
      assert result[..count] == old(result[..count0]) + [key];
    }
  }

  /** The inner loop of the first part of `ipv4_cache_clear`. */
  method CollectChain(t: Table<Cache>, i: nat, result: array<Key>, count0: nat, now: int) returns (count: nat)
    requires t.Valid() && i < t.capacity && count0 <= result.Length == t.count
    requires |t.buckets| > 0 && Collected(result[..count0], Moved(t.buckets, t.hash, t.bindings, i, 0), now)
    modifies result
    ensures t.Valid() && t.bindings == old(t.bindings) && count0 <= count <= result.Length
    ensures Collected(result[..count], Moved(t.buckets, t.hash, t.bindings, i + 1, 0), now)
  {
    hide Held, Placed, Represents, Chain, Find, Unique, Moved, Collected;
    t.OldTable();
    t.AllChains(i);
    ghost var b, m, c, e := t.buckets, t.bindings, t.chains[i], t.buckets[i];
    ChainLength(c, t.cells, e);
    t.ReadLink(c, e, 0);
    var node: Node?<Cache> := t.table[i];
    count := count0;
    ghost var k := 0;
    while node != null && node.name != None
      invariant k <= |e| && count0 <= count <= result.Length && node == (if k < |c| then c[k] else null)
      invariant k < |c| ==> (if e == [] then node.name == None else k < |e| && node.name == Some(e[k].key) && node.data == Some(e[k].value))
      invariant Collected(result[..count], Moved(b, t.hash, m, i, k), now)
      decreases |c| - k
    {
      t.ReadLink(c, e, k);
      MovedStep(b, t.hash, m, i, k);
      MovedSmaller(b, t.hash, m, i, k);
      KeyBound(b, t.hash, m, i, k);
      count := CollectOne(result, count, node.name.value, node.data.value, now, Moved(b, t.hash, m, i, k), m);
      node := node.next;
      k := k + 1;
      if k < |c| { t.ReadLink(c, e, k); }
    }
    MovedBucket(b, t.hash, m, i);
  }

  lemma KeyBound(b: seq<seq<Entry<Cache>>>, hash: Key -> nat, m: map<Key, Cache>, i: nat, k: nat)
    requires Placed(b, hash) && Represents(b, hash, m) && i < |b| && k < |b[i]|
    ensures b[i][k].key in m
  {
    FindAt(b[i], k);
    assert hash(b[i][k].key) % |b| == i;
  }

  lemma NoNames(names: seq<Key>)
    ensures Names(names[..0]) == {} && names[..|names|] == names
  {
  }

  /** The second part of `ipv4_cache_clear`: the collected names are removed. */
  method RemoveAll(t: Table<Cache>, result: array<Key>, count: nat)
    requires t.Valid() && count <= result.Length
    modifies t, t.repr
    ensures t.Valid() && t.bindings == old(t.bindings) - Names(result[..count])
  {
    hide *;
    ghost var names, m := result[..count], t.bindings;
    NoNames(names);
    for i := 0 to count
      invariant t.Valid() && t.bindings == m - Names(names[..i]) && t.repr == old(t.repr)
      invariant result[..count] == names
    {
      t.Remove(result[i]);
      NamesSnoc(names, i);
    }
  }

  /** The first part of `ipv4_cache_clear`: the names are collected, and the array for them is never overrun. */
  method CollectAll(t: Table<Cache>, now: int) returns (result: array<Key>, count: nat)
    requires t.Valid()
    ensures t.Valid() && t.bindings == old(t.bindings) && fresh(result) && count <= result.Length == t.count
    ensures Collected(result[..count], t.bindings, now)
  {
    hide *;
    ghost var b, m, hash := t.buckets, t.bindings, t.hash;
    OldBuckets(t);
    result := new Key[t.count](_ => []);
    count := 0;
    NothingCollected(b, hash, m, now);
    NoNames(result[..0]);
    for i := 0 to t.capacity
      invariant t.Valid() && t.bindings == m && t.buckets == b
      invariant count <= result.Length && Collected(result[..count], Moved(b, hash, m, i, 0), now)
      modifies result
    {
      count := CollectChain(t, i, result, count, now);
    }
    MovedAll(b, hash, m);
  }

  lemma OldBuckets(t: Table<Cache>)
    requires t.Valid()
    ensures t.count >= 0 && |t.buckets| > 0 && |t.buckets| == t.capacity && Placed(t.buckets, t.hash) && Represents(t.buckets, t.hash, t.bindings)
  {
    t.OldTable();
  }

  /** `ipv4_cache_clear` at time `now`: exactly the expired entries are gone. */
  method CacheClear(t: Table<Cache>, now: int)
    requires t.Valid()
    modifies t, t.repr
    ensures t.Valid() && t.bindings == Kept(old(t.bindings), now)
  {
    hide *;
    var result, count := CollectAll(t, now);
    AllExpired(result[..count], t.bindings, now);
    RemoveAll(t, result, count);
  }

  lemma NothingCollected(b: seq<seq<Entry<Cache>>>, hash: Key -> nat, m: map<Key, Cache>, now: int)
    requires |b| > 0
    ensures Collected([], Moved(b, hash, m, 0, 0), now)
  {
    MovedStart(b, hash, m);
  }

  lemma AllExpired(names: seq<Key>, m: map<Key, Cache>, now: int)
    requires Collected(names, m, now)
    ensures m - Names(names) == Kept(m, now)
  {
  }
}
