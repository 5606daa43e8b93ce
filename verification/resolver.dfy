/**
  How `bind_socket_read` of `src/socket.c` answers from the caches: a first pass that looks whether
  all questions can be answered and counts the answers, and a second one that writes them.
 */
module Resolver {
  import opened Bytes
  import opened DnsMessage
  import opened Ipv4Cache

  type Name = seq<byte>

  const TYPE_A: u16 := 1
  const TYPE_CNAME: u16 := 5
  const TYPE_AAAA: u16 := 28

  /** What the three caches hold. */
  datatype Contents = Contents(cnames: map<Name, Name>, ipv4: map<Name, Cache>, ipv6: map<Name, seq<seq<byte>>>)

  // -- Chains of CNAME links --------------------------------------------------------------------

  ghost predicate Link(c: map<Name, Name>, names: seq<Name>, i: nat)
    requires i + 1 < |names|
  {
    names[i] in c && c[names[i]] == names[i + 1]
  }

  /** `names` are the names that the links lead to from `d`, up to the one without a link. */
  ghost predicate IsChain(c: map<Name, Name>, d: Name, names: seq<Name>) {
    names != [] && names[0] == d && names[|names| - 1] !in c && forall i :: 0 <= i < |names| - 1 ==> Link(c, names, i)
  }

  /** The links lead from `d` to a name without a link. */
  ghost predicate Terminates(c: map<Name, Name>, d: Name) {
    exists names :: IsChain(c, d, names)
  }

  lemma ChainUnique(c: map<Name, Name>, d: Name, a: seq<Name>, b: seq<Name>)
    requires IsChain(c, d, a) && IsChain(c, d, b)
    ensures a == b
  {
    AtChain(c, d, a, |b|);
    AtChain(c, d, b, |b|);
    AtChain(c, d, a, |a|);
    AtChain(c, d, b, |a|);
    forall k | 0 <= k < |a| ensures k < |b| && a[k] == b[k] {
      AtChain(c, d, a, k);
      AtChain(c, d, b, k);
    }
  }

  ghost function ChainOf(c: map<Name, Name>, d: Name): (names: seq<Name>)
    requires Terminates(c, d)
    ensures IsChain(c, d, names)
  {
    var names :| IsChain(c, d, names);
    names
  }

  /** The name that `k` links lead to, if there are as many. */
  ghost function At(c: map<Name, Name>, d: Name, k: nat): Option<Name> {
    if k == 0 then Some(d) else
    var p := At(c, d, k - 1);
    if p.Some? && p.value in c then Some(c[p.value]) else None
  }

  /** The links lead back to a name. */
  ghost predicate Cyclic(c: map<Name, Name>, d: Name) {
    exists i: nat, j: nat :: i < j && At(c, d, i) == At(c, d, j) && At(c, d, i).Some?
  }

  lemma {:induction false} AtChain(c: map<Name, Name>, d: Name, names: seq<Name>, k: nat)
    requires IsChain(c, d, names)
    ensures At(c, d, k) == if k < |names| then Some(names[k]) else None
  {
    if k > 0 {
      AtChain(c, d, names, k - 1);
      if k < |names| { assert Link(c, names, k - 1); }
    }
  }

  lemma {:induction false} Periodic(c: map<Name, Name>, d: Name, i: nat, j: nat, n: nat)
    requires i < j && At(c, d, i) == At(c, d, j) && n >= i
    ensures At(c, d, n + j - i) == At(c, d, n)
  {
    if n > i { Periodic(c, d, i, j, n - 1); }
  }

  lemma {:induction false} EarlierSome(c: map<Name, Name>, d: Name, k: nat, n: nat)
    requires At(c, d, n).Some? && k <= n
    ensures At(c, d, k).Some?
    decreases n
  {
    if k < n { EarlierSome(c, d, k, n - 1); }
  }

  lemma {:induction false} CyclicForever(c: map<Name, Name>, d: Name, i: nat, j: nat, n: nat)
    requires i < j && At(c, d, i) == At(c, d, j) && At(c, d, i).Some?
    ensures At(c, d, n).Some?
  {
    if n <= j {
      EarlierSome(c, d, n, j);
    } else {
      Periodic(c, d, i, j, n - (j - i));
      CyclicForever(c, d, i, j, n - (j - i));
    }
  }

  /** The names that the first `n` links lead from. */
  ghost function Sources(c: map<Name, Name>, d: Name, n: nat): set<Name> {
    if n == 0 then {} else Sources(c, d, n - 1) + (if At(c, d, n - 1).Some? then {At(c, d, n - 1).value} else {})
  }

  lemma {:induction false} SourceAt(c: map<Name, Name>, d: Name, n: nat, x: Name) returns (i: nat)
    requires x in Sources(c, d, n)
    ensures i < n && At(c, d, i) == Some(x)
  {
    if x in Sources(c, d, n - 1) { i := SourceAt(c, d, n - 1, x); } else { i := n - 1; }
  }

  lemma {:induction false} SourcesAre(c: map<Name, Name>, d: Name, n: nat)
    requires !Cyclic(c, d) && At(c, d, n).Some?
    ensures |Sources(c, d, n)| == n && Sources(c, d, n) <= c.Keys
  {
    if n > 0 {
      SourcesAre(c, d, n - 1);
      var x := At(c, d, n - 1).value;
      if x in Sources(c, d, n - 1) {
        var i := SourceAt(c, d, n - 1, x);
        assert Cyclic(c, d);
      }
    }
  }

  lemma {:induction false} ChainUpTo(c: map<Name, Name>, d: Name, n: nat) returns (names: seq<Name>)
    requires At(c, d, n).Some?
    ensures |names| == n + 1 && names[0] == d && At(c, d, n) == Some(names[n])
    ensures forall i :: 0 <= i < n ==> Link(c, names, i)
  {
    if n == 0 {
      names := [d];
    } else {
      var init := ChainUpTo(c, d, n - 1);
      names := init + [At(c, d, n).value];
      forall i | 0 <= i < n ensures Link(c, names, i) {
        if i < n - 1 { assert Link(c, init, i); }
      }
    }
  }

  lemma {:induction false} FirstNone(c: map<Name, Name>, d: Name, n: nat) returns (k: nat)
    requires At(c, d, n).None?
    ensures k < n && At(c, d, k).Some? && At(c, d, k + 1).None?
  {
    if At(c, d, n - 1).Some? { k := n - 1; } else { k := FirstNone(c, d, n - 1); }
  }

  lemma Ends(c: map<Name, Name>, d: Name)
    requires !Cyclic(c, d)
    ensures At(c, d, |c| + 1).None?
  {
    assert |c.Keys| == |c|;
    if At(c, d, |c| + 1).Some? {
      SourcesAre(c, d, |c| + 1);
      SubsetSize(Sources(c, d, |c| + 1), c.Keys);
    }
  }

  lemma {:induction false} SubsetSize(a: set<Name>, b: set<Name>)
    requires a <= b
    ensures |a| <= |b|
  {
    if a != {} {
      var x :| x in a;
      SubsetSize(a - {x}, b - {x});
    }
  }

  /** The walks over the links end exactly when the links do not lead back to a name. */
  lemma TerminatesIff(c: map<Name, Name>, d: Name)
    ensures Terminates(c, d) <==> !Cyclic(c, d)
  {
    if Terminates(c, d) {
      var names := ChainOf(c, d);
      AtChain(c, d, names, |names|);
      forall i: nat, j: nat | i < j && At(c, d, i) == At(c, d, j) ensures At(c, d, i).None? {
        if At(c, d, i).Some? { CyclicForever(c, d, i, j, |names|); }
      }
    } else if !Cyclic(c, d) {
      Ends(c, d);
      var k := FirstNone(c, d, |c| + 1);
      var names := ChainUpTo(c, d, k);
      assert IsChain(c, d, names);
    }
  }

  // -- The answers ------------------------------------------------------------------------------

  /** `generate_cname_response`: the length is that of the owner, cut to 16 bits. */
  function CnameRecord(owner: Name, target: Name): Record {
    Record(owner, 1, 120, |owner| % 0x1_0000, Cname(target))
  }

  /** `generate_ipv4_response`. */
  function Ipv4Record(owner: Name, address: u32): Record {
    Record(owner, 1, 120, 4, A(address))
  }

  /** `generate_ipv6_response`. */
  function Ipv6Record(owner: Name, address: seq<byte>): Record {
    Record(owner, 1, 120, 16, Aaaa(address))
  }

  function ChainRecords(names: seq<Name>): (rs: seq<Record>)
    ensures |rs| == if names == [] then 0 else |names| - 1
  {
    if |names| <= 1 then [] else ChainRecords(names[..|names| - 1]) + [CnameRecord(names[|names| - 2], names[|names| - 1])]
  }

  function Ipv4Records(owner: Name, addresses: seq<u32>): (rs: seq<Record>)
    ensures |rs| == |addresses|
  {
    if addresses == [] then [] else
    Ipv4Records(owner, addresses[..|addresses| - 1]) + [Ipv4Record(owner, addresses[|addresses| - 1])]
  }

  function Ipv6Records(owner: Name, addresses: seq<seq<byte>>): (rs: seq<Record>)
    ensures |rs| == |addresses|
  {
    if addresses == [] then [] else
    Ipv6Records(owner, addresses[..|addresses| - 1]) + [Ipv6Record(owner, addresses[|addresses| - 1])]
  }

  predicate Followed(q: Query) {
    q.qtype == TYPE_A || q.qtype == TYPE_CNAME || q.qtype == TYPE_AAAA
  }

  ghost predicate Walkable(c: map<Name, Name>, qs: seq<Query>) {
    forall q :: q in qs && Followed(q) ==> Terminates(c, q.name)
  }

  ghost function LastOf(v: Contents, q: Query): Name
    requires Terminates(v.cnames, q.name)
  {
    var names := ChainOf(v.cnames, q.name);
    names[|names| - 1]
  }

  /** The question can be answered from the caches; questions of other types always can. */
  ghost predicate Hit(v: Contents, q: Query)
    requires Followed(q) ==> Terminates(v.cnames, q.name)
  {
    if q.qtype == TYPE_A then LastOf(v, q) in v.ipv4
    else if q.qtype == TYPE_CNAME then q.name in v.cnames
    else if q.qtype == TYPE_AAAA then LastOf(v, q) in v.ipv6
    else true
  }

  /** A name is blocked by giving it the address 0. */
  predicate Zero(c: Cache) {
    c.addresses != [] && c.addresses[0] == 0
  }

  ghost predicate Blocked(v: Contents, q: Query)
    requires Followed(q) ==> Terminates(v.cnames, q.name)
  {
    q.qtype == TYPE_A && LastOf(v, q) in v.ipv4 && Zero(v.ipv4[LastOf(v, q)])
  }

  /** The links from the name asked for, and then the addresses of the name they lead to. */
  ghost function AnswersTo(v: Contents, q: Query): seq<Record>
    requires Followed(q) ==> Terminates(v.cnames, q.name)
  {
    if !Followed(q) then [] else
    var names := ChainOf(v.cnames, q.name);
    var last := names[|names| - 1];
    ChainRecords(names)
    + (if q.qtype == TYPE_A && last in v.ipv4 then Ipv4Records(last, v.ipv4[last].addresses)
       else if q.qtype == TYPE_AAAA && last in v.ipv6 then Ipv6Records(last, v.ipv6[last])
       else [])
  }

  ghost function Answers(v: Contents, qs: seq<Query>): seq<Record>
    requires Walkable(v.cnames, qs)
  {
    if qs == [] then [] else Answers(v, qs[..|qs| - 1]) + AnswersTo(v, qs[|qs| - 1])
  }

  ghost predicate AllHit(v: Contents, qs: seq<Query>)
    requires Walkable(v.cnames, qs)
  {
    forall i :: 0 <= i < |qs| ==> Hit(v, qs[i])
  }

  ghost predicate AnyBlocked(v: Contents, qs: seq<Query>)
    requires Walkable(v.cnames, qs)
  {
    exists i :: 0 <= i < |qs| && Blocked(v, qs[i])
  }

  // -- What looking does to the IPv4 cache ------------------------------------------------------

  /**
    The test of an entry assigns to its `manual` flag whether its first address is 0
    (src/socket.c:326).
   */
  function Mark(ipv4: map<Name, Cache>, d: Name): map<Name, Cache>
    requires d in ipv4
  {
    ipv4[d := ipv4[d].(manual := Zero(ipv4[d]))]
  }

  /** The IPv4 cache after the questions have been looked up, up to the first miss. */
  ghost function Looked(v: Contents, qs: seq<Query>): (r: map<Name, Cache>)
    requires Walkable(v.cnames, qs)
    ensures r.Keys == v.ipv4.Keys
  {
    if qs == [] then v.ipv4 else
    var q := qs[|qs| - 1];
    var m := Looked(v, qs[..|qs| - 1]);
    if AllHit(v, qs[..|qs| - 1]) && q.qtype == TYPE_A && LastOf(v, q) in m then Mark(m, LastOf(v, q)) else m
  }

  /** Nothing but flags has changed. */
  ghost predicate SameAddresses(a: map<Name, Cache>, b: map<Name, Cache>) {
    a.Keys == b.Keys && forall d :: d in a ==> b[d] == a[d].(manual := b[d].manual)
  }

  lemma {:induction false} LookedSame(v: Contents, qs: seq<Query>)
    requires Walkable(v.cnames, qs)
    ensures SameAddresses(v.ipv4, Looked(v, qs))
    ensures forall d :: d in v.ipv4 ==> Looked(v, qs)[d].manual == v.ipv4[d].manual || Looked(v, qs)[d].manual == Zero(v.ipv4[d])
    decreases |qs|
  {
    if qs != [] { LookedSame(v, qs[..|qs| - 1]); }
  }

  /** Some question for the addresses of a chain that ends at `d` was looked up. */
  ghost predicate AskedFor(v: Contents, qs: seq<Query>, d: Name)
    requires Walkable(v.cnames, qs)
  {
    exists i :: 0 <= i < |qs| && AskedAt(v, qs, d, i)
  }

  ghost predicate AskedAt(v: Contents, qs: seq<Query>, d: Name, i: nat)
    requires Walkable(v.cnames, qs) && i < |qs|
  {
    AllHit(v, qs[..i]) && qs[i].qtype == TYPE_A && qs[i] in qs && LastOf(v, qs[i]) == d
  }

  lemma AskedSnoc(v: Contents, qs: seq<Query>, d: Name)
    requires Walkable(v.cnames, qs) && qs != []
    ensures AskedFor(v, qs, d) <==> AskedFor(v, qs[..|qs| - 1], d) || AskedAt(v, qs, d, |qs| - 1)
  {
    hide AllHit, LastOf;
    var init := qs[..|qs| - 1];
    forall i | 0 <= i < |init| ensures AskedAt(v, init, d, i) == AskedAt(v, qs, d, i) {
      assert init[..i] == qs[..i] && init[i] == qs[i] && init[i] in init && qs[i] in qs;
    }
  }

  /** Looking up sets the flag of exactly the entries that are looked at, to whether they are blocked. */
  lemma {:induction false} LookedExact(v: Contents, qs: seq<Query>, d: Name)
    requires Walkable(v.cnames, qs) && d in v.ipv4
    ensures Looked(v, qs)[d] == v.ipv4[d].(manual := if AskedFor(v, qs, d) then Zero(v.ipv4[d]) else v.ipv4[d].manual)
    decreases |qs|
  {
    hide AllHit, LastOf, AskedFor;
    if qs == [] {
      NothingAsked(v, qs, d);
    } else {
      LookedExact(v, qs[..|qs| - 1], d);
      AskedSnoc(v, qs, d);
      assert qs[|qs| - 1] in qs;
    }
  }

  lemma NothingAsked(v: Contents, qs: seq<Query>, d: Name)
    requires Walkable(v.cnames, qs) && qs == []
    ensures !AskedFor(v, qs, d)
  {
  }

  /** An entry survives the next sweep exactly if it has not expired, or its flag is set, by asking or from before. */
  lemma SweptIff(v: Contents, qs: seq<Query>, d: Name, now: int)
    requires Walkable(v.cnames, qs) && d in v.ipv4
    ensures d in Kept(Looked(v, qs), now) <==>
      v.ipv4[d].timestamp + v.ipv4[d].ttl >= now
      || if AskedFor(v, qs, d) then Zero(v.ipv4[d]) else v.ipv4[d].manual
  {
    hide AskedFor;
    LookedExact(v, qs, d);
  }

  /** One more question. */
  lemma OneMore(v: Contents, qs: seq<Query>, i: nat)
    requires Walkable(v.cnames, qs) && i < |qs|
    ensures Walkable(v.cnames, qs[..i]) && Walkable(v.cnames, qs[..i + 1]) && qs[i] in qs
    ensures Answers(v, qs[..i + 1]) == Answers(v, qs[..i]) + AnswersTo(v, qs[i])
    ensures AllHit(v, qs[..i + 1]) == (AllHit(v, qs[..i]) && Hit(v, qs[i]))
    ensures AnyBlocked(v, qs[..i + 1]) == (AnyBlocked(v, qs[..i]) || Blocked(v, qs[i]))
    ensures Looked(v, qs[..i + 1]) ==
      var m := Looked(v, qs[..i]);
      if AllHit(v, qs[..i]) && qs[i].qtype == TYPE_A && LastOf(v, qs[i]) in m then Mark(m, LastOf(v, qs[i])) else m
  {
    hide Hit, Blocked, AnswersTo, LastOf;
    var a, b := qs[..i], qs[..i + 1];
    assert b[..i] == a && b[i] == qs[i] && b[|b| - 1] == qs[i];
    assert forall k :: 0 <= k < i ==> a[k] == b[k];
    if AnyBlocked(v, a) {
      var k :| 0 <= k < |a| && Blocked(v, a[k]);
      assert Blocked(v, b[k]);
    }
    if Blocked(v, qs[i]) { assert Blocked(v, b[i]); }
  }

  /** After a miss nothing more is looked up. */
  lemma {:induction false} Missed(v: Contents, qs: seq<Query>, i: nat)
    requires Walkable(v.cnames, qs) && i <= |qs| && !AllHit(v, qs[..i])
    ensures Looked(v, qs) == Looked(v, qs[..i]) && !AllHit(v, qs)
    decreases |qs|
  {
    hide Hit, LastOf;
    if i < |qs| {
      var init := qs[..|qs| - 1];
      assert init[..i] == qs[..i];
      Missed(v, init, i);
      OneMore(v, qs, |qs| - 1);
      assert qs[..|qs|] == qs;
    } else {
      assert qs[..i] == qs;
    }
  }

  // -- The code ---------------------------------------------------------------------------------

  /** The three caches; each is a hash table in the source. */
  class Caches {
    var cnames: map<Name, Name>
    var ipv4: map<Name, Cache>
    var ipv6: map<Name, seq<seq<byte>>>

    ghost function View(): Contents
      reads this
    {
      Contents(cnames, ipv4, ipv6)
    }

    /** Every entry of the IPv4 cache has an address. */
    ghost predicate Valid()
      reads this
    {
      forall d :: d in ipv4 ==> ipv4[d].addresses != []
    }

    constructor ()
      ensures cnames == map[] && ipv4 == map[] && ipv6 == map[] && Valid()
    {
      cnames, ipv4, ipv6 := map[], map[], map[];
    }

    /** The walk over the links that counts them. */
    method CountChain(d: Name, count0: nat) returns (count: nat, last: Name)
      requires Terminates(cnames, d)
      ensures var names := ChainOf(cnames, d); count == count0 + |names| - 1 && last == names[|names| - 1]
    {
      ghost var names := ChainOf(cnames, d);
      ghost var k := 0;
      count, last := count0, d;
      while last in cnames
        invariant k < |names| && last == names[k] && count == count0 + k
        decreases |names| - k
      {
        assert k < |names| - 1 && Link(cnames, names, k);
        count := count + 1;
        last := cnames[last];
        k := k + 1;
      }
      assert k < |names| - 1 ==> Link(cnames, names, k);
    }

    /** The first pass, for one question. */
    method CountQuestion(q: Query, count0: nat) returns (cached: bool, banned: bool, count: nat)
      requires Valid() && (Followed(q) ==> Terminates(cnames, q.name))
      modifies this`ipv4
      ensures Valid() && cached == Hit(old(View()), q) && banned == Blocked(old(View()), q)
      ensures cached && !banned ==> count == count0 + |AnswersTo(old(View()), q)|
      ensures ipv4 == if q.qtype == TYPE_A && cached then Mark(old(ipv4), LastOf(old(View()), q)) else old(ipv4)
    {
      cached, banned, count := true, false, count0;
      if q.qtype == TYPE_A {
        var domain;
        count, domain := CountChain(q.name, count);
        if domain !in ipv4 {
          cached := false;
        } else {
          var cache := ipv4[domain];
          ipv4 := ipv4[domain := cache.(manual := cache.addresses[0] == 0)];
          if ipv4[domain].manual {
            banned := true;
          } else {
            count := CountNodes(cache.addresses, count);
          }
        }
      } else if q.qtype == TYPE_CNAME {
        if q.name !in cnames {
          cached := false;
        } else {
          var target;
          count, target := CountChain(q.name, count);
        }
      } else if q.qtype == TYPE_AAAA {
        var domain;
        count, domain := CountChain(q.name, count);
        if domain !in ipv6 {
          cached := false;
        } else {
          count := CountNodes(ipv6[domain], count);
        }
      }
    }

    /** The walk over a list of addresses that counts them. */
    static method CountNodes<T>(addresses: seq<T>, count0: nat) returns (count: nat)
      ensures count == count0 + |addresses|
    {
      count := count0;
      var node := 0;
      while node < |addresses|
        invariant node <= |addresses| && count == count0 + node
      {
        count := count + 1;
        node := node + 1;
      }
    }

    /** The first pass: are all questions cached, is a name blocked, and how many answers are there. */
    method CountPass(queries: seq<Query>) returns (cached: bool, banned: bool, count: nat)
      requires Valid() && Walkable(cnames, queries)
      modifies this`ipv4
      ensures Valid() && ipv4 == Looked(old(View()), queries)
      ensures cached == AllHit(old(View()), queries)
      ensures cached ==> banned == AnyBlocked(old(View()), queries)
      ensures cached && !banned ==> count == |Answers(old(View()), queries)|
    {
      hide Hit, Blocked, AnswersTo, LastOf, Looked, AllHit, AnyBlocked, Answers, Mark;
      ghost var v := View();
      cached, banned, count := true, false, 0;
      var i := 0;
      LookedStart(v, queries);
      while cached && i < |queries|
        invariant i <= |queries| && Valid() && cnames == v.cnames && ipv6 == v.ipv6
        invariant ipv4 == Looked(v, queries[..i]) && cached == AllHit(v, queries[..i])
        invariant cached ==> banned == AnyBlocked(v, queries[..i])
        invariant cached && !banned ==> count == |Answers(v, queries[..i])|
        decreases |queries| - i
      {
        OneMore(v, queries, i);
        LookedSame(v, queries[..i]);
        SameView(v, ipv4, queries[i]);
        var ban;
        cached, ban, count := CountQuestion(queries[i], count);
        banned := banned || ban;
        i := i + 1;
      }
      if !cached { Missed(v, queries, i); }
      assert cached ==> queries[..i] == queries;
    }

    /** The walk over the links that writes their records. */
    method FillChain(d: Name, answers: array<Record>, at0: nat) returns (at: nat, last: Name)
      requires Terminates(cnames, d) && at0 + |ChainOf(cnames, d)| - 1 <= answers.Length
      modifies answers
      ensures var names := ChainOf(cnames, d); at == at0 + |names| - 1 && last == names[|names| - 1]
      ensures answers[..at] == old(answers[..at0]) + ChainRecords(ChainOf(cnames, d))
    {
      ghost var names := ChainOf(cnames, d);
      ghost var k := 0;
      at, last := at0, d;
      while last in cnames
        invariant k < |names| && last == names[k] && at == at0 + k
        invariant answers[..at] == old(answers[..at0]) + ChainRecords(names[..k + 1])
        decreases |names| - k
      {
        assert k < |names| - 1 && Link(cnames, names, k);
        answers[at] := CnameRecord(last, cnames[last]);
        assert names[..k + 2][..k + 1] == names[..k + 1];
        at := at + 1;
        last := cnames[last];
        k := k + 1;
      }
      assert k < |names| - 1 ==> Link(cnames, names, k);
      assert names[..k + 1] == names;
    }

    static method FillIpv4(d: Name, addresses: seq<u32>, answers: array<Record>, at0: nat) returns (at: nat)
      requires at0 + |addresses| <= answers.Length
      modifies answers
      ensures at == at0 + |addresses| && answers[..at] == old(answers[..at0]) + Ipv4Records(d, addresses)
    {
      at := at0;
      var node := 0;
      while node < |addresses|
        invariant node <= |addresses| && at == at0 + node
        invariant answers[..at] == old(answers[..at0]) + Ipv4Records(d, addresses[..node])
      {
        answers[at] := Ipv4Record(d, addresses[node]);
        assert addresses[..node + 1][..node] == addresses[..node];
        at := at + 1;
        node := node + 1;
      }
      assert addresses[..node] == addresses;
    }

    static method FillIpv6(d: Name, addresses: seq<seq<byte>>, answers: array<Record>, at0: nat) returns (at: nat)
      requires at0 + |addresses| <= answers.Length
      modifies answers
      ensures at == at0 + |addresses| && answers[..at] == old(answers[..at0]) + Ipv6Records(d, addresses)
    {
      at := at0;
      var node := 0;
      while node < |addresses|
        invariant node <= |addresses| && at == at0 + node
        invariant answers[..at] == old(answers[..at0]) + Ipv6Records(d, addresses[..node])
      {
        answers[at] := Ipv6Record(d, addresses[node]);
        assert addresses[..node + 1][..node] == addresses[..node];
        at := at + 1;
        node := node + 1;
      }
      assert addresses[..node] == addresses;
    }

    /** The second pass, for one question. */
    method FillQuestion(q: Query, answers: array<Record>, at0: nat) returns (at: nat)
      requires (Followed(q) ==> Terminates(cnames, q.name)) && at0 + |AnswersTo(View(), q)| <= answers.Length
      modifies answers
      ensures at == at0 + |AnswersTo(View(), q)| && answers[..at] == old(answers[..at0]) + AnswersTo(View(), q)
    {
      hide ChainRecords, Ipv4Records, Ipv6Records, Terminates;
      at := at0;
      if q.qtype == TYPE_A {
        var domain;
        at, domain := FillChain(q.name, answers, at);
        if domain in ipv4 { at := FillIpv4(domain, ipv4[domain].addresses, answers, at); }
      } else if q.qtype == TYPE_CNAME {
        var target;
        at, target := FillChain(q.name, answers, at);
      } else if q.qtype == TYPE_AAAA {
        var domain;
        at, domain := FillChain(q.name, answers, at);
        if domain in ipv6 { at := FillIpv6(domain, ipv6[domain], answers, at); }
      }
    }

    /** The second pass: it writes exactly the records that there is room for. */
    method FillPass(queries: seq<Query>, answers: array<Record>)
      requires Walkable(cnames, queries) && answers.Length == |Answers(View(), queries)|
      modifies answers
      ensures answers[..] == Answers(View(), queries)
    {
      hide Answers, AnswersTo, Followed, Looked, AllHit, AnyBlocked;
      var at, i := 0, 0;
      ghost var v := View();
      LookedStart(v, queries);
      while i < |queries|
        invariant i <= |queries| && at == |Answers(v, queries[..i])| && at <= answers.Length
        invariant answers[..at] == Answers(v, queries[..i])
        decreases |queries| - i
      {
        OneMore(v, queries, i);
        AnswersGrow(v, queries, i + 1);
        at := FillQuestion(queries[i], answers, at);
        i := i + 1;
      }
      assert queries[..i] == queries;
    }

    /**
      From the end of the reading of a request to its answer: the reply, or `None` if the request
      goes to the upstream server.
     */
    method Resolve(m: Message) returns (back: Option<Message>)
      requires Valid() && Walkable(cnames, m.queries)
      modifies this`ipv4
      ensures Valid() && ipv4 == Looked(old(View()), m.queries)
      ensures back == LocalReply(old(View()), m)
    {
      hide AllHit, AnyBlocked, Answers, Looked;
      ghost var v := View();
      var cached, banned, count := CountPass(m.queries);
      LookedSame(v, m.queries);
      SameAnswers(v, ipv4, m.queries);
      if !cached { return None; }
      if banned { return Some(BackMessage(m, 3, [])); }
      var answers := new Record[count](_ => CnameRecord([], []));
      FillPass(m.queries, answers);
      back := Some(BackMessage(m, 0, answers[..]));
    }
  }

  /** `back_message`, with the flags that `send_response` sets. */
  function BackMessage(m: Message, rcode: nibble, answers: seq<Record>): Message {
    Message(m.id, m.flags.(qr := 1, rd := 0, z := 0, rcode := rcode), m.queries, answers, 0, 0)
  }

  /** The reply that the caches hold: name error for a blocked name, else all answers. */
  ghost function LocalReply(v: Contents, m: Message): Option<Message>
    requires Walkable(v.cnames, m.queries)
  {
    if !AllHit(v, m.queries) then None
    else if AnyBlocked(v, m.queries) then Some(BackMessage(m, 3, []))
    else Some(BackMessage(m, 0, Answers(v, m.queries)))
  }

  lemma {:induction false} SameAnswers(v: Contents, ipv4: map<Name, Cache>, qs: seq<Query>)
    requires SameAddresses(v.ipv4, ipv4) && Walkable(v.cnames, qs)
    ensures Answers(v.(ipv4 := ipv4), qs) == Answers(v, qs)
    decreases |qs|
  {
    hide SameAddresses, AnswersTo;
    if qs != [] {
      SameView(v, ipv4, qs[|qs| - 1]);
      SameAnswers(v, ipv4, qs[..|qs| - 1]);
    }
  }

  lemma {:induction false} AnswersGrow(v: Contents, qs: seq<Query>, i: nat)
    requires Walkable(v.cnames, qs) && i <= |qs|
    ensures |Answers(v, qs[..i])| <= |Answers(v, qs)|
    decreases |qs|
  {
    hide AnswersTo;
    if i == |qs| {
      assert qs[..i] == qs;
    } else {
      assert qs[..|qs| - 1][..i] == qs[..i];
      AnswersGrow(v, qs[..|qs| - 1], i);
    }
  }

  /** Flags do not matter to the answers. */
  lemma SameView(v: Contents, ipv4: map<Name, Cache>, q: Query)
    requires SameAddresses(v.ipv4, ipv4) && (Followed(q) ==> Terminates(v.cnames, q.name))
    ensures
      var w := v.(ipv4 := ipv4);
      && Hit(w, q) == Hit(v, q) && Blocked(w, q) == Blocked(v, q) && AnswersTo(w, q) == AnswersTo(v, q)
      && (q.qtype == TYPE_A ==> LastOf(w, q) == LastOf(v, q) && (Hit(v, q) <==> LastOf(v, q) in ipv4))
  {
  }

  lemma LookedStart(v: Contents, qs: seq<Query>)
    requires Walkable(v.cnames, qs)
    ensures Walkable(v.cnames, qs[..0]) && Looked(v, qs[..0]) == v.ipv4 && Answers(v, qs[..0]) == []
    ensures AllHit(v, qs[..0]) && !AnyBlocked(v, qs[..0])
  {
  }

  // -- What the answers look like ---------------------------------------------------------------

  /** Each link's record has the previous target as its owner. */
  lemma {:induction false} ChainRecordsAt(names: seq<Name>, i: nat)
    requires i + 1 < |names|
    ensures ChainRecords(names)[i] == CnameRecord(names[i], names[i + 1])
    decreases |names|
  {
    if i + 2 < |names| { ChainRecordsAt(names[..|names| - 1], i); }
  }

  lemma {:induction false} Ipv4RecordsAt(d: Name, addresses: seq<u32>, i: nat)
    requires i < |addresses|
    ensures Ipv4Records(d, addresses)[i] == Ipv4Record(d, addresses[i])
    decreases |addresses|
  {
    if i + 1 < |addresses| { Ipv4RecordsAt(d, addresses[..|addresses| - 1], i); }
  }

  lemma {:induction false} Ipv6RecordsAt(d: Name, addresses: seq<seq<byte>>, i: nat)
    requires i < |addresses|
    ensures Ipv6Records(d, addresses)[i] == Ipv6Record(d, addresses[i])
    decreases |addresses|
  {
    if i + 1 < |addresses| { Ipv6RecordsAt(d, addresses[..|addresses| - 1], i); }
  }

  /** The data of the addresses of `d` that a question asks for, in the order of the cache. */
  function DataOf(v: Contents, qtype: u16, d: Name): seq<Data> {
    if qtype == TYPE_A && d in v.ipv4 then seq(|v.ipv4[d].addresses|, i requires 0 <= i < |v.ipv4[d].addresses| => A(v.ipv4[d].addresses[i]))
    else if qtype == TYPE_AAAA && d in v.ipv6 then seq(|v.ipv6[d]|, i requires 0 <= i < |v.ipv6[d]| => Aaaa(v.ipv6[d][i]))
    else []
  }

  /**
    The answers to a cached question: the first record is owned by the name asked for, each next one
    by the target of the one before, and the addresses of the last target follow in their order, as A records
    for an A question, as AAAA records for an AAAA question, and none for a CNAME question.
   */
  lemma AnswerShape(v: Contents, q: Query, i: nat)
    requires Followed(q) && Terminates(v.cnames, q.name) && Hit(v, q) && i < |AnswersTo(v, q)|
    ensures
      var names, rs := ChainOf(v.cnames, q.name), AnswersTo(v, q);
      var data := DataOf(v, q.qtype, LastOf(v, q));
      && names[0] == q.name && |rs| == |names| - 1 + |data|
      && if i < |names| - 1 then
           rs[i].name == names[i] && rs[i].data == Cname(names[i + 1]) && Link(v.cnames, names, i)
         else
           rs[i].name == LastOf(v, q) && rs[i].data == data[i - (|names| - 1)]
  {
    var names, last := ChainOf(v.cnames, q.name), LastOf(v, q);
    if i < |names| - 1 {
      ChainRecordsAt(names, i);
      assert Link(v.cnames, names, i);
    } else if q.qtype == TYPE_A {
      Ipv4RecordsAt(last, v.ipv4[last].addresses, i - (|names| - 1));
    } else if q.qtype == TYPE_AAAA {
      Ipv6RecordsAt(last, v.ipv6[last], i - (|names| - 1));
    }
  }
}
