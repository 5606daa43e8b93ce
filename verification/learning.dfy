/**
  What the caches learn from the replies of the upstream server (`query_socket_read` of
  `src/socket.c`), and that it answers the same question.
 */
module Learning {
  import opened Bytes
  import opened CnameLinks
  import opened DnsMessage
  import opened Ipv4Cache
  import opened Resolver

  // -- What a reply teaches ---------------------------------------------------------------------

  function LearnedNames(c: map<Name, Name>, rs: seq<Record>): map<Name, Name> {
    if rs == [] then c else
    var r, m := rs[|rs| - 1], LearnedNames(c, rs[..|rs| - 1]);
    if r.data.Cname? then m[r.name := r.data.name] else m
  }

  /** The addresses of all A records, and the owner of the last one. */
  function Ipv4Of(rs: seq<Record>): (Option<Name>, seq<u32>) {
    if rs == [] then (None, []) else
    var r, p := rs[|rs| - 1], Ipv4Of(rs[..|rs| - 1]);
    if r.data.A? then (Some(r.name), p.1 + [r.data.address]) else p
  }

  function Ipv6Of(rs: seq<Record>): (Option<Name>, seq<seq<byte>>) {
    if rs == [] then (None, []) else
    var r, p := rs[|rs| - 1], Ipv6Of(rs[..|rs| - 1]);
    if r.data.Aaaa? then (Some(r.name), p.1 + [r.data.octets]) else p
  }

  /** `ipv4_cache_put` of addresses that live for 120 seconds. */
  function PutIpv4(m: map<Name, Cache>, p: (Option<Name>, seq<u32>), now: int): map<Name, Cache> {
    if p.0.None? || (p.0.value in m && m[p.0.value].manual) then m
    else m[p.0.value := Cache(p.1, 120, now, false)]
  }

  function PutIpv6(m: map<Name, seq<seq<byte>>>, p: (Option<Name>, seq<seq<byte>>)): map<Name, seq<seq<byte>>> {
    if p.0.None? then m else m[p.0.value := p.1]
  }

  function Learned(v: Contents, rs: seq<Record>, now: int): Contents {
    Contents(LearnedNames(v.cnames, rs), PutIpv4(v.ipv4, Ipv4Of(rs), now), PutIpv6(v.ipv6, Ipv6Of(rs)))
  }

  lemma {:induction false} OwnerHasAddress(rs: seq<Record>)
    ensures Ipv4Of(rs).0.Some? <==> Ipv4Of(rs).1 != []
    decreases |rs|
  {
    if rs != [] { OwnerHasAddress(rs[..|rs| - 1]); }
  }

  // -- An answer that was received is given again -----------------------------------------------

  lemma Snoc<T>(s: seq<T>, x: T)
    ensures (s + [x])[..|s|] == s && (s + [x])[|s|] == x && s + [x] != []
  {
  }

  lemma {:induction false} LearnedAppend(c: map<Name, Name>, a: seq<Record>, b: seq<Record>)
    ensures LearnedNames(c, a + b) == LearnedNames(LearnedNames(c, a), b)
    decreases |b|
  {
    if b == [] {
      assert a + b == a;
    } else {
      var init, r := b[..|b| - 1], b[|b| - 1];
      assert a + b == (a + init) + [r];
      Snoc(a + init, r);
      LearnedAppend(c, a, init);
    }
  }

  lemma {:induction false} LearnedChain(c: map<Name, Name>, names: seq<Name>, i: nat)
    requires i + 1 < |names| && forall k, l :: 0 <= k < l < |names| ==> names[k] != names[l]
    ensures names[i] in LearnedNames(c, ChainRecords(names)) && LearnedNames(c, ChainRecords(names))[names[i]] == names[i + 1]
    decreases |names|
  {
    var init := names[..|names| - 1];
    Snoc(ChainRecords(init), CnameRecord(names[|names| - 2], names[|names| - 1]));
    if i + 2 < |names| { LearnedChain(c, init, i); }
  }

  lemma {:induction false} LearnedEnd(c: map<Name, Name>, names: seq<Name>, d: Name)
    requires d !in c && forall k :: 0 <= k < |names| - 1 ==> names[k] != d
    ensures d !in LearnedNames(c, ChainRecords(names))
    decreases |names|
  {
    if |names| > 1 {
      var init := names[..|names| - 1];
      Snoc(ChainRecords(init), CnameRecord(names[|names| - 2], names[|names| - 1]));
      LearnedEnd(c, init, d);
    }
  }

  lemma {:induction false} AddressesTeachNoNames(c: map<Name, Name>, rs: seq<Record>)
    requires forall k :: 0 <= k < |rs| ==> !rs[k].data.Cname?
    ensures LearnedNames(c, rs) == c
    decreases |rs|
  {
    if rs != [] { AddressesTeachNoNames(c, rs[..|rs| - 1]); }
  }

  lemma {:induction false} Ipv4OfAnswer(names: seq<Name>, d: Name, addresses: seq<u32>)
    ensures Ipv4Of(ChainRecords(names) + Ipv4Records(d, addresses)) == if addresses == [] then (None, []) else (Some(d), addresses)
    decreases |addresses|
  {
    if addresses == [] {
      ChainNoAddress(names);
      assert ChainRecords(names) + [] == ChainRecords(names);
    } else {
      var init, x := addresses[..|addresses| - 1], addresses[|addresses| - 1];
      Ipv4OfAnswer(names, d, init);
      assert ChainRecords(names) + Ipv4Records(d, addresses) == ChainRecords(names) + Ipv4Records(d, init) + [Ipv4Record(d, x)];
      Snoc(ChainRecords(names) + Ipv4Records(d, init), Ipv4Record(d, x));
      assert init + [x] == addresses;
    }
  }

  lemma {:induction false} Ipv6OfAnswer(names: seq<Name>, d: Name, addresses: seq<seq<byte>>)
    ensures Ipv6Of(ChainRecords(names) + Ipv6Records(d, addresses)) == if addresses == [] then (None, []) else (Some(d), addresses)
    decreases |addresses|
  {
    if addresses == [] {
      ChainNoAddress(names);
      assert ChainRecords(names) + [] == ChainRecords(names);
    } else {
      var init, x := addresses[..|addresses| - 1], addresses[|addresses| - 1];
      Ipv6OfAnswer(names, d, init);
      assert ChainRecords(names) + Ipv6Records(d, addresses) == ChainRecords(names) + Ipv6Records(d, init) + [Ipv6Record(d, x)];
      Snoc(ChainRecords(names) + Ipv6Records(d, init), Ipv6Record(d, x));
      assert init + [x] == addresses;
    }
  }

  lemma {:induction false} ChainNoAddress(names: seq<Name>)
    ensures Ipv4Of(ChainRecords(names)) == (None, []) && Ipv6Of(ChainRecords(names)) == (None, [])
    decreases |names|
  {
    if |names| > 1 {
      Snoc(ChainRecords(names[..|names| - 1]), CnameRecord(names[|names| - 2], names[|names| - 1]));
      ChainNoAddress(names[..|names| - 1]);
    }
  }

  lemma LearnedIsChain(c: map<Name, Name>, names: seq<Name>, rs: seq<Record>)
    requires names != [] && names[|names| - 1] !in c
    requires forall k, l :: 0 <= k < l < |names| ==> names[k] != names[l]
    requires forall k :: 0 <= k < |rs| ==> !rs[k].data.Cname?
    ensures IsChain(LearnedNames(c, ChainRecords(names) + rs), names[0], names)
  {
    hide LearnedNames, ChainRecords;
    var chain := ChainRecords(names);
    LearnedAppend(c, chain, rs);
    AddressesTeachNoNames(LearnedNames(c, chain), rs);
    LearnedEnd(c, names, names[|names| - 1]);
    forall i | 0 <= i < |names| - 1 ensures Link(LearnedNames(c, chain), names, i) { LearnedChain(c, names, i); }
  }

  /**
    When a reply of links and IPv4 addresses has been learned, its question is answered from the caches
    with the same records, unless the entry is kept by hand or the last name had a link of its own.
   */
  lemma LearnedAnswer4(v: Contents, q: Query, names: seq<Name>, addresses: seq<u32>, now: int)
    requires q.qtype == TYPE_A && names != [] && names[0] == q.name && addresses != []
    requires forall k, l :: 0 <= k < l < |names| ==> names[k] != names[l]
    requires names[|names| - 1] !in v.cnames
    requires names[|names| - 1] in v.ipv4 ==> !v.ipv4[names[|names| - 1]].manual
    ensures
      var last := names[|names| - 1];
      var rs := ChainRecords(names) + Ipv4Records(last, addresses);
      var w := Learned(v, rs, now);
      Terminates(w.cnames, q.name) && Hit(w, q) && AnswersTo(w, q) == rs
  {
    var last := names[|names| - 1];
    var rs := ChainRecords(names) + Ipv4Records(last, addresses);
    forall k | 0 <= k < |addresses| ensures !Ipv4Records(last, addresses)[k].data.Cname? { Ipv4RecordsAt(last, addresses, k); }
    hide LearnedNames, ChainRecords, Ipv4Records, Ipv4Of, Ipv6Of, PutIpv6, IsChain;
    LearnedIsChain(v.cnames, names, Ipv4Records(last, addresses));
    Ipv4OfAnswer(names, last, addresses);
    ChainUnique(Learned(v, rs, now).cnames, q.name, names, ChainOf(Learned(v, rs, now).cnames, q.name));
  }

  /** The same for IPv6 addresses, which are never kept by hand. */
  lemma LearnedAnswer6(v: Contents, q: Query, names: seq<Name>, addresses: seq<seq<byte>>, now: int)
    requires q.qtype == TYPE_AAAA && names != [] && names[0] == q.name && addresses != []
    requires forall k, l :: 0 <= k < l < |names| ==> names[k] != names[l]
    requires names[|names| - 1] !in v.cnames
    ensures
      var last := names[|names| - 1];
      var rs := ChainRecords(names) + Ipv6Records(last, addresses);
      var w := Learned(v, rs, now);
      Terminates(w.cnames, q.name) && Hit(w, q) && AnswersTo(w, q) == rs
  {
    var last := names[|names| - 1];
    var rs := ChainRecords(names) + Ipv6Records(last, addresses);
    forall k | 0 <= k < |addresses| ensures !Ipv6Records(last, addresses)[k].data.Cname? { Ipv6RecordsAt(last, addresses, k); }
    hide LearnedNames, ChainRecords, Ipv6Records, Ipv4Of, Ipv6Of, PutIpv4, IsChain;
    LearnedIsChain(v.cnames, names, Ipv6Records(last, addresses));
    Ipv6OfAnswer(names, last, addresses);
    ChainUnique(Learned(v, rs, now).cnames, q.name, names, ChainOf(Learned(v, rs, now).cnames, q.name));
  }

  // -- Cycles -----------------------------------------------------------------------------------

  lemma {:induction false} LearnedNamesAre(c: map<Name, Name>, rs: seq<Record>)
    ensures LearnedNames(c, rs) == c + Links(rs)
    decreases |rs|
  {
    if rs != [] { LearnedNamesAre(c, rs[..|rs| - 1]); }
  }

  /** After a reply the links are acyclic exactly if the reply's links can be added to the others. */
  lemma LearnedAcyclic(v: Contents, rs: seq<Record>, now: int)
    ensures Acyclic(Learned(v, rs, now).cnames) <==> KeepsAcyclic(v.cnames, rs)
  {
    hide Acyclic, KeepsAcyclic;
    LearnedNamesAre(v.cnames, rs);
    AddedAcyclic(v.cnames, rs);
  }

  /** A reply after which the walk from its names does not end, in empty caches. */
  lemma CyclicReply(a: Name, b: Name, now: int)
    ensures
      var rs := [CnameRecord(a, b), CnameRecord(b, a)];
      !Terminates(Learned(Contents(map[], map[], map[]), rs, now).cnames, a)
  {
    var rs := [CnameRecord(a, b), CnameRecord(b, a)];
    var c := Learned(Contents(map[], map[], map[]), rs, now).cnames;
    assert rs[..1] == [CnameRecord(a, b)] && rs[..1][..0] == [];
    assert LearnedNames(map[], rs[..1]) == map[a := b];
    assert c == map[a := b, b := a];
    assert At(c, a, 0) == Some(a) && At(c, a, 1) == Some(c[a]) && At(c, a, 2) == Some(a);
    assert Cyclic(c, a);
    TerminatesIff(c, a);
  }
}
