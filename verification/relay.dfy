/**
  The two callbacks of `src/socket.c`: requests of clients, which are answered from the caches or
  forwarded, and replies of the upstream server, which fill the caches and are passed on; and what
  holds over all their histories.
 */
module Relay {
  import opened Bytes
  import opened CnameLinks
  import opened DnsMessage
  import opened Ipv4Cache
  import opened Learning
  import opened Resolver
  import opened RelayRuns

  // -- Histories --------------------------------------------------------------------------------

  /** The client table with what has happened, and the caches. */
  datatype World = World(net: State, caches: Contents)

  /** A request of a client, a reply from upstream, or a sweep of the IPv4 cache. */
  datatype Happening = Asked(client: Address, message: Message) | Answered(message: Message, now: int) | Swept(now: int)

  /** The walks over the links end; otherwise the callback does not. */
  ghost predicate Possible(w: World, h: Happening) {
    h.Asked? ==> Walkable(w.caches.cnames, h.message.queries)
  }

  ghost function After(w: World, h: Happening): World
    requires Possible(w, h)
  {
    match h
    case Asked(client, m) =>
      World(OnRequest(w.net, client, m, LocalReply(w.caches, m)), w.caches.(ipv4 := Looked(w.caches, m.queries)))
    case Answered(m, now) =>
      World(Send(w.net, m), Learned(w.caches, m.answers, now))
    case Swept(now) =>
      World(w.net, w.caches.(ipv4 := Kept(w.caches.ipv4, now)))
  }

  const START: World := World(State(map[], []), Contents(map[], map[], map[]))

  ghost predicate StepAt(ws: seq<World>, hs: seq<Happening>, k: nat)
    requires k < |hs| && k + 1 < |ws|
  {
    Possible(ws[k], hs[k]) && ws[k + 1] == After(ws[k], hs[k])
  }

  /** The worlds that the happenings lead through from the start. */
  ghost predicate Chronicle(ws: seq<World>, hs: seq<Happening>) {
    |ws| == |hs| + 1 && ws[0] == START && forall k :: 0 <= k < |hs| ==> StepAt(ws, hs, k)
  }

  /** Every message has at most one question. */
  predicate Plain(hs: seq<Happening>) {
    forall k :: 0 <= k < |hs| && !hs[k].Swept? ==> AtMostOne(hs[k].message)
  }

  /** A local reply repeats the request. */
  lemma LocalRepeats(v: Contents, m: Message)
    requires Walkable(v.cnames, m.queries) && LocalReply(v, m).Some?
    ensures SameRequest(LocalReply(v, m).value, m)
  {
  }

  /** Every history of the server is a run of valid inputs, so what holds of all runs holds of it. */
  lemma {:induction false} ServerRuns(ws: seq<World>, hs: seq<Happening>, k: nat) returns (inputs: seq<Input>)
    requires Chronicle(ws, hs) && Plain(hs) && k <= |hs|
    ensures ws[k].net == Run(inputs) && forall i :: 0 <= i < |inputs| ==> ValidInput(inputs[i])
  {
    hide OnRequest, Send, LocalReply, Looked, Learned, Feature;
    if k == 0 {
      inputs := [];
    } else {
      inputs := ServerRuns(ws, hs, k - 1);
      var w, h := ws[k - 1], hs[k - 1];
      assert StepAt(ws, hs, k - 1);
      match h {
        case Asked(client, m) =>
          var i := FromClient(client, m, LocalReply(w.caches, m));
          if LocalReply(w.caches, m).Some? { LocalRepeats(w.caches, m); }
          RunSnoc(inputs, i);
          inputs := inputs + [i];
        case Answered(m, now) =>
          RunSnoc(inputs, FromUpstream(m));
          inputs := inputs + [FromUpstream(m)];
        case Swept(now) =>
      }
    }
  }

  lemma RunSnoc(inputs: seq<Input>, i: Input)
    ensures Run(inputs + [i]) == Next(Run(inputs), i)
  {
    assert (inputs + [i])[..|inputs|] == inputs;
  }

  /** In every history of the server, each datagram answers the newest request like it, once. */
  lemma ServerAnswersNewest(ws: seq<World>, hs: seq<Happening>, k: nat, i: nat) returns (j: nat)
    requires Chronicle(ws, hs) && Plain(hs) && k <= |hs| && i < |ws[k].net.history| && ws[k].net.history[i].Sent?
    ensures
      var h := ws[k].net.history;
      && j < i && h[j].Request? && h[j].client == h[i].client && SameRequest(h[j].message, h[i].message)
      && forall l :: j < l < i ==> !Concerns(h[l], h[i].message)
  {
    hide Chronicle, Run;
    var inputs := ServerRuns(ws, hs, k);
    j := SentAnswersNewest(inputs, i);
  }

  // -- Forwarding -------------------------------------------------------------------------------

  /** What a question asks for is not in the caches: the entry at the end of its links, or the link. */
  ghost predicate Misses(v: Contents, q: Query)
    requires Followed(q) ==> Terminates(v.cnames, q.name)
  {
    || (q.qtype == TYPE_A && LastOf(v, q) !in v.ipv4)
    || (q.qtype == TYPE_CNAME && q.name !in v.cnames)
    || (q.qtype == TYPE_AAAA && LastOf(v, q) !in v.ipv6)
  }

  /** A request with one question has no local reply exactly if its question misses. */
  lemma ForwardedIff(v: Contents, m: Message)
    requires |m.queries| == 1 && Walkable(v.cnames, m.queries)
    ensures m.queries[0] in m.queries && (LocalReply(v, m).None? <==> Misses(v, m.queries[0]))
  {
  }

  lemma NoQuestionNoForward(v: Contents, m: Message)
    requires m.queries == []
    ensures Walkable(v.cnames, m.queries) && LocalReply(v, m).Some?
  {
  }

  /** Where an event of the history comes from. */
  lemma {:induction false} ForwardedFrom(ws: seq<World>, hs: seq<Happening>, k: nat, i: nat) returns (j: nat)
    requires Chronicle(ws, hs) && k <= |hs| && i < |ws[k].net.history| && ws[k].net.history[i].Forwarded?
    ensures j < k && hs[j].Asked? && Walkable(ws[j].caches.cnames, hs[j].message.queries)
    ensures LocalReply(ws[j].caches, hs[j].message).None? && ws[k].net.history[i].message == Cleared(hs[j].message)
  {
    hide LocalReply, Looked, Learned, Feature;
    if k > 0 {
      assert StepAt(ws, hs, k - 1);
      if i < |ws[k - 1].net.history| {
        j := ForwardedFrom(ws, hs, k - 1, i);
      } else {
        j := k - 1;
      }
    }
  }

  /** Only a request for A, CNAME or AAAA records that misses is ever forwarded, whatever the caches hold. */
  lemma OnlyMissesForwarded(ws: seq<World>, hs: seq<Happening>, k: nat, i: nat) returns (j: nat)
    requires Chronicle(ws, hs) && Plain(hs) && k <= |hs| && i < |ws[k].net.history| && ws[k].net.history[i].Forwarded?
    ensures j < k && hs[j].Asked? && |hs[j].message.queries| == 1 && ws[k].net.history[i].message == Cleared(hs[j].message)
    ensures var q := hs[j].message.queries[0]; Followed(q) && Terminates(ws[j].caches.cnames, q.name) && Misses(ws[j].caches, q)
  {
    hide LocalReply;
    j := ForwardedFrom(ws, hs, k, i);
    var m := hs[j].message;
    if m.queries == [] { NoQuestionNoForward(ws[j].caches, m); }
    ForwardedIff(ws[j].caches, m);
  }

  // -- Blocked names ----------------------------------------------------------------------------

  lemma BlockedKept(w: World, h: Happening, d: Name)
    requires Possible(w, h) && d in w.caches.ipv4 && w.caches.ipv4[d].manual && Zero(w.caches.ipv4[d])
    ensures d in After(w, h).caches.ipv4 && After(w, h).caches.ipv4[d] == w.caches.ipv4[d]
  {
    hide OnRequest, Send, LocalReply, Looked, Ipv4Of, LearnedNames;
    if h.Asked? { LookedExact(w.caches, h.message.queries, d); }
  }

  /** An entry that is blocked and has its flag set never leaves the cache, and never changes. */
  lemma {:induction false} BlockedForever(ws: seq<World>, hs: seq<Happening>, j: nat, k: nat, d: Name)
    requires Chronicle(ws, hs) && j <= k <= |hs|
    requires d in ws[j].caches.ipv4 && ws[j].caches.ipv4[d].manual && Zero(ws[j].caches.ipv4[d])
    ensures d in ws[k].caches.ipv4 && ws[k].caches.ipv4[d] == ws[j].caches.ipv4[d]
    decreases k - j
  {
    hide After;
    if j < k {
      BlockedForever(ws, hs, j, k - 1, d);
      assert StepAt(ws, hs, k - 1);
      BlockedKept(ws[k - 1], hs[k - 1], d);
    }
  }

  /** A blocked name that was asked for stays blocked, through all look-ups, replies and sweeps. */
  lemma AskedStaysBlocked(ws: seq<World>, hs: seq<Happening>, j: nat, k: nat, d: Name)
    requires Chronicle(ws, hs) && j < k <= |hs| && hs[j].Asked? && d in ws[j].caches.ipv4 && Zero(ws[j].caches.ipv4[d])
    requires Walkable(ws[j].caches.cnames, hs[j].message.queries) && AskedFor(ws[j].caches, hs[j].message.queries, d)
    ensures d in ws[k].caches.ipv4 && ws[k].caches.ipv4[d] == ws[j].caches.ipv4[d].(manual := true)
  {
    hide OnRequest, LocalReply, Looked, AskedFor;
    assert StepAt(ws, hs, j);
    LookedExact(ws[j].caches, hs[j].message.queries, d);
    BlockedForever(ws, hs, j + 1, k, d);
  }

  lemma FlagsStep(w: World, h: Happening)
    requires Possible(w, h) && forall d :: d in w.caches.ipv4 && w.caches.ipv4[d].manual ==> Zero(w.caches.ipv4[d])
    ensures forall d :: d in After(w, h).caches.ipv4 && After(w, h).caches.ipv4[d].manual ==> Zero(After(w, h).caches.ipv4[d])
  {
    hide OnRequest, Send, LocalReply, Looked, Ipv4Of, LearnedNames;
    if h.Asked? { LookedSame(w.caches, h.message.queries); }
  }

  /** From empty caches the flag is only ever set for blocked names. */
  lemma {:induction false} FlaggedAreBlocked(ws: seq<World>, hs: seq<Happening>, k: nat, d: Name)
    requires Chronicle(ws, hs) && k <= |hs| && d in ws[k].caches.ipv4 && ws[k].caches.ipv4[d].manual
    ensures Zero(ws[k].caches.ipv4[d])
  {
    FlagsAll(ws, hs, k);
  }

  lemma {:induction false} FlagsAll(ws: seq<World>, hs: seq<Happening>, k: nat)
    requires Chronicle(ws, hs) && k <= |hs|
    ensures forall d :: d in ws[k].caches.ipv4 && ws[k].caches.ipv4[d].manual ==> Zero(ws[k].caches.ipv4[d])
  {
    hide After;
    if k > 0 {
      FlagsAll(ws, hs, k - 1);
      assert StepAt(ws, hs, k - 1);
      FlagsStep(ws[k - 1], hs[k - 1]);
    }
  }

  // -- Walks that end ---------------------------------------------------------------------------

  /** If the links of every reply can be added without a cycle, every request can be looked up. */
  lemma {:induction false} AlwaysWalkable(ws: seq<World>, hs: seq<Happening>, k: nat)
    requires Chronicle(ws, hs) && k <= |hs|
    requires forall j :: 0 <= j < k && hs[j].Answered? ==> KeepsAcyclic(ws[j].caches.cnames, hs[j].message.answers)
    ensures Acyclic(ws[k].caches.cnames) && forall h: Happening :: Possible(ws[k], h)
  {
    hide OnRequest, Send, LocalReply, Looked, Learned, KeepsAcyclic, Terminates;
    if k == 0 {
      forall d ensures Terminates(map[], d) { NoLinks(d); }
    } else {
      AlwaysWalkable(ws, hs, k - 1);
      assert StepAt(ws, hs, k - 1);
      var w, h := ws[k - 1], hs[k - 1];
      if h.Answered? {
        hide Acyclic;
        LearnedAcyclic(w.caches, h.message.answers, h.now);
      }
    }
    AcyclicPossible(ws[k]);
  }

  lemma AcyclicPossible(w: World)
    requires Acyclic(w.caches.cnames)
    ensures forall h: Happening :: Possible(w, h)
  {
  }

  lemma NoLinks(d: Name)
    ensures Terminates(map[], d)
  {
    assert IsChain(map[], d, [d]);
  }

  // -- From wire to wire ------------------------------------------------------------------------

  /**
    A reply that is decoded, cleared, encoded again and decoded by the client: the same id, questions
    and answers, up to the length field of CNAME records.
   */
  lemma RelayedReply(b: seq<byte>, m: Message)
    requires Decode(b) == Some(m) && CanSend(Cleared(m))
    ensures
      var c := Decode(Encode(Cleared(m)));
      c.Some? && SameRequest(c.value, m) && c.value.answers == Normals(m.answers) && Feature(c.value) == Feature(m)
  {
    hide Decode, Encode, Normals, Feature;
    RoundTrip(Cleared(m));
    SameFeature(m, Cleared(m).(answers := Normals(m.answers)));
  }

  lemma SameFeature(a: Message, b: Message)
    requires SameRequest(a, b)
    ensures Feature(a) == Feature(b)
  {
  }

  // -- The code ---------------------------------------------------------------------------------

  /** The sockets' state: the client table is a hash table in the source. */
  class Server {
    const caches: Caches
    var clients: map<Key, Address>
    ghost var history: seq<Event>

    ghost function Now(): State
      reads this
    {
      State(clients, history)
    }

    /** What the lemmas about histories speak of. */
    ghost function Here(): World
      reads this, caches
    {
      World(Now(), caches.View())
    }

    constructor ()
      ensures caches.Valid() && fresh(caches) && Here() == START
    {
      caches := new Caches();
      clients, history := map[], [];
    }

    /** `send_response`. */
    method SendResponse(m: Message)
      modifies this
      ensures Now() == Send(old(Now()), m)
    {
      hide Feature;
      var key := FeatureString(m);
      var name := key[..];
      if name in clients {
        history := history + [Sent(clients[name], Cleared(m))];
        clients := clients - {name};
      }
    }

    /** `send_query`. */
    method SendQuery(m: Message)
      modifies this`history
      ensures history == old(history) + [Forwarded(Cleared(m))]
    {
      history := history + [Forwarded(Cleared(m))];
    }

    /** `bind_socket_read` from the decoded request on. */
    method BindSocketRead(client: Address, m: Message)
      requires caches.Valid() && Walkable(caches.cnames, m.queries)
      modifies this, caches`ipv4
      ensures caches.Valid() && Possible(old(Here()), Asked(client, m)) && Here() == After(old(Here()), Asked(client, m))
    {
      hide Feature, LocalReply, Looked, Send;
      var key := FeatureString(m);
      clients := clients[key[..] := client];
      history := history + [Request(client, m)];
      var back := caches.Resolve(m);
      match back {
        case None => SendQuery(m);
        case Some(reply) => SendResponse(reply);
      }
    }

    /** The loop of `query_socket_read` that puts the answers into the caches. */
    method Learn(rs: seq<Record>, now: int)
      requires caches.Valid()
      modifies caches
      ensures caches.Valid() && caches.View() == Learned(old(caches.View()), rs, now)
    {
      ghost var v := caches.View();
      var ipv4Domain: Option<Name>, ipv4Nodes: seq<u32> := None, [];
      var ipv6Domain: Option<Name>, ipv6Nodes: seq<seq<byte>> := None, [];
      for i := 0 to |rs|
        invariant caches.ipv4 == v.ipv4 && caches.ipv6 == v.ipv6 && caches.cnames == LearnedNames(v.cnames, rs[..i])
        invariant (ipv4Domain, ipv4Nodes) == Ipv4Of(rs[..i]) && (ipv6Domain, ipv6Nodes) == Ipv6Of(rs[..i])
      {
        assert rs[..i + 1][..i] == rs[..i];
        match rs[i].data {
          case A(address) =>
            ipv4Domain, ipv4Nodes := Some(rs[i].name), ipv4Nodes + [address];
          case Cname(name) =>
            caches.cnames := caches.cnames[rs[i].name := name];
          case Aaaa(octets) =>
            ipv6Domain, ipv6Nodes := Some(rs[i].name), ipv6Nodes + [octets];
          case Other(_) =>
        }
      }
      assert rs[..|rs|] == rs;
      OwnerHasAddress(rs);
      if ipv4Domain.Some? {
        caches.ipv4 := PutIpv4(caches.ipv4, (ipv4Domain, ipv4Nodes), now);
      }
      if ipv6Domain.Some? {
        caches.ipv6 := PutIpv6(caches.ipv6, (ipv6Domain, ipv6Nodes));
      }
    }

    /** `query_socket_read` from the decoded reply on. */
    method QuerySocketRead(m: Message, now: int)
      requires caches.Valid()
      modifies this, caches
      ensures caches.Valid() && Here() == After(old(Here()), Answered(m, now))
    {
      hide Send, Learned;
      Learn(m.answers, now);
      SendResponse(m);
    }
  }
}
