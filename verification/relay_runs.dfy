/**
  How replies find their clients: the feature string of `src/message.c`, and the client table of
  `src/socket.c` over whole runs of requests and upstream replies.
 */
module RelayRuns {
  import opened Bytes
  import opened DnsMessage

  type Key = seq<byte>

  /** The address of a client's socket. */
  type Address = nat

  // -- The feature string -----------------------------------------------------------------------

  /** The octets of a `short` in memory, the low one first. */
  function Le16(x: u16): seq<byte> {
    [x % 256, x / 256]
  }

  function QueryFeature(q: Query): seq<byte> {
    q.name + Le16(q.qclass) + Le16(q.qtype)
  }

  function QueryFeatures(qs: seq<Query>): seq<byte> {
    if qs == [] then [] else QueryFeatures(qs[..|qs| - 1]) + QueryFeature(qs[|qs| - 1])
  }

  function Feature(m: Message): Key {
    QueryFeatures(m.queries) + Le16(m.id)
  }

  lemma Le16Injective(x: u16, y: u16)
    ensures Le16(x) == Le16(y) ==> x == y
  {
    assert x == x / 256 * 256 + x % 256 && y == y / 256 * 256 + y % 256;
    if Le16(x) == Le16(y) { assert Le16(x)[0] == Le16(y)[0] && Le16(x)[1] == Le16(y)[1]; }
  }

  predicate AtMostOne(m: Message) {
    |m.queries| <= 1
  }

  /** The id, and the name, type and class that are asked for. */
  predicate SameRequest(a: Message, b: Message) {
    a.id == b.id && a.queries == b.queries
  }

  lemma NoFeature(m: Message)
    requires m.queries == []
    ensures Feature(m) == Le16(m.id)
  {
    assert [] + Le16(m.id) == Le16(m.id);
  }

  lemma OneFeature(m: Message)
    requires |m.queries| == 1
    ensures var q := m.queries[0]; Feature(m) == q.name + (Le16(q.qclass) + Le16(q.qtype) + Le16(m.id))
  {
    assert QueryFeatures([]) == [];
    assert m.queries[..0] == [];
    var q := m.queries[0];
    assert [] + QueryFeature(q) == QueryFeature(q);
  }

  /** For messages with at most one question the feature string tells requests apart. */
  lemma FeatureInjective(a: Message, b: Message)
    requires AtMostOne(a) && AtMostOne(b)
    ensures Feature(a) == Feature(b) <==> SameRequest(a, b)
  {
    if a.queries == [] { NoFeature(a); } else { OneFeature(a); }
    if b.queries == [] { NoFeature(b); } else { OneFeature(b); }
    if a.queries == [] || b.queries == [] {
      Le16Injective(a.id, b.id);
    } else {
      OneInjective(a, b);
    }
  }

  lemma OneInjective(a: Message, b: Message)
    requires |a.queries| == 1 && |b.queries| == 1
    ensures Feature(a) == Feature(b) <==> SameRequest(a, b)
  {
    hide Feature;
    OneFeature(a);
    OneFeature(b);
    var p, q := a.queries[0], b.queries[0];
    if Feature(a) == Feature(b) {
      var s, t := Le16(p.qclass) + Le16(p.qtype) + Le16(a.id), Le16(q.qclass) + Le16(q.qtype) + Le16(b.id);
      assert |p.name| == |q.name|;
      assert p.name == Feature(a)[..|p.name|] == q.name && s == Feature(a)[|p.name|..] == t;
      assert s[..2] == Le16(p.qclass) && s[2..4] == Le16(p.qtype) && s[4..] == Le16(a.id);
      assert t[..2] == Le16(q.qclass) && t[2..4] == Le16(q.qtype) && t[4..] == Le16(b.id);
      Le16Injective(p.qclass, q.qclass);
      Le16Injective(p.qtype, q.qtype);
      Le16Injective(a.id, b.id);
      assert a.queries == [p] && b.queries == [q];
    }
  }

  /** The one question that all questions of a message look like: what precedes the last one belongs to its name. */
  function Merged(m: Message): Message
    requires m.queries != []
  {
    var last := m.queries[|m.queries| - 1];
    m.(queries := [Query(QueryFeatures(m.queries[..|m.queries| - 1]) + last.name, last.qtype, last.qclass)])
  }

  lemma MergedCollides(m: Message)
    requires m.queries != []
    ensures Feature(Merged(m)) == Feature(m) && |Merged(m).queries| == 1
  {
    var init, last := m.queries[..|m.queries| - 1], m.queries[|m.queries| - 1];
    OneFeature(Merged(m));
    assert Feature(m) == QueryFeatures(init) + (last.name + Le16(last.qclass) + Le16(last.qtype)) + Le16(m.id);
    assert Feature(Merged(m)) == (QueryFeatures(init) + last.name) + (Le16(last.qclass) + Le16(last.qtype) + Le16(m.id));
  }

  /** `m` shares its feature string with no other request of at most one question. */
  ghost predicate ToldApart(m: Message) {
    forall b :: AtMostOne(b) && Feature(b) == Feature(m) ==> SameRequest(b, m)
  }

  /** The feature string tells a message from all requests with at most one question exactly if it has no more itself. */
  lemma FeatureExact(m: Message)
    ensures ToldApart(m) <==> |m.queries| <= 1
  {
    if |m.queries| <= 1 {
      forall b | AtMostOne(b) && Feature(b) == Feature(m) ensures SameRequest(b, m) { FeatureInjective(b, m); }
    } else {
      MergedCollides(m);
      assert AtMostOne(Merged(m)) && !SameRequest(Merged(m), m);
    }
  }

  /** A collision: two short questions, and one whose name contains what follows the first name. */
  lemma TwoQuestionsCollide(f: Flags)
    ensures
      var two := Message(7, f, [Query([97], 1, 1), Query([98], 1, 1)], [], 0, 0);
      var one := Message(7, f, [Query([97, 1, 0, 1, 0, 98], 1, 1)], [], 0, 0);
      Feature(two) == Feature(one) && !SameRequest(two, one)
  {
    var two := Message(7, f, [Query([97], 1, 1), Query([98], 1, 1)], [], 0, 0);
    MergedCollides(two);
    assert two.queries[..1] == [Query([97], 1, 1)] && two.queries[..1][..0] == [];
    assert QueryFeatures(two.queries[..1]) == [97, 1, 0, 1, 0];
    assert [97, 1, 0, 1, 0] + [98] == [97, 1, 0, 1, 0, 98];
  }

  /** `memcpy` to an offset of the result. */
  method Copy(result: array<byte>, pos: nat, src: seq<byte>) returns (next: nat)
    requires pos + |src| <= result.Length
    modifies result
    ensures next == pos + |src| && result[..next] == old(result[..pos]) + src
  {
    forall k | 0 <= k < |src| { result[pos + k] := src[k]; }
    next := pos + |src|;
    assert forall k :: pos <= k < next ==> result[k] == src[k - pos];
  }

  /** `message2feature_string`: the length is counted first, then the parts are copied. */
  method FeatureString(m: Message) returns (result: array<byte>)
    ensures fresh(result) && result[..] == Feature(m)
  {
    hide QueryFeature, Le16;
    var length := 2;
    ghost var qs := m.queries;
    assert qs[..0] == [] && QueryFeatures([]) == [];
    for i := 0 to |m.queries|
      invariant length == 2 + |QueryFeatures(qs[..i])|
    {
      assert qs[..i + 1][..i] == qs[..i];
      QuerySize(m.queries[i]);
      length := length + |m.queries[i].name| + 4;
    }
    assert qs[..|qs|] == qs;
    result := new byte[length](_ => 0);
    var pos := 0;
    for i := 0 to |m.queries|
      invariant pos == |QueryFeatures(qs[..i])| && pos + 2 <= length && result[..pos] == QueryFeatures(qs[..i])
    {
      assert qs[..i + 1][..i] == qs[..i];
      FeaturesGrow(qs, i + 1);
      QuerySize(m.queries[i]);
      pos := Copy(result, pos, m.queries[i].name);
      pos := Copy(result, pos, Le16(m.queries[i].qclass));
      pos := Copy(result, pos, Le16(m.queries[i].qtype));
    }
    IdSize(m.id);
    pos := Copy(result, pos, Le16(m.id));
    assert result[..pos] == result[..];
  }

  lemma IdSize(x: u16)
    ensures |Le16(x)| == 2
  {
  }

  lemma QuerySize(q: Query)
    ensures |QueryFeature(q)| == |q.name| + 4 && |Le16(q.qclass)| == 2 && |Le16(q.qtype)| == 2
    ensures QueryFeature(q) == q.name + Le16(q.qclass) + Le16(q.qtype)
    ensures forall s: seq<byte> :: s + q.name + Le16(q.qclass) + Le16(q.qtype) == s + QueryFeature(q)
  {
  }

  lemma {:induction false} FeaturesGrow(qs: seq<Query>, i: nat)
    requires i <= |qs|
    ensures |QueryFeatures(qs[..i])| <= |QueryFeatures(qs)|
    decreases |qs|
  {
    hide QueryFeature;
    if i == |qs| {
      assert qs[..i] == qs;
    } else {
      assert qs[..|qs| - 1][..i] == qs[..i];
      FeaturesGrow(qs[..|qs| - 1], i);
    }
  }

  // -- Runs -------------------------------------------------------------------------------------

  datatype Event =
    | Request(client: Address, message: Message)
    | Forwarded(message: Message)
    | Sent(client: Address, message: Message)

  /** The client table, and what has happened. */
  datatype State = State(clients: map<Key, Address>, history: seq<Event>)

  /** A datagram from a client, with the reply to it if the caches hold one, or from upstream. */
  datatype Input = FromClient(client: Address, message: Message, local: Option<Message>) | FromUpstream(message: Message)

  /** The fields that both senders clear. */
  function Cleared(m: Message): Message {
    m.(flags := m.flags.(z := 0), authorityCount := 0, additionalCount := 0)
  }

  /** `send_response`. */
  function Send(s: State, m: Message): State {
    var k := Feature(m);
    if k in s.clients then State(s.clients - {k}, s.history + [Sent(s.clients[k], Cleared(m))]) else s
  }

  /** `bind_socket_read`. */
  function OnRequest(s: State, client: Address, m: Message, local: Option<Message>): State {
    var t := State(s.clients[Feature(m) := client], s.history + [Request(client, m)]);
    match local
    case Some(back) => Send(t, back)
    case None => State(t.clients, t.history + [Forwarded(Cleared(m))])
  }

  function Next(s: State, i: Input): State {
    match i
    case FromClient(client, m, local) => OnRequest(s, client, m, local)
    case FromUpstream(m) => Send(s, m)
  }

  function Run(inputs: seq<Input>): State {
    if inputs == [] then State(map[], []) else Next(Run(inputs[..|inputs| - 1]), inputs[|inputs| - 1])
  }

  /** At most one question in every datagram; a local reply repeats the id and the question. */
  predicate ValidInput(i: Input) {
    AtMostOne(i.message) && (i.FromClient? && i.local.Some? ==> SameRequest(i.local.value, i.message))
  }

  /** The client whose request with key `k` is the newest, if nothing was sent for the key since. */
  function Pending(h: seq<Event>, k: Key): Option<Address> {
    if h == [] then None else
    var e := h[|h| - 1];
    if e.Request? && Feature(e.message) == k then Some(e.client)
    else if e.Sent? && Feature(e.message) == k then None
    else Pending(h[..|h| - 1], k)
  }

  /** The table holds exactly the pending requests. */
  ghost predicate TableIsPending(s: State) {
    forall k :: Pending(s.history, k) == if k in s.clients then Some(s.clients[k]) else None
  }

  /** Each datagram goes to the client that is pending for its key. */
  ghost predicate SentToPending(h: seq<Event>) {
    forall i :: 0 <= i < |h| && h[i].Sent? ==> Pending(h[..i], Feature(h[i].message)) == Some(h[i].client)
  }

  predicate OneEach(h: seq<Event>) {
    forall i :: 0 <= i < |h| ==> AtMostOne(h[i].message)
  }

  function Requests(h: seq<Event>): nat {
    if h == [] then 0 else Requests(h[..|h| - 1]) + (if h[|h| - 1].Request? then 1 else 0)
  }

  function Replies(h: seq<Event>): nat {
    if h == [] then 0 else Replies(h[..|h| - 1]) + (if h[|h| - 1].Sent? then 1 else 0)
  }

  function RequestsFor(h: seq<Event>, k: Key): nat {
    if h == [] then 0 else
    RequestsFor(h[..|h| - 1], k) + (if h[|h| - 1].Request? && Feature(h[|h| - 1].message) == k then 1 else 0)
  }

  function RepliesFor(h: seq<Event>, k: Key): nat {
    if h == [] then 0 else
    RepliesFor(h[..|h| - 1], k) + (if h[|h| - 1].Sent? && Feature(h[|h| - 1].message) == k then 1 else 0)
  }

  ghost predicate RunInv(s: State) {
    && TableIsPending(s) && SentToPending(s.history) && OneEach(s.history)
    && Replies(s.history) + |s.clients| <= Requests(s.history)
  }

  lemma Appended(h: seq<Event>, e: Event)
    ensures (h + [e])[..|h|] == h && (h + [e])[|h|] == e && |h + [e]| == |h| + 1
  {
  }

  lemma SentAppended(h: seq<Event>, e: Event)
    requires SentToPending(h) && OneEach(h) && AtMostOne(e.message)
    requires e.Sent? ==> Pending(h, Feature(e.message)) == Some(e.client)
    ensures SentToPending(h + [e]) && OneEach(h + [e])
  {
    hide Pending, Feature;
    forall i | 0 <= i < |h + [e]| && (h + [e])[i].Sent?
      ensures Pending((h + [e])[..i], Feature((h + [e])[i].message)) == Some((h + [e])[i].client)
    {
      if i < |h| { assert (h + [e])[..i] == h[..i]; } else { assert (h + [e])[..i] == h; }
    }
  }

  lemma ClearedFeature(m: Message)
    ensures Feature(Cleared(m)) == Feature(m) && AtMostOne(Cleared(m)) == AtMostOne(m)
  {
  }

  lemma SendKeeps(s: State, m: Message)
    requires RunInv(s) && AtMostOne(m)
    ensures RunInv(Send(s, m))
  {
    hide Feature;
    var k := Feature(m);
    ClearedFeature(m);
    assert Pending(s.history, k) == if k in s.clients then Some(s.clients[k]) else None;
    if k in s.clients {
      var e := Sent(s.clients[k], Cleared(m));
      Appended(s.history, e);
      SentAppended(s.history, e);
      MapMinus(s.clients, k);
    }
  }

  lemma MapMinus(m: map<Key, Address>, k: Key)
    requires k in m
    ensures |m - {k}| == |m| - 1
  {
    assert (m - {k}).Keys == m.Keys - {k};
    assert |m.Keys| == |m| && |(m - {k}).Keys| == |m - {k}|;
  }

  lemma MapPlus(m: map<Key, Address>, k: Key, a: Address)
    ensures |m[k := a]| <= |m| + 1
  {
    assert m[k := a].Keys == m.Keys + {k};
    assert |m[k := a].Keys| == |m[k := a]| && |m.Keys| == |m|;
  }

  lemma RequestKeeps(s: State, client: Address, m: Message)
    requires RunInv(s) && AtMostOne(m)
    ensures RunInv(State(s.clients[Feature(m) := client], s.history + [Request(client, m)]))
  {
    hide Feature;
    Appended(s.history, Request(client, m));
    SentAppended(s.history, Request(client, m));
    MapPlus(s.clients, Feature(m), client);
  }

  lemma ForwardKeeps(s: State, m: Message)
    requires RunInv(s) && AtMostOne(m)
    ensures RunInv(State(s.clients, s.history + [Forwarded(Cleared(m))]))
  {
    hide Feature;
    ClearedFeature(m);
    Appended(s.history, Forwarded(Cleared(m)));
    SentAppended(s.history, Forwarded(Cleared(m)));
  }

  lemma NextKeeps(s: State, i: Input)
    requires RunInv(s) && ValidInput(i)
    ensures RunInv(Next(s, i))
  {
    hide RunInv, Feature;
    match i {
      case FromClient(client, m, local) =>
        RequestKeeps(s, client, m);
        var t := State(s.clients[Feature(m) := client], s.history + [Request(client, m)]);
        match local {
          case Some(back) => SendKeeps(t, back);
          case None => ForwardKeeps(t, m);
        }
      case FromUpstream(m) =>
        SendKeeps(s, m);
    }
  }

  /** The invariant holds after every run. */
  lemma {:induction false} EveryRun(inputs: seq<Input>)
    requires forall i :: 0 <= i < |inputs| ==> ValidInput(inputs[i])
    ensures RunInv(Run(inputs))
    decreases |inputs|
  {
    hide Next;
    if inputs != [] {
      EveryRun(inputs[..|inputs| - 1]);
      NextKeeps(Run(inputs[..|inputs| - 1]), inputs[|inputs| - 1]);
    }
  }

  /** An event that concerns the request `m`: it was made, or a reply to it was sent. */
  predicate Concerns(e: Event, m: Message) {
    !e.Forwarded? && SameRequest(e.message, m)
  }

  lemma {:induction false} PendingRequest(h: seq<Event>, m: Message) returns (j: nat)
    requires OneEach(h) && AtMostOne(m) && Pending(h, Feature(m)).Some?
    ensures j < |h| && h[j].Request? && h[j].client == Pending(h, Feature(m)).value && SameRequest(h[j].message, m)
    ensures forall l :: j < l < |h| ==> !Concerns(h[l], m)
    decreases |h|
  {
    hide Feature;
    var e := h[|h| - 1];
    FeatureInjective(e.message, m);
    if e.Request? && Feature(e.message) == Feature(m) {
      j := |h| - 1;
    } else {
      j := PendingRequest(h[..|h| - 1], m);
    }
  }

  /**
    In every run, a datagram that is sent to a client repeats the id, name, type and class of a
    request of that client, which is the newest such request of all clients, and no other
    datagram was sent for it.
   */
  lemma SentAnswersNewest(inputs: seq<Input>, i: nat) returns (j: nat)
    requires forall k :: 0 <= k < |inputs| ==> ValidInput(inputs[k])
    requires i < |Run(inputs).history| && Run(inputs).history[i].Sent?
    ensures
      var h := Run(inputs).history;
      && j < i && h[j].Request? && h[j].client == h[i].client && SameRequest(h[j].message, h[i].message)
      && forall l :: j < l < i ==> !Concerns(h[l], h[i].message)
  {
    hide Run, Pending, Feature;
    EveryRun(inputs);
    var h := Run(inputs).history;
    j := PendingRequest(h[..i], h[i].message);
    assert forall l :: 0 <= l < i ==> h[..i][l] == h[l];
  }

  lemma {:induction false} KeyCount(h: seq<Event>, k: Key)
    requires SentToPending(h)
    ensures RepliesFor(h, k) + (if Pending(h, k).Some? then 1 else 0) <= RequestsFor(h, k)
    decreases |h|
  {
    hide Feature;
    if h != [] {
      var init, e := h[..|h| - 1], h[|h| - 1];
      assert forall i :: 0 <= i < |init| ==> init[..i] == h[..i];
      KeyCount(init, k);
      assert e.Sent? ==> Pending(init, Feature(e.message)) == Some(e.client);
    }
  }

  /** In every run, replies never outnumber requests: not for one request, and not altogether. */
  lemma RepliesBounded(inputs: seq<Input>, k: Key)
    requires forall i :: 0 <= i < |inputs| ==> ValidInput(inputs[i])
    ensures
      var h := Run(inputs).history;
      RepliesFor(h, k) <= RequestsFor(h, k) && Replies(h) <= Requests(h)
  {
    hide Run, Pending;
    EveryRun(inputs);
    KeyCount(Run(inputs).history, k);
  }

  /** A reply from the caches goes to the client that asks, whatever went before. */
  lemma LocalGoesBack(s: State, client: Address, m: Message, back: Message)
    requires SameRequest(back, m)
    ensures OnRequest(s, client, m, Some(back)).history == s.history + [Request(client, m), Sent(client, Cleared(back))]
    ensures Feature(m) !in OnRequest(s, client, m, Some(back)).clients
  {
    assert s.history + [Request(client, m)] + [Sent(client, Cleared(back))] == s.history + [Request(client, m), Sent(client, Cleared(back))];
  }
}
