/**
  DNS messages (RFC 1035, sections 4.1.1 to 4.1.3): `message2buf` and `buf2message` of
  `src/message.c`, and the proof that the second undoes the first.
 */
module DnsMessage {
  import opened Bytes
  import opened DnsNames

  type bit = x: int | 0 <= x < 2
  type nibble = x: int | 0 <= x < 16

  // ----- messages -----

  datatype Flags = Flags(qr: bit, opcode: nibble, aa: bit, tc: bit, rd: bit, ra: bit, z: int, rcode: nibble)

  datatype Query = Query(name: seq<byte>, qtype: u16, qclass: u16)

  /** The response data of the types that are looked at, and the number of the others. */
  datatype Data = A(address: u32) | Cname(name: seq<byte>) | Aaaa(octets: seq<byte>) | Other(rtype: u16)

  datatype Record = Record(name: seq<byte>, rclass: u16, ttl: u32, rdlength: u16, data: Data)

  datatype Message = Message(id: u16, flags: Flags, queries: seq<Query>, answers: seq<Record>,
                             authorityCount: u16, additionalCount: u16)

  function TypeOf(d: Data): u16 {
    match d case A(_) => 1 case Cname(_) => 5 case Aaaa(_) => 28 case Other(t) => t
  }

  // ----- encoding -----

  function Be16(x: u16): seq<byte> { [x / 256, x % 256] }

  function Be32(x: u32): seq<byte> { Be16(x / 0x1_0000) + Be16(x % 0x1_0000) }

  function HighOctet(qr: int, opcode: int, aa: int, tc: int, rd: int): int {
    128 * qr + 8 * opcode + 4 * aa + 2 * tc + rd
  }

  function LowOctet(ra: int, rcode: int): int {
    128 * ra + rcode
  }

  function FlagsWire(f: Flags): seq<byte> {
    [HighOctet(f.qr, f.opcode, f.aa, f.tc, f.rd), LowOctet(f.ra, f.rcode)]
  }

  function HeaderWire(m: Message): seq<byte>
    requires |m.queries| < 0x1_0000 && |m.answers| < 0x1_0000
  {
    Be16(m.id) + FlagsWire(m.flags) + Be16(|m.queries|) + Be16(|m.answers|) + Be16(m.authorityCount) + Be16(m.additionalCount)
  }

  function QueryWire(q: Query): seq<byte>
    requires IsName(q.name)
  {
    NameWire(q.name) + Be16(q.qtype) + Be16(q.qclass)
  }

  /** A name that fits, with its dots, into the 512 characters set aside for it. */
  predicate FitsName(name: seq<byte>) {
    IsName(name) && |name| < 512
  }

  /** Records that are sent: addresses with their length, or a name. */
  predicate IsRecord(r: Record) {
    FitsName(r.name) &&
    match r.data
    case A(_) => r.rdlength == 4
    case Cname(name) => FitsName(name)
    case Aaaa(octets) => |octets| == 16 && r.rdlength == 16
    case Other(_) => false
  }

  /** The length that is sent: for a name the length on the wire, whatever the record says. */
  function LengthSent(r: Record): u16
    requires IsRecord(r)
  {
    match r.data case Cname(name) => |name| + 2 case _ => r.rdlength
  }

  function DataWire(d: Data): seq<byte>
    requires d.Cname? ==> IsName(d.name)
  {
    match d case A(address) => Be32(address) case Cname(name) => NameWire(name) case Aaaa(octets) => octets case Other(_) => []
  }

  /** The ten octets between the name and the data. */
  function Fixed(r: Record): seq<byte>
    requires IsRecord(r)
  {
    Be16(TypeOf(r.data)) + Be16(r.rclass) + Be32(r.ttl) + Be16(LengthSent(r))
  }

  function RecordWire(r: Record): seq<byte>
    requires IsRecord(r)
  {
    NameWire(r.name) + Fixed(r) + DataWire(r.data)
  }

  predicate AreRecords(rs: seq<Record>) {
    forall k :: 0 <= k < |rs| ==> IsRecord(rs[k])
  }

  function RecordsWire(rs: seq<Record>): seq<byte>
    requires AreRecords(rs)
  {
    if rs == [] then [] else RecordWire(rs[0]) + RecordsWire(rs[1..])
  }

  /** Messages with one question, the reserved bits zero, and records that can be sent. */
  predicate CanSend(m: Message) {
    && m.flags.z == 0 && |m.queries| == 1 && FitsName(m.queries[0].name)
    && |m.answers| < 0x1_0000 && AreRecords(m.answers)
  }

  function Encode(m: Message): seq<byte>
    requires CanSend(m)
  {
    HeaderWire(m) + QueryWire(m.queries[0]) + RecordsWire(m.answers)
  }

  // ----- the length -----

  function DataLength(d: Data): nat {
    match d case A(_) => 4 case Cname(name) => |name| + 2 case Aaaa(octets) => |octets| case Other(_) => 0
  }

  function RecordsLength(rs: seq<Record>): nat {
    if rs == [] then 0 else |rs[0].name| + 12 + DataLength(rs[0].data) + RecordsLength(rs[1..])
  }

  lemma RecordWireLength(r: Record)
    requires IsRecord(r)
    ensures |RecordWire(r)| == |r.name| + 12 + DataLength(r.data) && |Fixed(r)| == 10
  {
    NameWireLength(r.name);
    if r.data.Cname? { NameWireLength(r.data.name); }
  }

  lemma {:induction false} RecordsWireLength(rs: seq<Record>)
    requires AreRecords(rs)
    ensures |RecordsWire(rs)| == RecordsLength(rs)
  {
    if rs != [] {
      RecordWireLength(rs[0]);
      RecordsWireLength(rs[1..]);
    }
  }

  /** The header, the question and, for every answer, twelve octets beside its name and its data. */
  lemma EncodedLength(m: Message)
    requires CanSend(m)
    ensures |Encode(m)| == 12 + |m.queries[0].name| + 6 + RecordsLength(m.answers)
  {
    NameWireLength(m.queries[0].name);
    RecordsWireLength(m.answers);
  }

  // ----- decoding -----

  function Short(b: seq<byte>, i: nat): u16
    requires i + 1 < |b|
  {
    var high: nat, low: nat := b[i], b[i + 1];
    high * 256 + low
  }

  function Long(b: seq<byte>, i: nat): u32
    requires i + 3 < |b|
  {
    var high: nat, low: nat := Short(b, i), Short(b, i + 2);
    high * 0x1_0000 + low
  }

  function ReadFlags(a: byte, b: byte): Flags {
    Flags(a / 128, a / 8 % 16, a / 4 % 2, a / 2 % 2, a % 2, b / 128, b / 16 % 8, b % 16)
  }

  /** A question's name: here an octet of 192 and more is a length like any other. */
  function QNameAt(b: seq<byte>, i: nat): (r: Option<Text>)
    ensures r.Some? ==> i <= r.value.end < |b|
    decreases |b| - i
  {
    if i >= |b| then None
    else if b[i] == 0 then Some(Text([], i))
    else if i + 1 + b[i] > |b| then None
    else match QNameAt(b, i + 1 + b[i])
      case None => None
      case Some(t) => Some(Text(b[i + 1..i + 1 + b[i]] + [DOT] + t.chars, t.end))
  }

  /** The array of 512 characters holds the name with its dots, the last of which is dropped. */
  function Undotted(t: Option<Text>): Option<Text> {
    if t.None? || t.value.chars == [] || |t.value.chars| > 512 then None
    else Some(Text(t.value.chars[..|t.value.chars| - 1], t.value.end))
  }

  function ReadQuery(b: seq<byte>, i: nat): Option<(Query, nat)> {
    match Undotted(QNameAt(b, i))
    case None => None
    case Some(t) =>
      var p := t.end + 1;
      if p + 4 > |b| then None else Some((Query(t.chars, Short(b, p), Short(b, p + 2)), p + 4))
  }

  function ReadQueries(b: seq<byte>, i: nat, n: nat): Option<(seq<Query>, nat)>
    decreases n
  {
    if n == 0 then Some(([], i))
    else match ReadQuery(b, i)
      case None => None
      case Some((q, next)) =>
        match ReadQueries(b, next, n - 1) case None => None case Some((qs, end)) => Some(([q] + qs, end))
  }

  /** A name in an answer; the pointers in `b` cannot follow one another more often without coming back. */
  function RNameAt(b: seq<byte>, i: nat): Option<Text> {
    Undotted(NameAt(b, i, |b|))
  }

  /** Response data at `q`: an address has to have its octets, and at most 511, which is what there is room for. */
  function ReadData(b: seq<byte>, q: nat, rtype: u16, length: u16): Option<(Data, nat)> {
    if rtype == 1 then
      if 4 <= length <= 511 && q + length <= |b| then Some((A(Long(b, q)), q + length)) else None
    else if rtype == 5 then
      match RNameAt(b, q) case None => None case Some(t) => Some((Cname(t.chars), t.end + 1))
    else if rtype == 28 then
      if 16 <= length <= 511 && q + length <= |b| then Some((Aaaa(b[q..q + 16]), q + length)) else None
    else Some((Other(rtype), q + length))
  }

  /** An owner's name is copied up to a zero octet only; what would follow is not set. */
  function OwnerAt(b: seq<byte>, i: nat): Option<Text> {
    var t := RNameAt(b, i);
    if t.Some? && 0 in t.value.chars then None else t
  }

  function ReadRecord(b: seq<byte>, i: nat): Option<(Record, nat)> {
    match OwnerAt(b, i)
    case None => None
    case Some(t) =>
      var p := t.end + 1;
      if p + 10 > |b| then None
      else match ReadData(b, p + 10, Short(b, p), Short(b, p + 8))
        case None => None
        case Some((d, next)) => Some((Record(t.chars, Short(b, p + 2), Long(b, p + 4), Short(b, p + 8), d), next))
  }

  function ReadRecords(b: seq<byte>, i: nat, n: nat): Option<(seq<Record>, nat)>
    decreases n
  {
    if n == 0 then Some(([], i))
    else match ReadRecord(b, i)
      case None => None
      case Some((r, next)) =>
        match ReadRecords(b, next, n - 1) case None => None case Some((rs, end)) => Some(([r] + rs, end))
  }

  /** `None` where `buf2message` would leave the octets it was given or its arrays. */
  function Decode(b: seq<byte>): Option<Message> {
    if |b| < 12 || (|b| == 12 && Short(b, 4) > 0) then None
    else match ReadQueries(b, 12, Short(b, 4))
      case None => None
      case Some((qs, i)) =>
        match ReadRecords(b, i, Short(b, 6))
        case None => None
        case Some((rs, _)) => Some(Message(Short(b, 0), ReadFlags(b[2], b[3]), qs, rs, Short(b, 8), Short(b, 10)))
  }

  // ----- the round trip -----

  lemma ShortAt(pre: seq<byte>, x: u16, post: seq<byte>)
    ensures Short(pre + Be16(x) + post, |pre|) == x
  {
  }

  lemma LongAt(pre: seq<byte>, x: u32, post: seq<byte>)
    ensures Long(pre + Be32(x) + post, |pre|) == x
  {
    var b := pre + Be32(x) + post;
    assert b == pre + Be16(x / 0x1_0000) + (Be16(x % 0x1_0000) + post);
    assert b == (pre + Be16(x / 0x1_0000)) + Be16(x % 0x1_0000) + post;
    ShortAt(pre, x / 0x1_0000, Be16(x % 0x1_0000) + post);
    ShortAt(pre + Be16(x / 0x1_0000), x % 0x1_0000, post);
  }

  lemma Half(t: int, r: bit)
    ensures (2 * t + r) / 2 == t && (2 * t + r) % 2 == r
  {
  }

  lemma Sixteenth(t: int, r: nibble)
    ensures (16 * t + r) / 16 == t && (16 * t + r) % 16 == r
  {
  }

  lemma Halves(a: int)
    ensures a / 4 == a / 2 / 2 && a / 8 == a / 2 / 2 / 2 && a / 128 == a / 2 / 2 / 2 / 16
  {
  }

  /** The binary digits of an octet put together from them. */
  lemma HighDigits(qr: bit, opcode: nibble, aa: bit, tc: bit, rd: bit, a: int)
    requires a == HighOctet(qr, opcode, aa, tc, rd)
    ensures a / 128 == qr && a / 8 % 16 == opcode && a / 4 % 2 == aa && a / 2 % 2 == tc && a % 2 == rd
  {
    var t3: int := 16 * qr + opcode;
    var t2: int := 2 * t3 + aa;
    var t1: int := 2 * t2 + tc;
    Half(t1, rd);
    Half(t2, tc);
    Half(t3, aa);
    Sixteenth(qr, opcode);
    Halves(a);
  }

  lemma LowDigits(ra: bit, rcode: nibble, b: int)
    requires b == LowOctet(ra, rcode)
    ensures b / 128 == ra && b / 16 % 8 == 0 && b % 16 == rcode
  {
    Sixteenth(8 * ra, rcode);
  }

  lemma FlagsRoundTrip(f: Flags)
    requires f.z == 0
    ensures var w := FlagsWire(f); ReadFlags(w[0], w[1]) == f
  {
    var w := FlagsWire(f);
    var a: int, b: int := w[0], w[1];
    HighDigits(f.qr, f.opcode, f.aa, f.tc, f.rd, a);
    LowDigits(f.ra, f.rcode, b);
    hide FlagsWire;
  }

  /** Names without pointers are read the same in both ways. */
  lemma {:induction false} QNameIs(b: seq<byte>, i: nat)
    requires NameAt(b, i, 0).Some?
    ensures QNameAt(b, i) == NameAt(b, i, 0)
    decreases |b| - i
  {
    if b[i] != 0 { QNameIs(b, i + 1 + b[i]); }
  }

  lemma UndottedIs(name: seq<byte>, end: nat)
    requires |name| < 512
    ensures Undotted(Some(Text(name + [DOT], end))) == Some(Text(name, end))
  {
    assert (name + [DOT])[..|name|] == name;
  }

  lemma QueryRoundTrip(pre: seq<byte>, q: Query, post: seq<byte>)
    requires FitsName(q.name)
    ensures ReadQuery(pre + QueryWire(q) + post, |pre|) == Some((q, |pre| + |QueryWire(q)|))
  {
    var b, w, t, c := pre + QueryWire(q) + post, NameWire(q.name), Be16(q.qtype), Be16(q.qclass);
    NameWireLength(q.name);
    assert b == pre + w + (t + c + post);
    NameRoundTrip(pre, q.name, t + c + post, 0);
    QNameIs(b, |pre|);
    UndottedIs(q.name, |pre| + |q.name| + 1);
    assert b == (pre + w) + t + (c + post);
    assert b == (pre + w + t) + c + post;
    ShortAt(pre + w, q.qtype, c + post);
    ShortAt(pre + w + t, q.qclass, post);
  }

  /** A record as it comes back: with the length that was sent. */
  function Normal(r: Record): Record
    requires IsRecord(r)
  {
    r.(rdlength := LengthSent(r))
  }

  lemma FixedAt(pre: seq<byte>, r: Record, post: seq<byte>)
    requires IsRecord(r)
    ensures var b, p := pre + Fixed(r) + post, |pre|;
      && |Fixed(r)| == 10 && Short(b, p) == TypeOf(r.data) && Short(b, p + 2) == r.rclass && Long(b, p + 4) == r.ttl
      && Short(b, p + 8) == LengthSent(r)
  {
    var b, t, c, l, n := pre + Fixed(r) + post, Be16(TypeOf(r.data)), Be16(r.rclass), Be32(r.ttl), Be16(LengthSent(r));
    assert b == pre + t + (c + l + n + post) == (pre + t) + c + (l + n + post);
    assert b == (pre + t + c) + l + (n + post) == (pre + t + c + l) + n + post;
    ShortAt(pre, TypeOf(r.data), c + l + n + post);
    ShortAt(pre + t, r.rclass, l + n + post);
    LongAt(pre + t + c, r.ttl, n + post);
    ShortAt(pre + t + c + l, LengthSent(r), post);
  }

  lemma RNameRoundTrip(pre: seq<byte>, name: seq<byte>, post: seq<byte>)
    requires FitsName(name)
    ensures RNameAt(pre + NameWire(name) + post, |pre|) == Some(Text(name, |pre| + |name| + 1))
  {
    var b := pre + NameWire(name) + post;
    NameRoundTrip(pre, name, post, |b|);
    UndottedIs(name, |pre| + |name| + 1);
  }

  lemma {:induction false} NoZeroJoin(parts: seq<seq<byte>>)
    requires |parts| > 0 && AreLabels(parts)
    ensures 0 !in Join(parts, DOT)
    decreases |parts|
  {
    if |parts| > 1 { NoZeroJoin(parts[1..]); }
  }

  lemma NoZero(name: seq<byte>)
    requires IsName(name)
    ensures 0 !in name
  {
    JoinSplit(name, DOT);
    NoZeroJoin(Split(name, DOT));
  }

  lemma OwnerRoundTrip(pre: seq<byte>, name: seq<byte>, post: seq<byte>)
    requires FitsName(name)
    ensures OwnerAt(pre + NameWire(name) + post, |pre|) == Some(Text(name, |pre| + |name| + 1))
  {
    RNameRoundTrip(pre, name, post);
    NoZero(name);
  }

  lemma DataRoundTrip(pre: seq<byte>, r: Record, post: seq<byte>)
    requires IsRecord(r)
    ensures ReadData(pre + DataWire(r.data) + post, |pre|, TypeOf(r.data), LengthSent(r)) ==
            Some((r.data, |pre| + |DataWire(r.data)|))
  {
    var b := pre + DataWire(r.data) + post;
    match r.data
    case A(address) => LongAt(pre, address, post);
    case Cname(name) =>
      RNameRoundTrip(pre, name, post);
      NameWireLength(name);
    case Aaaa(octets) => assert b[|pre|..|pre| + 16] == octets;
  }

  lemma RecordRoundTrip(pre: seq<byte>, r: Record, post: seq<byte>)
    requires IsRecord(r)
    ensures ReadRecord(pre + RecordWire(r) + post, |pre|) == Some((Normal(r), |pre| + |RecordWire(r)|))
  {
    hide OwnerAt, ReadData, NameWire, DataWire, Fixed, IsName, LengthSent, Short, Long;
    var b, w, f, d := pre + RecordWire(r) + post, NameWire(r.name), Fixed(r), DataWire(r.data);
    NameWireLength(r.name);
    assert b == pre + w + (f + d + post) == (pre + w) + f + (d + post) == (pre + w + f) + d + post;
    OwnerRoundTrip(pre, r.name, f + d + post);
    FixedAt(pre + w, r, d + post);
    DataRoundTrip(pre + w + f, r, post);
  }

  // ----- compressed names in records -----

  /** The name at `i`, with its pointers leading backwards, is `name`. */
  ghost predicate Spells(b: seq<byte>, i: nat, name: seq<byte>) {
    PointsBack(b, i) && Dotted(Expanded(b, i)) == name + [DOT]
  }

  lemma SpelledName(b: seq<byte>, i: nat, name: seq<byte>)
    requires Spells(b, i, name) && FitsName(name)
    ensures SegmentAt(b, i)
    ensures OwnerAt(b, i) == RNameAt(b, i) == Some(Text(name, NameEnd(b, i)))
  {
    hide SegmentAt, IsName, Dotted, Expanded, NameAt;
    BackwardTerminates(b, i);
    EnoughHops(b, i, i);
    UndottedIs(name, NameEnd(b, i));
    NoZero(name);
  }

  /** The record `r` is at `i`, with its names spelled along pointers or not. */
  ghost predicate RecordSpelled(b: seq<byte>, i: nat, r: Record)
    requires IsRecord(r)
  {
    Spells(b, i, r.name) &&
    var p := NameEnd(b, i) + 1;
    && p + 10 <= |b| && Short(b, p) == TypeOf(r.data) && Short(b, p + 2) == r.rclass && Long(b, p + 4) == r.ttl
    && match r.data
       case A(address) => Short(b, p + 8) == 4 && p + 14 <= |b| && Long(b, p + 10) == address
       case Cname(name) => Spells(b, p + 10, name)
       case Aaaa(octets) => Short(b, p + 8) == 16 && p + 26 <= |b| && b[p + 10..p + 26] == octets
       case Other(_) => false
  }

  /**
    A record with a compressed owner or target is read like the one that is written out, but for the
    length field, which counts the octets that are there.
   */
  lemma CompressedRecord(b: seq<byte>, i: nat, r: Record, pre: seq<byte>, post: seq<byte>)
    requires IsRecord(r) && RecordSpelled(b, i, r)
    ensures ReadRecord(b, i).Some? && ReadRecord(pre + RecordWire(r) + post, |pre|).Some?
    ensures var p := NameEnd(b, i) + 1;
      ReadRecord(b, i).value.0 == ReadRecord(pre + RecordWire(r) + post, |pre|).value.0.(rdlength := Short(b, p + 8))
  {
    hide Spells, OwnerAt, RNameAt, Short, Long, IsName, NameEnd, RecordWire;
    RecordRoundTrip(pre, r, post);
    SpelledName(b, i, r.name);
    assert SegmentAt(b, i);
    if r.data.Cname? { SpelledName(b, NameEnd(b, i) + 1 + 10, r.data.name); }
  }

  function Normals(rs: seq<Record>): seq<Record>
    requires AreRecords(rs)
  {
    if rs == [] then [] else [Normal(rs[0])] + Normals(rs[1..])
  }

  lemma {:induction false} RecordsRoundTrip(pre: seq<byte>, rs: seq<Record>)
    requires AreRecords(rs)
    ensures ReadRecords(pre + RecordsWire(rs), |pre|, |rs|) == Some((Normals(rs), |pre| + |RecordsWire(rs)|))
    decreases |rs|
  {
    hide ReadRecord, RecordWire, Normal;
    if rs != [] {
      var w, rest := RecordWire(rs[0]), RecordsWire(rs[1..]);
      assert pre + (w + rest) == pre + w + rest;
      RecordRoundTrip(pre, rs[0], rest);
      RecordsRoundTrip(pre + w, rs[1..]);
    }
  }

  lemma HeaderAt(m: Message, post: seq<byte>)
    requires CanSend(m)
    ensures var b := HeaderWire(m) + post;
      && |HeaderWire(m)| == 12 && Short(b, 0) == m.id && ReadFlags(b[2], b[3]) == m.flags && Short(b, 4) == 1
      && Short(b, 6) == |m.answers| && Short(b, 8) == m.authorityCount && Short(b, 10) == m.additionalCount
  {
    var h := HeaderWire(m);
    FlagsRoundTrip(m.flags);
    hide FlagsWire, ReadFlags, AreRecords, FitsName;
    assert h[0..2] == Be16(m.id) && h[2] == FlagsWire(m.flags)[0] && h[3] == FlagsWire(m.flags)[1];
    assert h[4..6] == Be16(1) && h[6..8] == Be16(|m.answers|);
    assert h[8..10] == Be16(m.authorityCount) && h[10..12] == Be16(m.additionalCount);
  }

  lemma DecodeParts(b: seq<byte>, qs: seq<Query>, i: nat, rs: seq<Record>, end: nat, f: Flags)
    requires |b| > 12 && ReadQueries(b, 12, Short(b, 4)) == Some((qs, i))
    requires ReadRecords(b, i, Short(b, 6)) == Some((rs, end)) && ReadFlags(b[2], b[3]) == f
    ensures Decode(b) == Some(Message(Short(b, 0), f, qs, rs, Short(b, 8), Short(b, 10)))
  {
    hide ReadQueries, ReadRecords, ReadFlags, Short;
  }

  lemma OneQuery(b: seq<byte>, i: nat, q: Query, next: nat)
    requires ReadQuery(b, i) == Some((q, next))
    ensures ReadQueries(b, i, 1) == Some(([q], next))
  {
    assert ReadQueries(b, next, 0) == Some(([], next));
    assert [q] + [] == [q];
  }

  lemma EncodeIs(m: Message)
    requires CanSend(m)
    ensures var h, q, r, b := HeaderWire(m), QueryWire(m.queries[0]), RecordsWire(m.answers), Encode(m);
      b == h + (q + r) == h + q + r && |q| > 0 && m.queries == [m.queries[0]] && |b| == |h| + |q| + |r|
    ensures IsName(m.queries[0].name) && FitsName(m.queries[0].name) && AreRecords(m.answers)
  {
    hide HeaderWire, RecordsWire;
  }

  /** Every message that can be sent is read back, with the lengths of its names recomputed. */
  lemma RoundTrip(m: Message)
    requires CanSend(m)
    ensures Decode(Encode(m)) == Some(m.(answers := Normals(m.answers)))
  {
    hide Decode, HeaderWire, QueryWire, RecordsWire, ReadQuery, ReadQueries, ReadRecords, ReadFlags, Short, Normals, FitsName,
         AreRecords, Encode;
    EncodeIs(m);
    var h, q, r, b := HeaderWire(m), QueryWire(m.queries[0]), RecordsWire(m.answers), Encode(m);
    HeaderAt(m, q + r);
    QueryRoundTrip(h, m.queries[0], r);
    OneQuery(b, 12, m.queries[0], 12 + |q|);
    RecordsRoundTrip(h + q, m.answers);
    DecodeParts(b, m.queries, 12 + |q|, Normals(m.answers), |b|, m.flags);
  }
}
