/**
  The loops of `src/message.c` that write and read messages in byte buffers.
 */
module DnsCodec {
  import opened Bytes
  import opened DnsNames
  import opened DnsMessage

  // ----- bits -----

  /** Binary digit `k` of `d`. */
  function Digit(d: nat, k: nat): bit {
    if k == 0 then d % 2 else Digit(d / 2, k - 1)
  }

  /** What is left of `d` without its last `k` digits. */
  function Shifted(d: nat, k: nat): nat {
    if k == 0 then d else Shifted(d / 2, k - 1)
  }

  lemma {:induction false} ShiftedDigit(d: nat, k: nat)
    ensures Shifted(d, k) % 2 == Digit(d, k) && Shifted(d, k) / 2 == Shifted(d, k + 1)
  {
    if k > 0 { ShiftedDigit(d / 2, k - 1); }
  }

  lemma {:induction false} NoMoreDigits(d: nat, k: nat, j: nat)
    requires Shifted(d, k) == 0 && k <= j
    ensures Digit(d, j) == 0 && Shifted(d, j) == 0
  {
    if k > 0 {
      NoMoreDigits(d / 2, k - 1, j - 1);
    } else if j > 0 {
      NoMoreDigits(d / 2, 0, j - 1);
    }
  }

  /** The first loop of `dec2bin`: the digits from the last one on. */
  method LowFirst(dec0: nat, bin: array<bit>)
    requires Shifted(dec0, bin.Length) == 0 && forall k :: 0 <= k < bin.Length ==> bin[k] == 0
    modifies bin
    ensures forall k :: 0 <= k < bin.Length ==> bin[k] == Digit(dec0, k)
  {
    hide Digit, Shifted;
    ShiftedStart(dec0);
    var dec, pos := dec0, 0;
    while dec > 0
      invariant pos <= bin.Length && dec == Shifted(dec0, pos)
      invariant forall k :: 0 <= k < pos ==> bin[k] == Digit(dec0, k)
      invariant forall k :: pos <= k < bin.Length ==> bin[k] == 0
      decreases dec
    {
      ShiftedDigit(dec0, pos);
      PosFits(dec0, pos, bin.Length);
      bin[pos] := dec % 2;
      dec := dec / 2;
      pos := pos + 1;
    }
    forall k | pos <= k < bin.Length ensures Digit(dec0, k) == 0 { NoMoreDigits(dec0, pos, k); }
  }

  lemma ShiftedStart(d: nat)
    ensures Shifted(d, 0) == d
  {
  }

  lemma PosFits(d: nat, pos: nat, n: nat)
    requires Shifted(d, pos) > 0 && Shifted(d, n) == 0
    ensures pos < n
  {
    if n <= pos { NoMoreDigits(d, n, pos); }
  }

  /** The second loop of `dec2bin`. */
  method Reverse(bin: array<bit>)
    modifies bin
    ensures forall k :: 0 <= k < bin.Length ==> bin[k] == old(bin[bin.Length - 1 - k])
  {
    var n := bin.Length;
    ghost var was := bin[..];
    for i := 0 to n / 2
      invariant forall k :: 0 <= k < i ==> bin[k] == was[n - 1 - k]
      invariant forall k :: i <= k < n - i ==> bin[k] == was[k]
      invariant forall k :: n - i <= k < n ==> bin[k] == was[n - 1 - k]
    {
      var temp := bin[n - i - 1];
      bin[n - i - 1] := bin[i];
      bin[i] := temp;
    }
  }

  /** `dec2bin`: the digits are written from the last one on and then reversed. */
  method Dec2bin(dec: nat, bin: array<bit>)
    requires Shifted(dec, bin.Length) == 0 && forall k :: 0 <= k < bin.Length ==> bin[k] == 0
    modifies bin
    ensures forall k :: 0 <= k < bin.Length ==> bin[k] == Digit(dec, bin.Length - 1 - k)
  {
    hide Digit, Shifted;
    LowFirst(dec, bin);
    Reverse(bin);
  }

  /** `char2bit`: the digits of an octet, the highest first. */
  method Char2bit(ch: byte, bits: array<bit>, at: nat)
    requires at + 8 <= bits.Length
    modifies bits
    ensures forall j :: 0 <= j < 8 ==> bits[at + 7 - j] == Digit(ch, j)
    ensures forall k :: 0 <= k < bits.Length && !(at <= k < at + 8) ==> bits[k] == old(bits[k])
  {
    for j := 0 to 8
      invariant forall i :: 0 <= i < j ==> bits[at + 7 - i] == Digit(ch, i)
      invariant forall k :: 0 <= k < bits.Length && !(at <= k < at + 8) ==> bits[k] == old(bits[k])
    {
      ShiftedDigit(ch, j);
      bits[at + 7 - j] := Shifted(ch, j) % 2;
    }
  }

  /** Four digits as a number. */
  function Four(a: int, b: int, c: int, d: int): int {
    8 * a + 4 * b + 2 * c + d
  }

  /** `x << n` */
  function Shl(x: int, n: nat): int {
    if n == 0 then x else 2 * Shl(x, n - 1)
  }

  /** The lowest `i` digits of an octet put in place; `bits` are its digits, the highest first. */
  function Value(bits: seq<bit>, i: nat): int
    requires |bits| == 8 && i <= 8
  {
    if i == 0 then 0 else Value(bits, i - 1) + Shl(bits[8 - i], i - 1)
  }

  lemma ShlIs(x: int)
    ensures Shl(x, 0) == x && Shl(x, 1) == 2 * x && Shl(x, 2) == 4 * x && Shl(x, 3) == 8 * x
    ensures Shl(x, 4) == 16 * x && Shl(x, 5) == 32 * x && Shl(x, 6) == 64 * x && Shl(x, 7) == 128 * x
  {
    assert Shl(x, 3) == 2 * Shl(x, 2) && Shl(x, 5) == 2 * Shl(x, 4);
  }

  lemma ValueIs(bits: seq<bit>)
    requires |bits| == 8
    ensures Value(bits, 8) == 16 * Four(bits[0], bits[1], bits[2], bits[3]) + Four(bits[4], bits[5], bits[6], bits[7])
  {
    forall k | 0 <= k < 8
      ensures Shl(bits[k], 0) == bits[k] && Value(bits, k + 1) == Value(bits, k) + Shl(bits[7 - k], k)
    {
    }
    ShlIs(bits[7]);
    ShlIs(bits[6]);
    ShlIs(bits[5]);
    ShlIs(bits[4]);
    ShlIs(bits[3]);
    ShlIs(bits[2]);
    ShlIs(bits[1]);
    ShlIs(bits[0]);
    assert Value(bits, 0) == 0;
    hide Shl;
    assert Value(bits, 4) == Four(bits[4], bits[5], bits[6], bits[7]);
  }

  /** The digits of a number of four digits. */
  lemma NibbleDigits(d: nibble)
    ensures Shifted(d, 4) == 0
    ensures d == Four(Digit(d, 3), Digit(d, 2), Digit(d, 1), Digit(d, 0))
  {
    assert Digit(d, 1) == Digit(d / 2, 0) == d / 2 % 2;
    assert Digit(d, 2) == Digit(d / 2, 1) == Digit(d / 2 / 2, 0) == d / 2 / 2 % 2;
    assert Digit(d, 3) == Digit(d / 2, 2) == Digit(d / 2 / 2, 1) == Digit(d / 2 / 2 / 2, 0);
    assert Shifted(d, 4) == Shifted(d / 2, 3) == Shifted(d / 2 / 2, 2) == Shifted(d / 2 / 2 / 2, 1);
  }

  /** The two octets of flags: each bit is shifted to its place and put in with a bitwise or. */
  method EncodeFlags(f: Flags) returns (flags: seq<byte>)
    requires f.z == 0
    ensures flags == FlagsWire(f)
  {
    hide Digit, Shifted, Four, HighOctet, LowOctet;
    NibbleDigits(f.opcode);
    NibbleDigits(f.rcode);
    var flagsOpcode := new bit[4](_ => 0);
    Dec2bin(f.opcode, flagsOpcode);
    var flagsRCode := new bit[4](_ => 0);
    Dec2bin(f.rcode, flagsRCode);
    var a := PutBits([f.qr, flagsOpcode[0], flagsOpcode[1], flagsOpcode[2], flagsOpcode[3], f.aa, f.tc, f.rd]);
    var b := PutBits([f.ra, f.z, f.z, f.z, flagsRCode[0], flagsRCode[1], flagsRCode[2], flagsRCode[3]]);
    FlagBits(f, flagsOpcode[..], flagsRCode[..]);
    flags := [a, b];
  }

  lemma FlagBits(f: Flags, o: seq<bit>, r: seq<bit>)
    requires f.z == 0 && |o| == 4 && |r| == 4
    requires f.opcode == Four(o[0], o[1], o[2], o[3]) && f.rcode == Four(r[0], r[1], r[2], r[3])
    ensures HighOctet(f.qr, f.opcode, f.aa, f.tc, f.rd) == 16 * Four(f.qr, o[0], o[1], o[2]) + Four(o[3], f.aa, f.tc, f.rd)
    ensures LowOctet(f.ra, f.rcode) == 16 * Four(f.ra, f.z, f.z, f.z) + Four(r[0], r[1], r[2], r[3])
  {
    HighSum(f.qr, f.opcode, f.aa, f.tc, f.rd, o[0], o[1], o[2], o[3]);
    LowSum(f.ra, f.rcode);
    hide HighOctet, LowOctet, Four;
  }

  lemma HighSum(qr: int, opcode: int, aa: int, tc: int, rd: int, o3: int, o2: int, o1: int, o0: int)
    requires opcode == Four(o3, o2, o1, o0)
    ensures HighOctet(qr, opcode, aa, tc, rd) == 16 * Four(qr, o3, o2, o1) + Four(o0, aa, tc, rd)
  {
  }

  lemma LowSum(ra: int, rcode: int)
    ensures LowOctet(ra, rcode) == 16 * Four(ra, 0, 0, 0) + rcode
  {
  }

  /** `flags |= bits[7 - i] << i` for every bit of an octet. */
  method PutBits(bits: seq<bit>) returns (a: byte)
    requires |bits| == 8
    ensures a == 16 * Four(bits[0], bits[1], bits[2], bits[3]) + Four(bits[4], bits[5], bits[6], bits[7])
  {
    hide Shl;
    var sum := 0;
    for i := 0 to 8
      invariant sum == Value(bits, i)
    {
      sum := sum + Shl(bits[7 - i], i);
    }
    ValueIs(bits);
    a := sum;
  }

  lemma Eighth(t: int, r: int)
    requires 0 <= r < 8
    ensures (8 * t + r) % 8 == r
  {
  }

  lemma Sixteen(t: int, r: int)
    requires 0 <= r < 16
    ensures (16 * t + r) % 16 == r
  {
  }

  lemma Doubled(d: nat)
    ensures d == 2 * (d / 2) + d % 2
  {
  }

  /** Four digits in a row as the remainder of what is left above the ones below them. */
  lemma FourDigits(d: nat, k: nat)
    ensures Four(Digit(d, k + 3), Digit(d, k + 2), Digit(d, k + 1), Digit(d, k)) == Shifted(d, k) % 16
    ensures Four(0, Digit(d, k + 2), Digit(d, k + 1), Digit(d, k)) == Shifted(d, k) % 8
  {
    ShiftedDigit(d, k);
    ShiftedDigit(d, k + 1);
    ShiftedDigit(d, k + 2);
    ShiftedDigit(d, k + 3);
    Doubled(Shifted(d, k));
    Doubled(Shifted(d, k + 1));
    Doubled(Shifted(d, k + 2));
    Doubled(Shifted(d, k + 3));
    hide Shifted, Digit;
    Eighth(Shifted(d, k + 3), Four(0, Digit(d, k + 2), Digit(d, k + 1), Digit(d, k)));
    Sixteen(Shifted(d, k + 4), Four(Digit(d, k + 3), Digit(d, k + 2), Digit(d, k + 1), Digit(d, k)));
  }

  lemma Halved(d: nat, c: nat)
    requires c == 2 || c == 4 || c == 8 || c == 16 || c == 32 || c == 64
    ensures d / c / 2 == d / (2 * c)
  {
  }

  /** What is left of an octet. */
  lemma ShiftedIs(a: byte)
    ensures Shifted(a, 0) == a && Shifted(a, 1) == a / 2 && Shifted(a, 2) == a / 4 && Shifted(a, 3) == a / 8
    ensures Shifted(a, 4) == a / 16 && Shifted(a, 7) == a / 128
  {
    ShiftedStart(a);
    assert Shifted(a, 1) == Shifted(a / 2, 0) == a / 2;
    hide Shifted;
    ShiftedDigit(a, 1);
    Halved(a, 2);
    ShiftedDigit(a, 2);
    Halved(a, 4);
    ShiftedDigit(a, 3);
    Halved(a, 8);
    ShiftedDigit(a, 4);
    Halved(a, 16);
    ShiftedDigit(a, 5);
    Halved(a, 32);
    ShiftedDigit(a, 6);
    Halved(a, 64);
  }

  /** The digits of an octet, taken together again in the groups of the flags. */
  lemma ReadDigits(a: byte, b: byte)
    ensures ReadFlags(a, b) ==
      Flags(Digit(a, 7), Four(Digit(a, 6), Digit(a, 5), Digit(a, 4), Digit(a, 3)),
            Digit(a, 2), Digit(a, 1), Digit(a, 0),
            Digit(b, 7), Four(0, Digit(b, 6), Digit(b, 5), Digit(b, 4)),
            Four(Digit(b, 3), Digit(b, 2), Digit(b, 1), Digit(b, 0)))
  {
    hide Digit, Shifted, Four;
    ShiftedIs(a);
    ShiftedIs(b);
    FourDigits(a, 3);
    FourDigits(b, 4);
    FourDigits(b, 0);
    ShiftedDigit(a, 0);
    ShiftedDigit(a, 1);
    ShiftedDigit(a, 2);
    ShiftedDigit(a, 7);
    ShiftedDigit(b, 7);
  }

  method DecodeFlags(a: byte, b: byte) returns (f: Flags)
    ensures f == ReadFlags(a, b)
  {
    var flags := new bit[16](_ => 0);
    Char2bit(a, flags, 0);
    Char2bit(b, flags, 8);
    ReadDigits(a, b);
    hide Digit;
    f := Flags(flags[0], Four(flags[1], flags[2], flags[3], flags[4]), flags[5], flags[6], flags[7],
               flags[8], Four(0, flags[9], flags[10], flags[11]),
               Four(flags[12], flags[13], flags[14], flags[15]));
  }

  // ----- writing -----

  /** `memcpy(&buf[at], src, n)` */
  method Put(buf: array<byte>, at: nat, src: seq<byte>) returns (next: nat)
    requires at + |src| <= buf.Length
    modifies buf
    ensures next == at + |src| && buf[..next] == old(buf[..at]) + src
  {
    for i := 0 to |src|
      invariant buf[..at + i] == old(buf[..at]) + src[..i]
    {
      buf[at + i] := src[i];
      assert buf[..at + i + 1] == buf[..at + i] + [src[i]];
      assert src[..i + 1] == src[..i] + [src[i]];
    }
    assert src[..|src|] == src;
    next := at + |src|;
  }

  /** A name, through the buffer of `name2message`. */
  method PutName(buf: array<byte>, at: nat, name: seq<byte>) returns (next: nat)
    requires IsName(name) && at + |name| + 2 <= buf.Length
    modifies buf
    ensures next == at + |name| + 2 && buf[..next] == old(buf[..at]) + NameWire(name)
  {
    NameWireLength(name);
    var transfer := NameToMessage(name);
    next := Put(buf, at, transfer[..|name| + 2]);
  }

  /** `message2bufHeader`: every count is copied and its octets exchanged. */
  method EncodeHeader(buf: array<byte>, m: Message) returns (end: nat)
    requires CanSend(m) && buf.Length >= 12
    modifies buf
    ensures end == 12 && buf[..end] == HeaderWire(m)
  {
    var flags := EncodeFlags(m.flags);
    end := Put(buf, 0, Be16(m.id));
    end := Put(buf, end, flags);
    end := Put(buf, end, Be16(|m.queries|));
    end := Put(buf, end, Be16(|m.answers|));
    end := Put(buf, end, Be16(m.authorityCount));
    end := Put(buf, end, Be16(m.additionalCount));
    assert buf[..0] == [] && [] + Be16(m.id) == Be16(m.id);
  }

  /**
    `message2bufQuestion`.  The cursor is not moved over the class, so that a second question
    would be written over the class of the first; with one question it is right.
   */
  method EncodeQuestions(buf: array<byte>, base: nat, m: Message) returns (end: nat)
    requires CanSend(m) && base + |m.queries[0].name| + 6 <= buf.Length
    modifies buf
    ensures end == base + |m.queries[0].name| + 6 && buf[..end] == old(buf[..base]) + QueryWire(m.queries[0])
  {
    var bufPos: nat := 0;
    end := base;
    for entryNum := 0 to |m.queries|
      invariant entryNum == 0 ==> bufPos == 0 && end == base && buf[..end] == old(buf[..base])
      invariant entryNum == 1 ==> end == base + |m.queries[0].name| + 6
      invariant entryNum == 1 ==> buf[..end] == old(buf[..base]) + QueryWire(m.queries[0])
    {
      var q := m.queries[entryNum];
      ghost var before := buf[..base];
      var next := PutName(buf, base + bufPos, q.name);
      bufPos := bufPos + |q.name| + 2;
      next := Put(buf, base + bufPos, Be16(q.qtype));
      bufPos := bufPos + 2;
      next := Put(buf, base + bufPos, Be16(q.qclass));
      assert buf[..next] == before + QueryWire(q) by {
        assert before + NameWire(q.name) + Be16(q.qtype) + Be16(q.qclass) == before + QueryWire(q);
      }
      end := end + bufPos + 2;
    }
  }

  /** The data of a record, by its type. */
  method EncodeData(buf: array<byte>, at: nat, r: Record) returns (next: nat)
    requires IsRecord(r) && at + DataLength(r.data) <= buf.Length
    modifies buf
    ensures next == at + DataLength(r.data) && buf[..next] == old(buf[..at]) + DataWire(r.data)
  {
    match r.data
    case A(address) =>
      next := Put(buf, at, Be32(address));
      next := at + r.rdlength;
    case Cname(name) =>
      next := PutName(buf, at, name);
    case Aaaa(octets) =>
      next := Put(buf, at, octets);
      next := at + r.rdlength;
  }

  /** One turn of the loop of `message2bufAnswer`. */
  method EncodeRecord(buf: array<byte>, at: nat, r: Record) returns (next: nat)
    requires IsRecord(r) && at + |RecordWire(r)| <= buf.Length
    modifies buf
    ensures next == at + |RecordWire(r)| && buf[..next] == old(buf[..at]) + RecordWire(r)
  {
    RecordWireLength(r);
    ghost var before := buf[..at];
    hide RecordWire, DataWire, DataLength, IsRecord, Be16, Be32, NameWire;
    RecordParts(before, r);
    next := PutName(buf, at, r.name);
    next := Put(buf, next, Be16(TypeOf(r.data)));
    next := Put(buf, next, Be16(r.rclass));
    next := Put(buf, next, Be32(r.ttl));
    var length := LengthSent(r);
    next := Put(buf, next, Be16(length));
    next := EncodeData(buf, next, r);
  }

  lemma RecordParts(pre: seq<byte>, r: Record)
    requires IsRecord(r)
    ensures IsName(r.name) && (r.data.Cname? ==> IsName(r.data.name))
    ensures pre + NameWire(r.name) + Be16(TypeOf(r.data)) + Be16(r.rclass) + Be32(r.ttl) + Be16(LengthSent(r)) + DataWire(r.data)
            == pre + RecordWire(r)
    ensures |Be16(TypeOf(r.data))| == 2 && |Be16(r.rclass)| == 2 && |Be32(r.ttl)| == 4 && |Be16(LengthSent(r))| == 2
  {
  }

  lemma {:induction false} RecordsWireSnoc(rs: seq<Record>, k: nat)
    requires AreRecords(rs) && k < |rs|
    ensures AreRecords(rs[..k]) && AreRecords(rs[..k + 1]) && IsRecord(rs[k])
    ensures RecordsWire(rs[..k + 1]) == RecordsWire(rs[..k]) + RecordWire(rs[k])
    ensures |RecordsWire(rs[..k + 1])| <= |RecordsWire(rs)|
  {
    hide RecordWire, IsRecord;
    if k == 0 {
      assert rs[..1] == [rs[0]] && rs[..0] == [] && [rs[0]][1..] == [];
      assert [] + RecordWire(rs[0]) == RecordWire(rs[0]) == RecordWire(rs[0]) + [];
    } else {
      RecordsWireSnoc(rs[1..], k - 1);
      assert rs[..k + 1][1..] == rs[1..][..k] && rs[..k][1..] == rs[1..][..k - 1];
      var w := RecordWire(rs[0]);
      assert w + (RecordsWire(rs[1..][..k - 1]) + RecordWire(rs[k])) == w + RecordsWire(rs[1..][..k - 1]) + RecordWire(rs[k]);
    }
  }

  lemma NoRecords(rs: seq<Record>, before: seq<byte>)
    ensures AreRecords(rs[..0]) && RecordsWire(rs[..0]) == [] && before + RecordsWire(rs[..0]) == before
  {
  }

  /** `message2bufAnswer` */
  method EncodeAnswers(buf: array<byte>, base: nat, m: Message) returns (end: nat)
    requires CanSend(m) && base + |RecordsWire(m.answers)| <= buf.Length
    modifies buf
    ensures end == base + |RecordsWire(m.answers)| && buf[..end] == old(buf[..base]) + RecordsWire(m.answers)
  {
    hide RecordWire, RecordsWire, IsRecord, AreRecords;
    ghost var before := buf[..base];
    var rs := m.answers;
    end := base;
    NoRecords(rs, before);
    for entryNum := 0 to |rs|
      invariant AreRecords(rs[..entryNum]) && end == base + |RecordsWire(rs[..entryNum])| <= buf.Length
      invariant buf[..end] == before + RecordsWire(rs[..entryNum])
    {
      RecordsWireSnoc(rs, entryNum);
      ghost var so := RecordsWire(rs[..entryNum]);
      end := EncodeRecord(buf, end, rs[entryNum]);
      assert before + so + RecordWire(rs[entryNum]) == before + (so + RecordWire(rs[entryNum]));
    }
    assert rs[..|rs|] == rs;
  }

  /** `message2buf`, for messages that fit into the 1500 octets set aside. */
  method MessageToBuf(m: Message) returns (buf: array<byte>, len: nat)
    requires CanSend(m) && |Encode(m)| <= 1500
    ensures fresh(buf) && len <= buf.Length && buf[..len] == Encode(m)
  {
    EncodedLength(m);
    RecordsWireLength(m.answers);
    buf := new byte[1500](_ => 0);
    var endPos := EncodeHeader(buf, m);
    endPos := EncodeQuestions(buf, endPos, m);
    if |m.answers| > 0 {
      endPos := EncodeAnswers(buf, endPos, m);
    }
    len := endPos;
    if m.answers == [] { assert Encode(m) == HeaderWire(m) + QueryWire(m.queries[0]) + []; }
  }

  // ----- reading -----

  lemma QNameStep(b: seq<byte>, i: nat, done: seq<byte>)
    requires QNameAt(b, i).Some?
    ensures i < |b|
    ensures var t := QNameAt(b, i).value;
      && (b[i] == 0 ==> done + t.chars == done && t.end == i)
      && (b[i] > 0 ==>
            var next := i + 1 + b[i];
            next <= |b| && QNameAt(b, next).Some? && t.end == QNameAt(b, next).value.end && |t.chars| > b[i]
            && done + t.chars == done + b[i + 1..next] + [DOT] + QNameAt(b, next).value.chars)
  {
    if b[i] > 0 {
      var l, rest := b[i + 1..i + 1 + b[i]], QNameAt(b, i + 1 + b[i]).value.chars;
      assert done + (l + [DOT] + rest) == done + l + [DOT] + rest;
    }
  }

  /** The name of a question, with the array it is put together in. */
  method QuestionName(b: seq<byte>, bufPos0: nat, qValue: array<byte>) returns (bufPos: nat, qValuePos: nat)
    requires QNameAt(b, bufPos0).Some? && |QNameAt(b, bufPos0).value.chars| <= qValue.Length
    modifies qValue
    ensures bufPos == QNameAt(b, bufPos0).value.end && qValuePos == |QNameAt(b, bufPos0).value.chars|
    ensures qValue[..qValuePos] == QNameAt(b, bufPos0).value.chars
  {
    hide QNameAt;
    ghost var all := QNameAt(b, bufPos0).value;
    bufPos, qValuePos := bufPos0, 0;
    QNameStep(b, bufPos, []);
    assert qValue[..0] + all.chars == all.chars;
    while b[bufPos] != 0
      invariant bufPos < |b| && QNameAt(b, bufPos).Some? && QNameAt(b, bufPos).value.end == all.end
      invariant qValuePos <= qValue.Length && qValue[..qValuePos] + QNameAt(b, bufPos).value.chars == all.chars
      decreases |b| - bufPos
    {
      bufPos, qValuePos := QuestionLabel(b, bufPos, qValue, qValuePos);
      QNameStep(b, bufPos, []);
    }
    QNameStep(b, bufPos, qValue[..qValuePos]);
  }

  /** One turn of the loop over the labels of a question. */
  method QuestionLabel(b: seq<byte>, bufPos0: nat, qValue: array<byte>, pos0: nat) returns (bufPos: nat, pos: nat)
    requires QNameAt(b, bufPos0).Some? && bufPos0 < |b| && b[bufPos0] != 0
    requires pos0 + |QNameAt(b, bufPos0).value.chars| <= qValue.Length
    modifies qValue
    ensures bufPos0 < bufPos <= |b| && QNameAt(b, bufPos).Some? && pos0 < pos <= qValue.Length
    ensures QNameAt(b, bufPos).value.end == QNameAt(b, bufPos0).value.end
    ensures qValue[..pos] + QNameAt(b, bufPos).value.chars == old(qValue[..pos0]) + QNameAt(b, bufPos0).value.chars
  {
    hide QNameAt;
    QNameStep(b, bufPos0, qValue[..pos0]);
    var letterLength := b[bufPos0];
    bufPos := CopyLabel(b, bufPos0 + 1, qValue, pos0, letterLength);
    pos := pos0 + letterLength + 1;
  }

  /** The last dot gives way to a zero octet, and what stands before it is the name. */
  method Terminate(chars: array<byte>, pos: nat) returns (text: seq<byte>)
    requires 0 < pos <= chars.Length
    modifies chars
    ensures text == old(chars[..pos])[..pos - 1]
  {
    chars[pos - 1] := 0;
    text := chars[..pos - 1];
  }

  /** One turn of the loop of `buf2messageQuestion`. */
  method DecodeQuery(b: seq<byte>, bufPos0: nat) returns (q: Query, bufPos: nat)
    requires ReadQuery(b, bufPos0).Some?
    ensures ReadQuery(b, bufPos0) == Some((q, bufPos))
  {
    var qValue := new byte[512](_ => 0);
    var qValuePos;
    bufPos, qValuePos := QuestionName(b, bufPos0, qValue);
    var name := Terminate(qValue, qValuePos);
    bufPos := bufPos + 1;
    q := Query(name, Short(b, bufPos), Short(b, bufPos + 2));
    bufPos := bufPos + 4;
  }

  /** `buf2messageQuestion` */
  method DecodeQueries(b: seq<byte>, start: nat, count: nat) returns (qs: seq<Query>, bufPos: nat)
    requires ReadQueries(b, start, count).Some?
    ensures ReadQueries(b, start, count) == Some((qs, bufPos))
  {
    hide ReadQuery;
    qs, bufPos := [], start;
    ghost var all := ReadQueries(b, start, count).value;
    assert [] + all.0 == all.0;
    for entryNum := 0 to count
      invariant ReadQueries(b, bufPos, count - entryNum).Some?
      invariant all.0 == qs + ReadQueries(b, bufPos, count - entryNum).value.0
      invariant all.1 == ReadQueries(b, bufPos, count - entryNum).value.1
    {
      ghost var rest := ReadQueries(b, bufPos, count - entryNum).value.0;
      var q, next := DecodeQuery(b, bufPos);
      assert qs + rest == qs + [q] + ReadQueries(b, next, count - entryNum - 1).value.0;
      qs, bufPos := qs + [q], next;
    }
    assert qs + [] == qs;
  }

  /** `createRDataAddress` */
  method CreateRDataAddress(b: seq<byte>, bufPos0: nat, rData: array<byte>, rDataPos0: nat, length: nat)
    returns (bufPos: nat, rDataPos: nat)
    requires 0 < length && bufPos0 + length <= |b| && rDataPos0 + length <= rData.Length
    modifies rData
    ensures bufPos == bufPos0 + length - 1 && rDataPos == rDataPos0 + length + 1
    ensures rData[..rDataPos0 + length] == old(rData[..rDataPos0]) + b[bufPos0..bufPos0 + length]
  {
    bufPos, rDataPos := bufPos0, rDataPos0;
    var currentLength := 0;
    while currentLength < length
      invariant currentLength == 0 || currentLength == length
      invariant currentLength == 0 ==> bufPos == bufPos0 && rDataPos == rDataPos0 && rData[..] == old(rData[..])
      invariant currentLength == length ==> bufPos == bufPos0 + length && rDataPos == rDataPos0 + length + 1
      invariant currentLength == length ==>
        rData[..rDataPos0 + length] == old(rData[..rDataPos0]) + b[bufPos0..bufPos0 + length]
      decreases length - currentLength
    {
      for letterNum := 0 to length
        invariant bufPos == bufPos0 + letterNum && currentLength == letterNum
        invariant rData[..rDataPos0 + letterNum] == old(rData[..rDataPos0]) + b[bufPos0..bufPos]
      {
        rData[rDataPos + letterNum] := b[bufPos];
        assert rData[..rDataPos0 + letterNum + 1] == rData[..rDataPos0 + letterNum] + [b[bufPos]];
        bufPos := bufPos + 1;
        assert b[bufPos0..bufPos] == b[bufPos0..bufPos - 1] + [b[bufPos - 1]];
        currentLength := currentLength + 1;
      }
      rDataPos := rDataPos + length + 1;
    }
    bufPos := bufPos - 1;
  }

  /** `string2inet4address` */
  method InetAddress(value: seq<byte>) returns (address: u32)
    requires |value| >= 4
    ensures address == Long(value, 0)
  {
    var high: nat, low: nat := Short(value, 0), Short(value, 2);
    address := high * 0x1_0000 + low;
  }

  lemma LongOf(b: seq<byte>, i: nat, n: nat)
    requires 4 <= n && i + n <= |b|
    ensures Long(b[i..i + n], 0) == Long(b, i)
  {
    var v := b[i..i + n];
    assert v[0] == b[i] && v[1] == b[i + 1] && v[2] == b[i + 2] && v[3] == b[i + 3];
  }

  lemma NoneBefore(a: seq<byte>, b: seq<byte>)
    requires a == []
    ensures a + b == b
  {
  }

  /** `createRData` and the conversion of what it has collected. */
  method DecodeData(b: seq<byte>, bufPos0: nat, rtype: u16, length: u16) returns (d: Data, bufPos: nat)
    requires ReadData(b, bufPos0, rtype, length).Some?
    ensures ReadData(b, bufPos0, rtype, length) == Some((d, bufPos))
  {
    var rData := new byte[512](_ => 0);
    var rDataPos;
    if rtype == 1 {
      bufPos, rDataPos := CreateRDataAddress(b, bufPos0, rData, 0, length);
      var value := Terminate(rData, rDataPos);
      assert value == b[bufPos0..bufPos0 + length];
      LongOf(b, bufPos0, length);
      var address := InetAddress(value);
      d := A(address);
    } else if rtype == 5 {
      bufPos, rDataPos := CreateName(b, bufPos0, rData, 0, |b|);
      NoneBefore(rData[..0], NameAt(b, bufPos0, |b|).value.chars);
      var text := Terminate(rData, rDataPos);
      d := Cname(text);
    } else if rtype == 28 {
      bufPos, rDataPos := CreateRDataAddress(b, bufPos0, rData, 0, length);
      var value := Terminate(rData, rDataPos);
      assert value == b[bufPos0..bufPos0 + length];
      assert value[..16] == b[bufPos0..bufPos0 + 16];
      d := Aaaa(value[..16]);
    } else {
      d := Other(rtype);
      return d, bufPos0 + length;
    }
    bufPos := bufPos + 1;
  }

  /** One turn of the loop of `buf2messageRR`. */
  method DecodeRecord(b: seq<byte>, bufPos0: nat) returns (r: Record, bufPos: nat)
    requires ReadRecord(b, bufPos0).Some?
    ensures ReadRecord(b, bufPos0) == Some((r, bufPos))
  {
    var name := new byte[512](_ => 0);
    var namePos;
    bufPos, namePos := CreateName(b, bufPos0, name, 0, |b|);
    NoneBefore(name[..0], NameAt(b, bufPos0, |b|).value.chars);
    var text := Terminate(name, namePos);
    bufPos := bufPos + 1;
    var rtype := Short(b, bufPos);
    var rclass := Short(b, bufPos + 2);
    var ttl := Long(b, bufPos + 4);
    var length := Short(b, bufPos + 8);
    bufPos := bufPos + 10;
    var d;
    d, bufPos := DecodeData(b, bufPos, rtype, length);
    r := Record(text, rclass, ttl, length, d);
  }

  /** `buf2messageRR` */
  method DecodeRecords(b: seq<byte>, start: nat, count: nat) returns (rs: seq<Record>, bufPos: nat)
    requires ReadRecords(b, start, count).Some?
    ensures ReadRecords(b, start, count) == Some((rs, bufPos))
  {
    hide ReadRecord;
    rs, bufPos := [], start;
    ghost var all := ReadRecords(b, start, count).value;
    assert [] + all.0 == all.0;
    for entryNum := 0 to count
      invariant ReadRecords(b, bufPos, count - entryNum).Some?
      invariant all.0 == rs + ReadRecords(b, bufPos, count - entryNum).value.0
      invariant all.1 == ReadRecords(b, bufPos, count - entryNum).value.1
    {
      ghost var rest := ReadRecords(b, bufPos, count - entryNum).value.0;
      var r, next := DecodeRecord(b, bufPos);
      assert rs + rest == rs + [r] + ReadRecords(b, next, count - entryNum - 1).value.0;
      rs, bufPos := rs + [r], next;
    }
    assert rs + [] == rs;
  }

  /** `buf2message`, on octets it does not leave. */
  method BufToMessage(b: seq<byte>) returns (m: Message)
    requires Decode(b).Some?
    ensures Decode(b) == Some(m)
  {
    var flags := DecodeFlags(b[2], b[3]);
    var queryCount, answerCount := Short(b, 4), Short(b, 6);
    var queries, endPos: nat := [], 12;
    if endPos < |b| {
      queries, endPos := DecodeQueries(b, endPos, queryCount);
    }
    var answers := [];
    if answerCount > 0 {
      answers, endPos := DecodeRecords(b, endPos, answerCount);
    }
    m := Message(Short(b, 0), flags, queries, answers, Short(b, 8), Short(b, 10));
  }
}
