/**
  Domain names on the wire (RFC 1035, sections 3.1 and 4.1.4): `string_split` of
  `src/string_t.c`, and `name2message` and `createName` of `src/message.c`.
 */
module DnsNames {
  import opened Bytes

  /** `.` */
  const DOT: byte := 46

  // ----- splitting -----

  /** The parts of `s` between the separators. */
  function Split(s: seq<byte>, sep: byte): (r: seq<seq<byte>>)
    ensures |r| > 0
  {
    if s == [] then [[]]
    else
      var r := Split(s[1..], sep);
      if s[0] == sep then [[]] + r else [[s[0]] + r[0]] + r[1..]
  }

  /** The parts with a separator between any two of them. */
  function Join(parts: seq<seq<byte>>, sep: byte): seq<byte>
    requires |parts| > 0
  {
    if |parts| == 1 then parts[0] else parts[0] + [sep] + Join(parts[1..], sep)
  }

  lemma {:induction false} JoinSplit(s: seq<byte>, sep: byte)
    ensures Join(Split(s, sep), sep) == s
    ensures forall k :: 0 <= k < |Split(s, sep)| ==> sep !in Split(s, sep)[k]
  {
    if s != [] {
      var r := Split(s[1..], sep);
      JoinSplit(s[1..], sep);
      if s[0] == sep {
        assert ([[]] + r)[1..] == r;
        assert Join([[]] + r, sep) == [] + [sep] + Join(r, sep);
      } else {
        var q := [[s[0]] + r[0]] + r[1..];
        assert q[1..] == r[1..];
      }
    }
  }

  lemma {:induction false} SplitJoin(parts: seq<seq<byte>>, sep: byte)
    requires |parts| > 0 && forall k :: 0 <= k < |parts| ==> sep !in parts[k]
    ensures Split(Join(parts, sep), sep) == parts
    decreases |parts|, |parts[0]|
  {
    var p := parts[0];
    if p == [] {
      if |parts| > 1 {
        SplitJoin(parts[1..], sep);
        assert Join(parts, sep)[1..] == Join(parts[1..], sep);
        assert parts == [[]] + parts[1..];
      }
    } else {
      var q := [p[1..]] + parts[1..];
      assert q[1..] == parts[1..];
      SplitJoin(q, sep);
      assert Join(parts, sep) == [p[0]] + Join(q, sep);
      assert p == [p[0]] + p[1..] && parts == [p] + parts[1..];
    }
  }

  function Count(s: seq<byte>, sep: byte): nat {
    if s == [] then 0 else (if s[|s| - 1] == sep then 1 else 0) + Count(s[..|s| - 1], sep)
  }

  /** A character at the end starts a new part or lengthens the last one. */
  ghost function Snoc(r: seq<seq<byte>>, sep: byte, c: byte): seq<seq<byte>>
    requires |r| > 0
  {
    if c == sep then r + [[]] else r[|r| - 1 := r[|r| - 1] + [c]]
  }

  lemma {:induction false} SplitSnoc(s: seq<byte>, sep: byte, c: byte)
    ensures Split(s + [c], sep) == Snoc(Split(s, sep), sep, c)
  {
    if s == [] {
      assert [c][1..] == [] && [] + [c] == [c] && [c] + [] == [c];
    } else {
      SplitSnoc(s[1..], sep, c);
      assert (s + [c])[1..] == s[1..] + [c];
      SnocFront(Split(s[1..], sep), sep, c, s[0]);
    }
  }

  lemma SnocFront(r: seq<seq<byte>>, sep: byte, c: byte, b: byte)
    requires |r| > 0
    ensures var q := Snoc(r, sep, c);
      && [[]] + q == Snoc([[]] + r, sep, c)
      && [[b] + q[0]] + q[1..] == Snoc([[b] + r[0]] + r[1..], sep, c)
  {
    if |r| == 1 && c != sep {
      assert [b] + (r[0] + [c]) == [b] + r[0] + [c];
    }
  }

  lemma CutStep(s: seq<byte>, sep: byte, i: nat, last: nat, done: seq<seq<byte>>)
    requires last <= i < |s| && Split(s[..i], sep) == done + [s[last..i]]
    ensures s[i] == sep ==> Split(s[..i + 1], sep) == done + [s[last..i]] + [s[i + 1..i + 1]]
    ensures s[i] != sep ==> Split(s[..i + 1], sep) == done + [s[last..i + 1]]
  {
    assert s[..i + 1] == s[..i] + [s[i]];
    SplitSnoc(s[..i], sep, s[i]);
    hide Split;
    assert s[last..i + 1] == s[last..i] + [s[i]] && s[i + 1..i + 1] == [];
  }

  lemma CountStep(s: seq<byte>, sep: byte, i: nat)
    requires i < |s|
    ensures Count(s[..i + 1], sep) == Count(s[..i], sep) + (if s[i] == sep then 1 else 0) <= Count(s, sep)
  {
    assert s[..i + 1][..i] == s[..i];
    CountMore(s, sep, i + 1);
  }

  lemma CutStart(s: seq<byte>, sep: byte)
    ensures Count(s[..0], sep) == 0 && Split(s[..0], sep) == [] + [s[0..0]]
  {
  }

  /** `string_split`: the number of parts is counted before they are cut out. */
  method StringSplit(s: seq<byte>, sep: byte) returns (parts: array<seq<byte>>)
    ensures fresh(parts) && parts[..] == Split(s, sep)
  {
    hide Split, Count;
    CutStart(s, sep);
    var length := 1;
    for i := 0 to |s|
      invariant length == Count(s[..i], sep) + 1
    {
      CountStep(s, sep, i);
      if s[i] == sep {
        length := length + 1;
      }
    }
    assert s[..|s|] == s;
    parts := new seq<byte>[length];
    var lastPos, pos := 0, 0;
    for i := 0 to |s|
      invariant lastPos <= i && pos == Count(s[..i], sep) && pos < parts.Length
      invariant Split(s[..i], sep) == parts[..pos] + [s[lastPos..i]]
    {
      CountStep(s, sep, i);
      CutStep(s, sep, i, lastPos, parts[..pos]);
      if s[i] == sep {
        parts[pos] := s[lastPos..i];
        assert parts[..pos + 1] == parts[..pos] + [s[lastPos..i]];
        pos := pos + 1;
        lastPos := i + 1;
      }
    }
    parts[pos] := s[lastPos..];
    assert s[lastPos..|s|] == s[lastPos..];
    assert parts[..] == parts[..pos] + [s[lastPos..]];
  }

  lemma {:induction false} CountMore(s: seq<byte>, sep: byte, i: nat)
    requires i <= |s|
    ensures Count(s[..i], sep) <= Count(s, sep)
    decreases |s|
  {
    if i < |s| {
      CountMore(s[..|s| - 1], sep, i);
      assert s[..|s| - 1][..i] == s[..i];
    } else {
      assert s[..i] == s;
    }
  }

  // ----- encoding -----

  /** A label: not empty, without `.` and NUL, and short enough not to look like a pointer. */
  predicate IsLabel(l: seq<byte>) {
    0 < |l| < 0xC0 && DOT !in l && 0 !in l
  }

  predicate AreLabels(labels: seq<seq<byte>>) {
    forall k :: 0 <= k < |labels| ==> IsLabel(labels[k])
  }

  /** Names in their dotted form whose labels can be sent. */
  predicate IsName(name: seq<byte>) {
    AreLabels(Split(name, DOT))
  }

  /** Labels on the wire: each behind its length. */
  function Wire(labels: seq<seq<byte>>): seq<byte>
    requires AreLabels(labels)
  {
    if labels == [] then [] else [|labels[0]|] + labels[0] + Wire(labels[1..])
  }

  /** A name on the wire, with the zero octet at its end. */
  function NameWire(name: seq<byte>): seq<byte>
    requires IsName(name)
  {
    Wire(Split(name, DOT)) + [0]
  }

  function Dotted(labels: seq<seq<byte>>): seq<byte> {
    if labels == [] then [] else labels[0] + [DOT] + Dotted(labels[1..])
  }

  lemma {:induction false} DottedJoin(labels: seq<seq<byte>>)
    requires |labels| > 0
    ensures Dotted(labels) == Join(labels, DOT) + [DOT]
  {
    if |labels| > 1 {
      DottedJoin(labels[1..]);
      assert labels[0] + [DOT] + (Join(labels[1..], DOT) + [DOT]) == labels[0] + [DOT] + Join(labels[1..], DOT) + [DOT];
    } else {
      assert labels[1..] == [] && labels[0] + [DOT] + [] == labels[0] + [DOT];
    }
  }

  lemma {:induction false} WireLength(labels: seq<seq<byte>>)
    requires AreLabels(labels)
    ensures |Wire(labels)| == |Dotted(labels)|
  {
    if labels != [] { WireLength(labels[1..]); }
  }

  /** A name takes two octets more than its dotted form. */
  lemma NameWireLength(name: seq<byte>)
    requires IsName(name)
    ensures |NameWire(name)| == |name| + 2
  {
    WireLength(Split(name, DOT));
    DottedJoin(Split(name, DOT));
    JoinSplit(name, DOT);
  }

  lemma {:induction false} WireSnoc(labels: seq<seq<byte>>, l: seq<byte>)
    requires IsLabel(l) && AreLabels(labels)
    ensures AreLabels(labels + [l])
    ensures Wire(labels + [l]) == Wire(labels) + ([|l|] + l)
  {
    if labels == [] {
      assert [l][1..] == [] && [|l|] + l + [] == [|l|] + l;
    } else {
      WireSnoc(labels[1..], l);
      assert (labels + [l])[1..] == labels[1..] + [l];
      assert [|labels[0]|] + labels[0] + (Wire(labels[1..]) + ([|l|] + l)) ==
             [|labels[0]|] + labels[0] + Wire(labels[1..]) + ([|l|] + l);
    }
  }

  /** `sprintf(current, "%c%s", length, token)`: the length, the characters and a zero. */
  method PrintLabel(output: array<byte>, current: nat, token: seq<byte>) returns (next: nat)
    requires |token| < 256 && current + |token| + 1 < output.Length
    modifies output
    ensures next == current + |token| + 1
    ensures output[..next] == old(output[..current]) + ([|token|] + token) && output[next] == 0
  {
    output[current] := |token|;
    for i := 0 to |token|
      invariant output[..current] == old(output[..current]) && output[current] == |token|
      invariant output[current + 1..current + 1 + i] == token[..i]
    {
      output[current + 1 + i] := token[i];
      assert output[current + 1..current + 1 + i + 1] == output[current + 1..current + 1 + i] + [token[i]];
    }
    next := current + |token| + 1;
    output[next] := 0;
    assert output[..next] == output[..current] + [output[current]] + output[current + 1..next];
  }

  /** The labels before the `k`-th fit into the output with room to spare. */
  lemma WirePrefix(labels: seq<seq<byte>>, k: nat)
    requires k < |labels| && AreLabels(labels)
    ensures Wire(labels[..k + 1]) == Wire(labels[..k]) + ([|labels[k]|] + labels[k])
    ensures |Wire(labels[..k + 1])| <= |Wire(labels)|
  {
    assert labels[..k + 1] == labels[..k] + [labels[k]];
    WireSnoc(labels[..k], labels[k]);
    WireSplit(labels, k + 1);
  }

  lemma {:induction false} WireSplit(labels: seq<seq<byte>>, k: nat)
    requires k <= |labels| && AreLabels(labels)
    ensures |Wire(labels)| == |Wire(labels[..k])| + |Wire(labels[k..])|
    decreases |labels| - k
  {
    if k < |labels| {
      WireSplit(labels, k + 1);
      assert labels[..k + 1] == labels[..k] + [labels[k]];
      WireSnoc(labels[..k], labels[k]);
    } else {
      assert labels[..k] == labels;
    }
  }

  /** `name2message` */
  method NameToMessage(name: seq<byte>) returns (output: array<byte>)
    requires IsName(name)
    ensures fresh(output) && |NameWire(name)| <= output.Length && output[..|NameWire(name)|] == NameWire(name)
  {
    ghost var labels := Split(name, DOT);
    NameWireLength(name);
    output := new byte[|name| * 2 + 2](_ => 0);
    var token := StringSplit(name, DOT);
    var current: nat := 0;
    assert labels[..0] == [];
    for i := 0 to token.Length
      invariant current <= |name| + 1 && output[..current] == Wire(labels[..i]) && token[..] == labels
    {
      WirePrefix(labels, i);
      assert token[i] == labels[i];
      current := PrintLabel(output, current, token[i]);
    }
    assert labels[..token.Length] == labels;
    output[current] := 0;
    output[current + 1] := 0;
    assert output[..current + 1] == output[..current] + [output[current]];
  }

  // ----- decoding -----

  /** The dotted text of a name, a dot behind every label, and the position of its last octet. */
  datatype Text = Text(chars: seq<byte>, end: nat)

  /** Where the two octets at `i` point to, when they are a compression pointer. */
  function Offset(b: seq<byte>, i: nat): nat
    requires i + 1 < |b| && b[i] >= 0xC0
  {
    var high: nat, low: nat := b[i] % 64, b[i + 1];
    high * 256 + low
  }

  /**
    The name at position `i`, along at most `hops` pointers; `None` when the octets end before
    the name does or more pointers follow one another.
   */
  function NameAt(b: seq<byte>, i: nat, hops: nat): (r: Option<Text>)
    ensures r.Some? ==> i <= r.value.end < |b|
    decreases hops, |b| - i
  {
    if i >= |b| then None
    else if b[i] == 0 then Some(Text([], i))
    else if b[i] >= 0xC0 then
      if i + 1 >= |b| || hops == 0 then None
      else match NameAt(b, Offset(b, i), hops - 1)
        case None => None
        case Some(t) => Some(Text(t.chars, i + 1))
    else if i + 1 + b[i] > |b| then None
    else match NameAt(b, i + 1 + b[i], hops)
      case None => None
      case Some(t) => Some(Text(b[i + 1..i + 1 + b[i]] + [DOT] + t.chars, t.end))
  }

  lemma {:induction false} MoreHops(b: seq<byte>, i: nat, h: nat, h': nat)
    requires h <= h' && NameAt(b, i, h).Some?
    ensures NameAt(b, i, h') == NameAt(b, i, h)
    decreases h, |b| - i
  {
    if b[i] == 0 {
    } else if b[i] >= 0xC0 {
      MoreHops(b, Offset(b, i), h - 1, h' - 1);
    } else {
      MoreHops(b, i + 1 + b[i], h, h');
    }
  }

  /** The steps of the walk over a name. */
  lemma NameStep(b: seq<byte>, i: nat, hops: nat, done: seq<byte>)
    requires NameAt(b, i, hops).Some?
    ensures i < |b|
    ensures var t := NameAt(b, i, hops).value;
      && (b[i] == 0 ==> done + t.chars == done && t.end == i)
      && (b[i] >= 0xC0 ==> i + 1 < |b| && hops > 0 && t.end == i + 1 && NameAt(b, Offset(b, i), hops - 1).Some?
                           && t.chars == NameAt(b, Offset(b, i), hops - 1).value.chars)
      && (0 < b[i] < 0xC0 ==>
            var next := i + 1 + b[i];
            next <= |b| && NameAt(b, next, hops).Some? && t.end == NameAt(b, next, hops).value.end
            && |t.chars| > b[i]
            && done + t.chars == done + b[i + 1..next] + [DOT] + NameAt(b, next, hops).value.chars)
  {
    if 0 < b[i] < 0xC0 {
      var l, rest := b[i + 1..i + 1 + b[i]], NameAt(b, i + 1 + b[i], hops).value.chars;
      assert done + (l + [DOT] + rest) == done + l + [DOT] + rest;
    }
  }

  /** The copy of one label, and the dot behind it. */
  method CopyLabel(b: seq<byte>, bufPos0: nat, name: array<byte>, namePos: nat, letterLength: nat) returns (bufPos: nat)
    requires bufPos0 + letterLength <= |b| && namePos + letterLength < name.Length
    modifies name
    ensures bufPos == bufPos0 + letterLength
    ensures name[..namePos + letterLength + 1] == old(name[..namePos]) + b[bufPos0..bufPos] + [DOT]
  {
    bufPos := bufPos0;
    for letterNum := 0 to letterLength
      invariant bufPos == bufPos0 + letterNum
      invariant name[..namePos + letterNum] == old(name[..namePos]) + b[bufPos0..bufPos]
    {
      name[namePos + letterNum] := b[bufPos];
      assert name[..namePos + letterNum + 1] == name[..namePos + letterNum] + [b[bufPos]];
      bufPos := bufPos + 1;
      assert b[bufPos0..bufPos] == b[bufPos0..bufPos - 1] + [b[bufPos - 1]];
    }
    name[namePos + letterLength] := DOT;
    assert name[..namePos + letterLength + 1] == name[..namePos + letterLength] + [DOT];
  }

  /** The array `Name[512]` after the call holds what it held before, then the name. */
  method CreateName(b: seq<byte>, bufPos0: nat, name: array<byte>, namePos0: nat, ghost hops: nat)
    returns (bufPos: nat, namePos: nat)
    requires NameAt(b, bufPos0, hops).Some?
    requires namePos0 + |NameAt(b, bufPos0, hops).value.chars| <= name.Length
    modifies name
    ensures bufPos == NameAt(b, bufPos0, hops).value.end
    ensures namePos == namePos0 + |NameAt(b, bufPos0, hops).value.chars|
    ensures name[..namePos] == old(name[..namePos0]) + NameAt(b, bufPos0, hops).value.chars
    decreases hops
  {
    hide NameAt;
    ghost var all := NameAt(b, bufPos0, hops).value;
    ghost var done: seq<byte> := old(name[..namePos0]);
    bufPos, namePos := bufPos0, namePos0;
    NameStep(b, bufPos, hops, done);
    while b[bufPos] != 0
      invariant bufPos < |b| && NameAt(b, bufPos, hops).Some? && NameAt(b, bufPos, hops).value.end == all.end
      invariant old(name[..namePos0]) + all.chars == done + NameAt(b, bufPos, hops).value.chars
      invariant namePos == |done| <= name.Length && name[..namePos] == done
      decreases |b| - bufPos
    {
      NameStep(b, bufPos, hops, done);
      if b[bufPos] >= 0xC0 {
        var high: nat := b[bufPos] % 64;
        bufPos := bufPos + 1;
        var offset := high * 256 + b[bufPos];
        var _, n := CreateName(b, offset, name, namePos, hops - 1);
        namePos := n;
        return;
      }
      var letterLength := b[bufPos];
      bufPos := bufPos + 1;
      ghost var start := bufPos;
      bufPos := CopyLabel(b, bufPos, name, namePos, letterLength);
      done := done + b[start..bufPos] + [DOT];
      namePos := namePos + letterLength + 1;
      NameStep(b, bufPos, hops, done);
    }
    NameStep(b, bufPos, hops, done);
  }

  // ----- what decoding undoes -----

  lemma OneLabel(b: seq<byte>, i: nat, l: seq<byte>, hops: nat)
    requires IsLabel(l) && i + 1 + |l| <= |b| && b[i] == |l| && b[i + 1..i + 1 + |l|] == l
    ensures NameAt(b, i, hops) ==
      match NameAt(b, i + 1 + |l|, hops)
      case None => None
      case Some(t) => Some(Text(l + [DOT] + t.chars, t.end))
  {
  }

  /** `t` with the text of `labels` in front. */
  function Prefixed(labels: seq<seq<byte>>, t: Option<Text>): Option<Text> {
    match t case None => None case Some(u) => Some(Text(Dotted(labels) + u.chars, u.end))
  }

  lemma PrefixedStep(labels: seq<seq<byte>>, t: Option<Text>)
    requires labels != []
    ensures Prefixed(labels, t) ==
      match Prefixed(labels[1..], t) case None => None case Some(u) => Some(Text(labels[0] + [DOT] + u.chars, u.end))
  {
    if t.Some? {
      assert labels[0] + [DOT] + (Dotted(labels[1..]) + t.value.chars) ==
             labels[0] + [DOT] + Dotted(labels[1..]) + t.value.chars;
    }
  }

  /** Labels in the octets before a name are read in front of it. */
  lemma {:induction false} LabelsAt(pre: seq<byte>, labels: seq<seq<byte>>, post: seq<byte>, hops: nat)
    requires AreLabels(labels)
    ensures NameAt(pre + Wire(labels) + post, |pre|, hops) ==
            Prefixed(labels, NameAt(pre + Wire(labels) + post, |pre| + |Wire(labels)|, hops))
    decreases |labels|
  {
    hide NameAt, Dotted;
    var b, i := pre + Wire(labels) + post, |pre| + |Wire(labels)|;
    if labels == [] {
      NothingPrefixed(NameAt(b, i, hops));
    } else {
      var l, rest := labels[0], Wire(labels[1..]);
      var pre' := pre + ([|l|] + l);
      assert b == pre' + rest + post;
      assert b[|pre|] == |l| && b[|pre| + 1..|pre| + 1 + |l|] == l;
      hide Prefixed, Wire;
      LabelsAt(pre', labels[1..], post, hops);
      OneLabel(b, |pre|, l, hops);
      PrefixedStep(labels, NameAt(b, i, hops));
    }
  }

  lemma NothingPrefixed(t: Option<Text>)
    ensures Prefixed([], t) == t
  {
    if t.Some? { assert [] + t.value.chars == t.value.chars; }
  }

  /** A name that has been sent is read back with a dot at its end, wherever it stands. */
  lemma NameRoundTrip(pre: seq<byte>, name: seq<byte>, post: seq<byte>, hops: nat)
    requires IsName(name)
    ensures NameAt(pre + NameWire(name) + post, |pre|, hops) == Some(Text(name + [DOT], |pre| + |name| + 1))
  {
    var labels := Split(name, DOT);
    var b := pre + NameWire(name) + post;
    assert b == pre + Wire(labels) + ([0] + post);
    LabelsAt(pre, labels, [0] + post, hops);
    NameWireLength(name);
    DottedJoin(labels);
    JoinSplit(name, DOT);
    assert b[|pre| + |Wire(labels)|] == 0;
    assert Dotted(labels) + [] == Dotted(labels);
  }

  /** A compression pointer (section 4.1.4). */
  function Pointer(target: nat): seq<byte>
    requires target < 0x4000
  {
    [0xC0 + target / 256, target % 256]
  }

  lemma PointerAt(b: seq<byte>, i: nat, target: nat, hops: nat)
    requires target < 0x4000 && i + 2 <= |b| && b[i..i + 2] == Pointer(target) && NameAt(b, target, hops).Some?
    ensures NameAt(b, i, hops + 1) == Some(Text(NameAt(b, target, hops).value.chars, i + 1))
  {
    assert b[i] == b[i..i + 2][0] && b[i + 1] == b[i..i + 2][1];
    assert Offset(b, i) == target;
  }

  /**
    A compressed name: labels and a pointer to a name elsewhere read as the labels followed by
    that name, and the reader goes on behind the pointer.
   */
  lemma CompressedName(pre: seq<byte>, labels: seq<seq<byte>>, target: nat, post: seq<byte>, hops: nat)
    requires target < 0x4000 && AreLabels(labels)
    requires NameAt(pre + Wire(labels) + (Pointer(target) + post), target, hops).Some?
    ensures var b := pre + Wire(labels) + (Pointer(target) + post);
      NameAt(b, |pre|, hops + 1) ==
        Some(Text(Dotted(labels) + NameAt(b, target, hops).value.chars, |pre| + |Wire(labels)| + 1))
  {
    hide NameAt, Wire, Dotted;
    var w, p := Wire(labels), Pointer(target);
    var b, i := pre + w + (p + post), |pre| + |w|;
    assert b[i..i + 2] == p;
    PointerAt(b, i, target, hops);
    LabelsAt(pre, labels, p + post, hops + 1);
  }

  // ----- termination -----

  /** The octets from `i` on are labels up to a zero octet or a pointer, all within the message. */
  ghost predicate SegmentAt(b: seq<byte>, i: nat)
    decreases |b| - i
  {
    i < |b| && (b[i] == 0 || (b[i] >= 0xC0 && i + 1 < |b|) || (0 < b[i] < 0xC0 && SegmentAt(b, i + 1 + b[i])))
  }

  /** Where the segment at `i` ends: at its zero octet or at the first octet of its pointer. */
  ghost function SegmentEnd(b: seq<byte>, i: nat): (e: nat)
    requires SegmentAt(b, i)
    ensures i <= e < |b| && (b[e] == 0 || (b[e] >= 0xC0 && e + 1 < |b|))
    decreases |b| - i
  {
    if b[i] == 0 || b[i] >= 0xC0 then i else SegmentEnd(b, i + 1 + b[i])
  }

  /** Every pointer that can be reached leads to a segment that begins before the one it stands in. */
  ghost predicate PointsBack(b: seq<byte>, i: nat)
    decreases i
  {
    SegmentAt(b, i) &&
    var e := SegmentEnd(b, i);
    b[e] >= 0xC0 ==> Offset(b, e) < i && PointsBack(b, Offset(b, e))
  }

  /** The labels of the segment at `i`. */
  ghost function SegmentLabels(b: seq<byte>, i: nat): seq<seq<byte>>
    requires SegmentAt(b, i)
    decreases |b| - i
  {
    if b[i] == 0 || b[i] >= 0xC0 then []
    else assert SegmentAt(b, i + 1 + b[i]); [b[i + 1..i + 1 + b[i]]] + SegmentLabels(b, i + 1 + b[i])
  }

  /** The labels of the name at `i`: those of its segment, and of the name that its pointer leads to. */
  ghost function Expanded(b: seq<byte>, i: nat): seq<seq<byte>>
    requires PointsBack(b, i)
    decreases i
  {
    var e := SegmentEnd(b, i);
    SegmentLabels(b, i) + if b[e] >= 0xC0 then Expanded(b, Offset(b, e)) else []
  }

  /** The last octet of the name where it was first written. */
  ghost function NameEnd(b: seq<byte>, i: nat): nat
    requires SegmentAt(b, i)
  {
    var e := SegmentEnd(b, i);
    if b[e] == 0 then e else e + 1
  }

  lemma {:induction false} DottedAppend(a: seq<seq<byte>>, c: seq<seq<byte>>)
    ensures Dotted(a + c) == Dotted(a) + Dotted(c)
    decreases |a|
  {
    if a == [] {
      assert a + c == c;
    } else {
      DottedAppend(a[1..], c);
      assert (a + c)[1..] == a[1..] + c && (a + c)[0] == a[0];
    }
  }

  /** What the walk along the segment at `i` reads, when it reads `end` at the segment's end. */
  ghost predicate Walked(labels: seq<seq<byte>>, last: nat, r: Option<Text>, end: Option<Text>) {
    (r.Some? <==> end.Some?)
    && (r.Some? ==> r.value.end == end.value.end == last && r.value.chars == Dotted(labels) + end.value.chars)
  }

  /** The walk along a segment reads its labels and ends where it ends. */
  lemma {:induction false} WalkSegment(b: seq<byte>, i: nat, hops: nat)
    requires SegmentAt(b, i)
    ensures Walked(SegmentLabels(b, i), NameEnd(b, i), NameAt(b, i, hops), NameAt(b, SegmentEnd(b, i), hops))
    decreases |b| - i
  {
    hide Walked;
    if 0 < b[i] < 0xC0 {
      SegmentStep(b, i);
      WalkLabel(b, i, hops);
      WalkSegment(b, i + 1 + b[i], hops);
      WalkedMore(b[i + 1..i + 1 + b[i]], SegmentLabels(b, i + 1 + b[i]), NameEnd(b, i), NameAt(b, i + 1 + b[i], hops), NameAt(b, SegmentEnd(b, i), hops));
    } else {
      WalkedNone(NameEnd(b, i), NameAt(b, i, hops));
    }
  }

  lemma WalkedNone(last: nat, r: Option<Text>)
    requires r.Some? ==> r.value.end == last
    ensures Walked([], last, r, r)
  {
    if r.Some? { assert [] + r.value.chars == r.value.chars; }
  }

  lemma WalkedMore(l: seq<byte>, rest: seq<seq<byte>>, last: nat, r: Option<Text>, end: Option<Text>)
    requires Walked(rest, last, r, end)
    ensures Walked([l] + rest, last, if r.None? then None else Some(Text(l + [DOT] + r.value.chars, r.value.end)), end)
  {
    DottedOne(l, rest);
    hide Dotted;
    if r.Some? {
      assert l + [DOT] + (Dotted(rest) + end.value.chars) == (l + [DOT] + Dotted(rest)) + end.value.chars;
    }
  }

  lemma SegmentStep(b: seq<byte>, i: nat)
    requires SegmentAt(b, i) && 0 < b[i] < 0xC0
    ensures var next := i + 1 + b[i];
      && SegmentAt(b, next) && next < |b| && SegmentEnd(b, i) == SegmentEnd(b, next) && NameEnd(b, i) == NameEnd(b, next)
      && SegmentLabels(b, i) == [b[i + 1..next]] + SegmentLabels(b, next)
  {
  }

  lemma WalkLabel(b: seq<byte>, i: nat, hops: nat)
    requires i < |b| && 0 < b[i] < 0xC0 && i + 1 + b[i] < |b|
    ensures var r, next := NameAt(b, i + 1 + b[i], hops), i + 1 + b[i];
      NameAt(b, i, hops) == if r.None? then None else Some(Text(b[i + 1..next] + [DOT] + r.value.chars, r.value.end))
  {
  }

  lemma DottedOne(l: seq<byte>, rest: seq<seq<byte>>)
    ensures Dotted([l] + rest) == l + [DOT] + Dotted(rest)
  {
    assert ([l] + rest)[1..] == rest;
  }

  /**
    When every pointer leads backwards the name is found after at most `i` jumps: it is the labels
    of all segments, and the position returned is the last octet of the name where it was first written.
   */
  lemma {:induction false} BackwardTerminates(b: seq<byte>, i: nat)
    requires PointsBack(b, i)
    ensures NameAt(b, i, i) == Some(Text(Dotted(Expanded(b, i)), NameEnd(b, i)))
    decreases i
  {
    hide SegmentAt, SegmentLabels, Dotted;
    var e := SegmentEnd(b, i);
    WalkSegment(b, i, i);
    if b[e] >= 0xC0 {
      var o := Offset(b, e);
      BackwardTerminates(b, o);
      MoreHops(b, o, o, i - 1);
      DottedAppend(SegmentLabels(b, i), Expanded(b, o));
    } else {
      DottedAppend(SegmentLabels(b, i), []);
      NoDots();
    }
  }

  lemma NoDots()
    ensures Dotted([]) == []
  {
  }

  /** The number of jumps needed at position `i` is exactly `h`. */
  ghost predicate Needs(b: seq<byte>, i: nat, h: nat) {
    NameAt(b, i, h).Some? && (h > 0 ==> NameAt(b, i, h - 1).None?)
  }

  lemma {:induction false} SomeNeed(b: seq<byte>, i: nat, h: nat) returns (k: nat)
    requires NameAt(b, i, h).Some?
    ensures k <= h && Needs(b, i, k)
    decreases h
  {
    if h > 0 && NameAt(b, i, h - 1).Some? {
      k := SomeNeed(b, i, h - 1);
    } else {
      k := h;
    }
  }

  lemma OneNeed(b: seq<byte>, i: nat, h: nat, k: nat)
    requires Needs(b, i, h) && Needs(b, i, k)
    ensures h == k
  {
    if h < k {
      MoreHops(b, i, h, k - 1);
    } else if k < h {
      MoreHops(b, i, k, h - 1);
    }
  }

  /** A name that needs `h` jumps passes `h` different pointers. */
  lemma {:induction false} Pointers(b: seq<byte>, i: nat, h: nat) returns (s: set<nat>)
    requires Needs(b, i, h)
    ensures |s| == h && forall p :: p in s ==> p < |b| && exists j: nat :: j <= h && Needs(b, p, j)
    decreases h, |b| - i
  {
    if b[i] == 0 {
      s := {};
    } else if b[i] < 0xC0 {
      s := Pointers(b, i + 1 + b[i], h);
    } else {
      s := Pointers(b, Offset(b, i), h - 1);
      forall p | p in s ensures p != i {
        var j: nat :| j <= h - 1 && Needs(b, p, j);
        if p == i { OneNeed(b, i, h, j); }
      }
      s := s + {i};
    }
  }

  lemma {:induction false} Below(s: set<nat>, n: nat)
    requires forall p :: p in s ==> p < n
    ensures |s| <= n
  {
    if n > 0 {
      Below(s - {n - 1}, n - 1);
    } else {
      assert s == {};
    }
  }

  /** Pointers that can be followed to the end number at most as many as there are octets. */
  lemma EnoughHops(b: seq<byte>, i: nat, h: nat)
    requires NameAt(b, i, h).Some?
    ensures NameAt(b, i, |b|) == NameAt(b, i, h)
  {
    var k := SomeNeed(b, i, h);
    var s := Pointers(b, i, k);
    Below(s, |b|);
    MoreHops(b, i, k, |b|);
    MoreHops(b, i, k, h);
  }
}
