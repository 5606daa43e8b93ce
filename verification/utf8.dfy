/**
  The UTF-8 decoder of `libuv/src/idna.c` against the encoding of RFC 3629, section 3.
 */
module Utf8 {
  import opened Bytes

  /** `(unsigned) -1`, the decoder's error value. */
  const BAD := 0xFFFF_FFFF

  // ----- the encoding -----

  predicate IsScalar(v: int) {
    0 <= v < 0xD800 || 0xE000 <= v < 0x11_0000
  }

  /** RFC 3629, section 3: the octets of one character. */
  function Encode(v: int): (s: seq<byte>)
    requires IsScalar(v)
    ensures 1 <= |s| <= 4
  {
    if v < 0x80 then [v]
    else if v < 0x800 then [0xC0 + v / 64, 0x80 + v % 64]
    else if v < 0x1_0000 then [0xE0 + v / 4096, 0x80 + v / 64 % 64, 0x80 + v % 64]
    else [0xF0 + v / 0x4_0000, 0x80 + v / 4096 % 64, 0x80 + v / 64 % 64, 0x80 + v % 64]
  }

  function EncodeAll(vs: seq<nat>): seq<byte>
    requires forall v :: v in vs ==> IsScalar(v)
  {
    if vs == [] then [] else Encode(vs[0]) + EncodeAll(vs[1..])
  }

  // ----- the decoder -----

  /** `(0xC0 & (b ^ c ^ d)) == 0x80`: bit 7 of the exclusive or is set and bit 6 is not. */
  predicate TopBits(b: byte, c: byte, d: byte) {
    (b / 128 + c / 128 + d / 128) % 2 == 1 && (b / 64 + c / 64 + d / 64) % 2 == 0
  }

  /** The checks after the bytes have been fetched; `min` rules out overlong forms. */
  function Assemble(a: int, b: byte, c: byte, d: byte, min: int): nat
    requires 0 <= a < 8
  {
    var v := a * 0x4_0000 + b % 64 * 4096 + c % 64 * 64 + d % 64;
    if !TopBits(b, c, d) || v < min || v > 0x10_FFFF || 0xD800 <= v <= 0xDFFF then BAD else v
  }

  datatype Decoded = Decoded(value: nat, next: nat)

  /** What `uv__utf8_decode1` returns at position `i` of `s`, and where it leaves the cursor. */
  function DecodeAt(s: seq<byte>, i: nat): (r: Decoded)
    requires i < |s|
    ensures i < r.next <= |s|
    ensures r.value == BAD || IsScalar(r.value)
  {
    var a, left := s[i], |s| - i - 1;
    if a < 128 then Decoded(a, i + 1)
    else if a > 0xF7 then Decoded(BAD, i + 1)
    else if left >= 3 && a > 0xEF then Decoded(Assemble(a % 8, s[i + 1], s[i + 2], s[i + 3], 0x1_0000), i + 4)
    else if left >= 2 && a > 0xDF then Decoded(Assemble(0, 0x80 + a % 16, s[i + 1], s[i + 2], 0x800), i + 3)
    else if left >= 1 && a > 0xBF then Decoded(Assemble(0, 0x80, 0x80 + a % 32, s[i + 1], 0x80), i + 2)
    else Decoded(BAD, i + 1)
  }

  /** `uv__utf8_decode1_slow`, the part after an ASCII first byte has been ruled out. */
  method Decode1Slow(s: seq<byte>, p0: nat, a0: byte) returns (value: nat, p: nat)
    requires 0 < p0 <= |s| && s[p0 - 1] == a0 && a0 >= 128
    ensures Decoded(value, p) == DecodeAt(s, p0 - 1)
  {
    var a: int, b: byte, c: byte, d: byte, min := a0, 0, 0, 0, 0;
    p := p0;
    if a > 0xF7 {
      return BAD, p;
    }
    var left := |s| - p;
    if left >= 3 && a > 0xEF {
      min, a := 0x1_0000, a % 8;
      b, c, d := s[p], s[p + 1], s[p + 2];
      p := p + 3;
    } else if left >= 2 && a > 0xDF {
      min, b := 0x800, 0x80 + a % 16;
      c, d := s[p], s[p + 1];
      p, a := p + 2, 0;
    } else if left >= 1 && a > 0xBF {
      min, b, c := 0x80, 0x80, 0x80 + a % 32;
      d := s[p];
      p, a := p + 1, 0;
    } else {
      return BAD, p;
    }
    if !TopBits(b, c, d) {
      return BAD, p;
    }
    b, c, d := b % 64, c % 64, d % 64;
    a := a * 0x4_0000 + b * 4096 + c * 64 + d;
    if a < min {
      return BAD, p;
    }
    if a > 0x10_FFFF {
      return BAD, p;
    }
    if a >= 0xD800 && a <= 0xDFFF {
      return BAD, p;
    }
    return a, p;
  }

  /** `uv__utf8_decode1`: one character, advancing the cursor `p0`. */
  method Decode1(s: seq<byte>, p0: nat) returns (value: nat, p: nat)
    requires p0 < |s|
    ensures Decoded(value, p) == DecodeAt(s, p0)
  {
    var a := s[p0];
    p := p0 + 1;
    if a < 128 {
      return a, p;
    }
    value, p := Decode1Slow(s, p, a);
  }

  // ----- the decoder on well-formed text -----

  /** The characters of `s` from position `i` on; `None` when some sequence is refused. */
  function DecodeFrom(s: seq<byte>, i: nat): (r: Option<seq<nat>>)
    requires i <= |s|
    ensures r.Some? ==> forall v :: v in r.value ==> IsScalar(v)
    ensures r.Some? ==> |r.value| <= |s| - i
    decreases |s| - i
  {
    if i == |s| then Some([])
    else
      var d := DecodeAt(s, i);
      if d.value == BAD then None
      else match DecodeFrom(s, d.next) case None => None case Some(vs) => Some([d.value] + vs)
  }

  /** The octets of an encoding: the lead announces the length, the others have the form 10xxxxxx. */
  lemma EncodeShape(v: int)
    requires IsScalar(v)
    ensures Announced(Encode(v)[0]) == |Encode(v)|
    ensures forall k :: 0 < k < |Encode(v)| ==> Encode(v)[k] / 64 == 2
  {
  }

  /** A value is put together from its base-64 digits. */
  lemma Split(v: int)
    requires 0 <= v < 0x11_0000
    ensures v == v / 0x4_0000 * 0x4_0000 + v / 4096 % 64 * 4096 + v / 64 % 64 * 64 + v % 64
    ensures v < 0x1_0000 ==> v / 4096 % 64 == v / 4096 < 16 && v / 0x4_0000 == 0
    ensures v / 0x4_0000 < 8
  {
    var q := v / 64;
    assert v / 4096 == q / 64 && v / 0x4_0000 == q / 64 / 64;
    assert q == q / 64 * 64 + q % 64 && q / 64 == q / 64 / 64 * 64 + q / 64 % 64;
  }

  /** Continuation bytes pass the test of the top bits. */
  lemma TopBitsPass(b: byte, c: byte, d: byte)
    requires b / 64 == 2 && c / 64 == 2 && d / 64 == 2
    ensures TopBits(b, c, d)
  {
    assert b / 128 == 1 && c / 128 == 1 && d / 128 == 1;
  }

  lemma Assemble2(v: int)
    requires 0x80 <= v < 0x800
    ensures var e := Encode(v); Assemble(0, 0x80, 0x80 + e[0] % 32, e[1], 0x80) == v
  {
    var e := Encode(v);
    TopBitsPass(0x80, 0x80 + e[0] % 32, e[1]);
  }

  lemma Assemble3(v: int)
    requires IsScalar(v) && 0x800 <= v < 0x1_0000
    ensures var e := Encode(v); Assemble(0, 0x80 + e[0] % 16, e[1], e[2], 0x800) == v
  {
    var e := Encode(v);
    Split(v);
    TopBitsPass(0x80 + e[0] % 16, e[1], e[2]);
    hide TopBits;
    assert (0x80 + e[0] % 16) % 64 == v / 4096 && e[1] % 64 == v / 64 % 64 && e[2] % 64 == v % 64;
    hide Encode;
  }

  lemma Assemble4(v: int)
    requires IsScalar(v) && 0x1_0000 <= v
    ensures var e := Encode(v); Assemble(e[0] % 8, e[1], e[2], e[3], 0x1_0000) == v
  {
    var e := Encode(v);
    Split(v);
    assert e[0] % 8 == v / 0x4_0000;
    assert e[1] % 64 == v / 4096 % 64 && e[2] % 64 == v / 64 % 64 && e[3] % 64 == v % 64;
    TopBitsPass(e[1], e[2], e[3]);
  }

  /** A well-formed character is decoded to itself, wherever it stands. */
  lemma DecodeEncode(pre: seq<byte>, v: int, post: seq<byte>)
    requires IsScalar(v)
    ensures DecodeAt(pre + Encode(v) + post, |pre|) == Decoded(v, |pre| + |Encode(v)|)
  {
    var s, e := pre + Encode(v) + post, Encode(v);
    EncodeShape(v);
    Size(v);
    assert forall k :: 0 <= k < |e| ==> s[|pre| + k] == e[k];
    hide Encode, DecodeAt;
    if |e| == 1 { DecodeOne(s, |pre|, v); }
    if |e| == 2 { DecodeTwo(s, |pre|, v); }
    if |e| == 3 { DecodeThree(s, |pre|, v); }
    if |e| == 4 { DecodeFour(s, |pre|, v); }
  }

  /** The encoding of `v` has `n` octets and is at position `i`. */
  predicate EncodedAt(s: seq<byte>, i: nat, v: int, n: nat) {
    IsScalar(v) && |Encode(v)| == n && i + n <= |s| && forall k :: 0 <= k < n ==> s[i + k] == Encode(v)[k]
  }

  lemma DecodeOne(s: seq<byte>, i: nat, v: int)
    requires EncodedAt(s, i, v, 1)
    ensures DecodeAt(s, i) == Decoded(v, i + 1)
  {
    Size(v);
    hide Encode, Assemble;
    assert s[i] == s[i + 0];
  }

  lemma DecodeTwo(s: seq<byte>, i: nat, v: int)
    requires EncodedAt(s, i, v, 2)
    ensures DecodeAt(s, i) == Decoded(v, i + 2)
  {
    Size(v);
    Assemble2(v);
    hide Encode, Assemble;
    assert s[i] == s[i + 0];
  }

  lemma DecodeThree(s: seq<byte>, i: nat, v: int)
    requires EncodedAt(s, i, v, 3)
    ensures DecodeAt(s, i) == Decoded(v, i + 3)
  {
    Size(v);
    Assemble3(v);
    hide Encode, Assemble;
    assert s[i] == s[i + 0];
  }

  lemma DecodeFour(s: seq<byte>, i: nat, v: int)
    requires EncodedAt(s, i, v, 4)
    ensures DecodeAt(s, i) == Decoded(v, i + 4)
  {
    Size(v);
    Assemble4(v);
    hide Encode, Assemble;
    assert s[i] == s[i + 0];
  }

  lemma Size(v: int)
    requires IsScalar(v)
    ensures |Encode(v)| == if v < 0x80 then 1 else if v < 0x800 then 2 else if v < 0x1_0000 then 3 else 4
    ensures v < 0x80 ==> Encode(v)[0] == v
    ensures var a := Encode(v)[0]; |Encode(v)| == 2 ==> 0xC0 <= a < 0xE0
    ensures var a := Encode(v)[0]; |Encode(v)| == 3 ==> 0xE0 <= a < 0xF0
    ensures var a := Encode(v)[0]; |Encode(v)| == 4 ==> 0xF0 <= a <= 0xF7
  {
  }

  /** Every well-formed text is accepted and decoded to its characters. */
  lemma {:induction false} DecodeEncodeAll(pre: seq<byte>, vs: seq<nat>)
    requires forall v :: v in vs ==> IsScalar(v)
    ensures DecodeFrom(pre + EncodeAll(vs), |pre|) == Some(vs)
    decreases |vs|
  {
    hide DecodeAt, Encode;
    if vs != [] {
      var e, rest := Encode(vs[0]), EncodeAll(vs[1..]);
      Size(vs[0]);
      assert pre + EncodeAll(vs) == pre + e + rest == (pre + e) + rest;
      DecodeEncode(pre, vs[0], rest);
      DecodeEncodeAll(pre + e, vs[1..]);
      assert (pre + e) + EncodeAll(vs[1..]) == pre + EncodeAll(vs);
      assert [vs[0]] + vs[1..] == vs;
    } else {
      assert pre + EncodeAll(vs) == pre;
    }
  }

  // ----- ill-formed text -----

  /** The number of octets the first octet of a sequence announces (RFC 3629, section 3). */
  function Announced(a: byte): nat {
    if a < 0x80 then 1 else if a < 0xE0 then 2 else if a < 0xF0 then 3 else 4
  }

  lemma WellFormed2(a: byte, d: byte)
    requires Announced(a) == 2 && a > 0xBF && d / 64 == 2
    requires Assemble(0, 0x80, 0x80 + a % 32, d, 0x80) != BAD
    ensures Encode(Assemble(0, 0x80, 0x80 + a % 32, d, 0x80)) == [a, d]
  {
  }

  /** The base-64 digits of a value put together from its digits. */
  lemma Joined(w: int, x: int, y: int, z: int)
    requires 0 <= w < 8 && 0 <= x < 64 && 0 <= y < 64 && 0 <= z < 64
    ensures var v := w * 0x4_0000 + x * 4096 + y * 64 + z;
      v / 0x4_0000 == w && v / 4096 == w * 64 + x && v / 4096 % 64 == x && v / 64 % 64 == y && v % 64 == z
  {
    var v := w * 0x4_0000 + x * 4096 + y * 64 + z;
    assert v / 64 == w * 4096 + x * 64 + y;
    assert v / 4096 == w * 64 + x;
  }

  lemma EncodeJoined(w: int, x: int, y: int, z: int)
    requires 0 <= w < 8 && 0 <= x < 64 && 0 <= y < 64 && 0 <= z < 64
    ensures var v := w * 0x4_0000 + x * 4096 + y * 64 + z; IsScalar(v) ==>
      && (0x800 <= v < 0x1_0000 && w == 0 ==> Encode(v) == [0xE0 + x, 0x80 + y, 0x80 + z])
      && (0x1_0000 <= v ==> Encode(v) == [0xF0 + w, 0x80 + x, 0x80 + y, 0x80 + z])
  {
    Joined(w, x, y, z);
  }

  lemma WellFormed3(a: byte, c: byte, d: byte)
    requires Announced(a) == 3 && c / 64 == 2 && d / 64 == 2
    requires Assemble(0, 0x80 + a % 16, c, d, 0x800) != BAD
    ensures Encode(Assemble(0, 0x80 + a % 16, c, d, 0x800)) == [a, c, d]
  {
    hide Encode;
    var x, y, z := a - 0xE0, c - 0x80, d - 0x80;
    assert a % 16 == x && (0x80 + a % 16) % 64 == x && c % 64 == y && d % 64 == z;
    EncodeJoined(0, x, y, z);
  }

  lemma WellFormed4(a: byte, b: byte, c: byte, d: byte)
    requires 0xF0 <= a <= 0xF7 && b / 64 == 2 && c / 64 == 2 && d / 64 == 2
    requires Assemble(a % 8, b, c, d, 0x1_0000) != BAD
    ensures Encode(Assemble(a % 8, b, c, d, 0x1_0000)) == [a, b, c, d]
  {
    hide Encode;
    var w, x, y, z := a - 0xF0, b - 0x80, c - 0x80, d - 0x80;
    assert a % 8 == w && b % 64 == x && c % 64 == y && d % 64 == z;
    EncodeJoined(w, x, y, z);
  }

  /** The octets that the lead octet at `i` announces are there, and have the form 10xxxxxx. */
  predicate Framed(s: seq<byte>, i: nat)
    requires i < |s|
  {
    var n := Announced(s[i]);
    n <= |s| - i && forall k :: i < k < i + n ==> s[k] / 64 == 2
  }

  lemma AnnouncedTaken(s: seq<byte>, i: nat)
    requires i < |s| && DecodeAt(s, i).value != BAD
    ensures DecodeAt(s, i).next - i <= Announced(s[i])
    ensures Announced(s[i]) <= |s| - i ==> DecodeAt(s, i).next - i == Announced(s[i])
  {
    hide Assemble;
  }

  /**
    What is accepted is the encoding of its value exactly when the octets that its lead octet announces
    are left and are continuation octets.  The decoder does not check this: it tests an exclusive
    or of the three top bit pairs.
   */
  lemma AcceptedWellFormed(s: seq<byte>, i: nat)
    requires i < |s| && DecodeAt(s, i).value != BAD
    ensures var r := DecodeAt(s, i); s[i..r.next] == Encode(r.value) <==> Framed(s, i)
  {
    hide DecodeAt, Encode;
    var r := DecodeAt(s, i);
    AnnouncedTaken(s, i);
    AcceptedIs(s, i);
    if Framed(s, i) { WellFormed(s, i); }
    if s[i..r.next] == Encode(r.value) {
      var n, w := Announced(s[i]), s[i..r.next];
      EncodeShape(r.value);
      assert forall k :: i < k < r.next ==> s[k] == w[k - i];
    }
  }

  lemma AcceptedIs(s: seq<byte>, i: nat)
    requires i < |s| && DecodeAt(s, i).value != BAD
    ensures i < DecodeAt(s, i).next <= |s| && IsScalar(DecodeAt(s, i).value)
  {
  }

  lemma WellFormed(s: seq<byte>, i: nat)
    requires i < |s| && DecodeAt(s, i).value != BAD
    requires var r := DecodeAt(s, i);
      Announced(s[i]) == r.next - i && forall k :: i < k < r.next ==> s[k] / 64 == 2
    ensures var r := DecodeAt(s, i); s[i..r.next] == Encode(r.value)
  {
    var r := DecodeAt(s, i);
    hide Encode, Assemble, EncodeAll;
    if r.next == i + 1 {
      Size(r.value);
      assert s[i..i + 1] == [s[i]];
    } else if r.next == i + 2 {
      WellFormed2(s[i], s[i + 1]);
      assert s[i..i + 2] == [s[i], s[i + 1]];
    } else if r.next == i + 3 {
      WellFormed3(s[i], s[i + 1], s[i + 2]);
      assert s[i..i + 3] == [s[i], s[i + 1], s[i + 2]];
    } else {
      WellFormed4(s[i], s[i + 1], s[i + 2], s[i + 3]);
      assert s[i..i + 4] == [s[i], s[i + 1], s[i + 2], s[i + 3]];
    }
  }

  /** Three octets that no RFC 3629 encoder writes and that are accepted as U+1041. */
  lemma IllFormedAccepted()
    ensures DecodeAt([0xE1, 0x41, 0x41], 0) == Decoded(0x1041, 3)
    ensures Encode(0x1041) != [0xE1, 0x41, 0x41]
  {
  }
}
