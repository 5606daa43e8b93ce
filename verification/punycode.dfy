/**
  Punycode: the decoder of RFC 3492, section 6.2, the encoding that
  `uv__idna_toascii_label` (libuv/src/idna.c) computes, and the proof that the first undoes
  the second.
 */
module Punycode {
  import opened Bytes

  /** One more than the largest `unsigned`. */
  const U32 := 0x1_0000_0000

  // ----- arithmetic -----

  lemma DivMod(x: nat, y: nat)
    requires y > 0
    ensures x == y * (x / y) + x % y && 0 <= x % y < y
  {
  }

  lemma MulAtLeast(y: nat, k: int)
    ensures k >= 1 ==> y * k >= y
    ensures k <= -1 ==> y * k <= -(y as int)
  {
    if k >= 1 {
      MulNat(y, k - 1);
      assert y * k == y + y * (k - 1);
    } else if k <= -1 {
      MulNat(y, -k - 1);
      assert y * k == -(y as int) - y * (-k - 1);
    }
  }

  /** The quotient and the remainder are determined by their defining equation. */
  lemma DivUnique(q: nat, r: nat, y: nat)
    requires r < y
    ensures y * q + r >= 0 && (y * q + r) / y == q && (y * q + r) % y == r
  {
    MulNat(y, q);
    var x := y * q + r;
    DivMod(x, y);
    assert y * (x / y - q) == y * (x / y) - y * q;
    MulAtLeast(y, x / y - q);
  }

  lemma DivShrinks(x: nat, y: nat)
    requires y > 0
    ensures 0 <= x / y <= x
  {
    DivMod(x, y);
    MulAtLeast(y, x / y);
    if x / y >= 0 {
      MulAtLeast(x / y, y);
    }
  }

  lemma MulNat(x: nat, y: nat)
    ensures 0 <= x * y
  {
  }

  lemma MulBound(a: nat, b: nat, y: nat)
    requires y > 0 && a <= b / y
    ensures a * y <= b
  {
    DivMod(b, y);
    assert y * (b / y - a) >= 0 by { MulNat(y, b / y - a); }
    assert y * (b / y - a) == y * (b / y) - a * y;
  }

  // ----- RFC 3492, sections 5, 6.1 and 6.2 -----

  /** The threshold of the digit at position `k`, with tmin = 1 and tmax = 26. */
  function Threshold(k: nat, bias: nat): (t: nat)
    ensures 1 <= t <= 26
  {
    if k <= bias then 1 else if k >= bias + 26 then 26 else k - bias
  }

  /** The loop and the last line of the bias adaptation. */
  function Shrink(delta: nat, k: nat): nat {
    if delta > 455 then Shrink(delta / 35, k + 36) else k + 36 * delta / (delta + 38)
  }

  /** Section 6.1, with damp = 700, skew = 38 and base = 36. */
  function Adapt(delta: nat, points: nat, first: bool): nat
    requires points > 0
  {
    var d := if first then delta / 700 else delta / 2;
    DivShrinks(d, points);
    Shrink(d + d / points, 0)
  }

  /** The value of a basic code point used as a digit. */
  function DigitValue(b: byte): Option<nat> {
    if 97 <= b < 123 then Some(b - 97)
    else if 65 <= b < 91 then Some(b - 65)
    else if 48 <= b < 58 then Some(b - 22)
    else None
  }

  /**
    A generalized variable-length integer (section 3.3) at the head of `s`: its value and what
    follows it.  The digit at position `k` weighs 36 minus the threshold times its predecessor.
   */
  function DecodeInt(s: seq<byte>, k: nat, bias: nat): (r: Option<(nat, seq<byte>)>)
    ensures r.Some? ==> |r.value.1| < |s|
  {
    if s == [] then None
    else match DigitValue(s[0])
      case None => None
      case Some(d) =>
        var t := Threshold(k, bias);
        if d < t then Some((d, s[1..]))
        else match DecodeInt(s[1..], k + 36, bias)
          case None => None
          case Some((v, rest)) => MulNat(36 - t, v); Some((d + (36 - t) * v, rest))
  }

  /** The state of the decoder between two integers. */
  datatype Decoder = Decoder(n: nat, i: nat, bias: nat, output: seq<int>)

  /** One turn of the main loop of section 6.2: a code point is inserted. */
  function Insertion(d: Decoder, delta: nat): Decoder {
    var points := |d.output| + 1;
    var i := d.i + delta;
    var n, at := d.n + i / points, i % points;
    Decoder(n, at + 1, Adapt(delta, points, d.i == 0), d.output[..at] + [n] + d.output[at..])
  }

  function Run(s: seq<byte>, d: Decoder): Option<Decoder>
    decreases |s|
  {
    if s == [] then Some(d)
    else match DecodeInt(s, 36, d.bias)
      case None => None
      case Some((delta, rest)) => Run(rest, Insertion(d, delta))
  }

  /** The number of code points before the last delimiter, 0 when there is none. */
  function LastDelimiter(s: seq<byte>): (b: nat)
    ensures b < |s| || b == 0
  {
    if s == [] then 0
    else if s[|s| - 1] == 45 then |s| - 1
    else LastDelimiter(s[..|s| - 1])
  }

  /** The decoder of section 6.2. */
  function Decode(text: seq<byte>): Option<seq<int>> {
    var b := LastDelimiter(text);
    if exists k :: 0 <= k < b && text[k] >= 128 then None
    else
      var digits := if b > 0 then text[b + 1..] else text;
      match Run(digits, Decoder(128, 0, 72, text[..b]))
      case None => None
      case Some(d) => Some(d.output)
  }

  // ----- what the encoder computes -----

  /** `alphabet[d]`. */
  function Digit(d: nat): byte
    requires d < 36
  {
    if d < 26 then 97 + d else 22 + d
  }

  /** The digits the innermost loop writes for `q` from position `k` on. */
  function VarInt(q: nat, k: nat, bias: nat): seq<byte>
    decreases q
  {
    var t := Threshold(k, bias);
    if q < t then [Digit(q)]
    else
      DivMod(q - t, 36 - t);
      DivShrinks(q - t, 36 - t);
      [Digit(t + (q - t) % (36 - t))] + VarInt((q - t) / (36 - t), k + 36, bias)
  }

  lemma VarIntMore(q: nat, k: nat, bias: nat, t: nat, more: nat, digit: nat)
    requires t == Threshold(k, bias) <= q && more == (q - t) / (36 - t) && digit == (q - t) % (36 - t)
    ensures t + digit < 36 && VarInt(q, k, bias) == [Digit(t + digit)] + VarInt(more, k + 36, bias)
  {
    DivMod(q - t, 36 - t);
  }

  /** The encoder's variables between two characters, and the digits written so far. */
  datatype Encoder =
    | Enc(out: seq<byte>, n: nat, delta: nat, bias: nat, h: nat, first: bool)
    | Overflow

  /** One turn of the loop over the characters: `c` is skipped, counted or written. */
  function CharStep(st: Encoder, c: nat): Encoder
    requires st.Enc?
  {
    if c < st.n then
      if st.delta + 1 == U32 then Overflow else st.(delta := st.delta + 1)
    else if c == st.n then
      Enc(st.out + VarInt(st.delta, 36, st.bias), st.n, 0, Adapt(st.delta, st.h + 1, st.first), st.h + 1, false)
    else st
  }

  /** The loop over the characters from position `p` on. */
  function Sweep(cps: seq<nat>, p: nat, st: Encoder): Encoder
    requires p <= |cps|
    decreases |cps| - p
  {
    if st.Overflow? || p == |cps| then st else Sweep(cps, p + 1, CharStep(st, cps[p]))
  }

  /** Whether a character of at least `n` remains to be written. */
  predicate Pending(cps: seq<nat>, n: nat) {
    exists k :: 0 <= k < |cps| && cps[k] >= n
  }

  predicate IsMinFrom(cps: seq<nat>, n: nat, m: nat) {
    m >= n && m in cps && forall k :: 0 <= k < |cps| && cps[k] >= n ==> m <= cps[k]
  }

  /** The least character of at least `n`. */
  function MinFrom(cps: seq<nat>, n: nat): (m: nat)
    requires Pending(cps, n)
    ensures IsMinFrom(cps, n, m)
  {
    var last, rest := cps[|cps| - 1], cps[..|cps| - 1];
    if !Pending(rest, n) then
      assert forall k :: 0 <= k < |rest| ==> rest[k] == cps[k];
      last
    else
      var m := MinFrom(rest, n);
      if n <= last < m then last else m
  }

  /** The state at the start of the loop over the characters, once `m` has been found. */
  function Advance(st: Encoder, m: nat): Encoder
    requires st.Enc? && m >= st.n
  {
    if m - st.n > (U32 - 1 - st.delta) / (st.h + 1) then Overflow
    else MulNat(m - st.n, st.h + 1); st.(n := m, delta := st.delta + (m - st.n) * (st.h + 1))
  }

  /** The outer loop. */
  function Rounds(cps: seq<nat>, st: Encoder): Encoder
    decreases if st.Enc? then Largest(cps) + 1 - st.n else -1
  {
    if st.Overflow? || !Pending(cps, st.n) then st
    else
      var m := MinFrom(cps, st.n);
      InLargest(cps, m);
      SweepKeepsN(cps, 0, Advance(st, m));
      match Sweep(cps, 0, Advance(st, m))
      case Overflow => Overflow
      case Enc(out, n, delta, bias, h, first) =>
        Rounds(cps, Enc(out, n + 1, delta + 1, bias, h, first))
  }

  /** One turn of the outer loop. */
  lemma RoundsStep(cps: seq<nat>, st: Encoder)
    requires st.Enc? && Pending(cps, st.n)
    ensures MinFrom(cps, st.n) >= st.n && MinFrom(cps, st.n) in cps
    ensures Rounds(cps, st) ==
      match Sweep(cps, 0, Advance(st, MinFrom(cps, st.n)))
      case Overflow => Overflow
      case Enc(out, n, delta, bias, h, first) => Rounds(cps, Enc(out, n + 1, delta + 1, bias, h, first))
  {
  }

  ghost function Largest(cps: seq<nat>): nat {
    if cps == [] then 0 else
      var m := Largest(cps[1..]);
      if cps[0] > m then cps[0] else m
  }

  lemma {:induction false} InLargest(cps: seq<nat>, c: nat)
    requires c in cps
    ensures c <= Largest(cps)
  {
    if c != cps[0] { InLargest(cps[1..], c); }
  }

  lemma {:induction false} SweepKeepsN(cps: seq<nat>, p: nat, st: Encoder)
    requires p <= |cps|
    ensures var r := Sweep(cps, p, st); r.Enc? ==> st.Enc? && r.n == st.n
    decreases |cps| - p
  {
    if st.Enc? && p < |cps| { SweepKeepsN(cps, p + 1, CharStep(st, cps[p])); }
  }

  // ----- decoding the integers -----

  lemma DigitRoundTrip(d: nat)
    requires d < 36
    ensures DigitValue(Digit(d)) == Some(d) && Digit(d) != 45
  {
  }

  lemma DecodeIntCons(d: nat, tail: seq<byte>, k: nat, bias: nat)
    requires d < 36
    ensures var s, t := [Digit(d)] + tail, Threshold(k, bias);
      && (d < t ==> DecodeInt(s, k, bias) == Some((d, tail)))
      && (d >= t && DecodeInt(tail, k + 36, bias).Some? ==>
            var (v, rest) := DecodeInt(tail, k + 36, bias).value;
            (36 - t) * v + d >= 0 && DecodeInt(s, k, bias) == Some((d + (36 - t) * v, rest)))
  {
    DigitRoundTrip(d);
    var s := [Digit(d)] + tail;
    assert s[0] == Digit(d) && s[1..] == tail;
    if DecodeInt(tail, k + 36, bias).Some? {
      MulNat(36 - Threshold(k, bias), DecodeInt(tail, k + 36, bias).value.0);
    }
  }

  /** The decoder reads back the integer and stops right behind it. */
  lemma {:induction false} VarIntRoundTrip(q: nat, k: nat, bias: nat, rest: seq<byte>)
    ensures DecodeInt(VarInt(q, k, bias) + rest, k, bias) == Some((q, rest))
    decreases q
  {
    hide DecodeInt, Digit, DigitValue, Threshold;
    var t := Threshold(k, bias);
    if q < t {
      DecodeIntCons(q, rest, k, bias);
    } else {
      var x, y := q - t, 36 - t;
      DivMod(x, y);
      DivShrinks(x, y);
      var v := VarInt(x / y, k + 36, bias);
      VarIntRoundTrip(x / y, k + 36, bias, rest);
      DecodeIntCons(t + x % y, v + rest, k, bias);
      assert [Digit(t + x % y)] + v + rest == [Digit(t + x % y)] + (v + rest);
    }
  }

  lemma {:induction false} VarIntNoDelimiter(q: nat, k: nat, bias: nat)
    ensures 45 !in VarInt(q, k, bias) && |VarInt(q, k, bias)| > 0
    decreases q
  {
    var t := Threshold(k, bias);
    if q < t {
      DigitRoundTrip(q);
    } else {
      DivMod(q - t, 36 - t);
      DivShrinks(q - t, 36 - t);
      DigitRoundTrip(t + (q - t) % (36 - t));
      VarIntNoDelimiter((q - t) / (36 - t), k + 36, bias);
    }
  }

  /** An integer at the head of a text is there whatever follows the text. */
  lemma {:induction false} DecodeIntAppend(a: seq<byte>, b: seq<byte>, k: nat, bias: nat)
    requires DecodeInt(a, k, bias).Some?
    ensures DecodeInt(a + b, k, bias) == Some((DecodeInt(a, k, bias).value.0, DecodeInt(a, k, bias).value.1 + b))
    decreases |a|
  {
    var t, d := Threshold(k, bias), DigitValue(a[0]);
    assert (a + b)[1..] == a[1..] + b;
    if d.value >= t {
      DecodeIntAppend(a[1..], b, k + 36, bias);
    }
  }

  /** Decoding a text in two parts. */
  lemma {:induction false} RunAppend(a: seq<byte>, b: seq<byte>, d: Decoder)
    requires Run(a, d).Some?
    ensures Run(a + b, d) == Run(b, Run(a, d).value)
    decreases |a|
  {
    if a == [] {
      assert a + b == b;
    } else {
      DecodeIntAppend(a, b, 36, d.bias);
      var (delta, rest) := DecodeInt(a, 36, d.bias).value;
      RunAppend(rest, b, Insertion(d, delta));
    }
  }

  // ----- what has been written after the characters below n, and those equal to n up to p -----

  /** The characters among the first `k` that are below `n`, or equal to `n` and before position `p`. */
  ghost function Kept(cps: seq<nat>, n: nat, p: nat, k: nat): (r: seq<int>)
    requires k <= |cps|
    ensures |r| <= k
  {
    if k == 0 then []
    else if cps[k - 1] < n || (cps[k - 1] == n && k - 1 < p) then Kept(cps, n, p, k - 1) + [cps[k - 1]]
    else Kept(cps, n, p, k - 1)
  }

  /** Passing a character that is not `n` changes nothing. */
  lemma {:induction false} KeptSkip(cps: seq<nat>, n: nat, p: nat, k: nat)
    requires k <= |cps| && p < |cps| && (cps[p] != n || k <= p)
    ensures Kept(cps, n, p + 1, k) == Kept(cps, n, p, k)
  {
    if k > 0 { KeptSkip(cps, n, p, k - 1); }
  }

  /** Passing an `n` inserts it behind the characters that stand before it. */
  lemma {:induction false} KeptInsert(cps: seq<nat>, n: nat, p: nat, k: nat)
    requires p < k <= |cps| && cps[p] == n
    ensures var a, b := Kept(cps, n, p, p), Kept(cps, n, p, k);
      |a| <= |b| && b[..|a|] == a && Kept(cps, n, p + 1, k) == a + [n] + b[|a|..]
    decreases k
  {
    var a := Kept(cps, n, p, p);
    if k == p + 1 {
      KeptSkip(cps, n, p, p);
    } else {
      KeptInsert(cps, n, p, k - 1);
      var b, b0 := Kept(cps, n, p, k), Kept(cps, n, p, k - 1);
      if b != b0 {
        assert b[..|a|] == b0[..|a|] && b[|a|..] == b0[|a|..] + [cps[k - 1]];
      }
    }
  }

  /** After the last position the next bound says the same, and so does every bound up to the next character. */
  lemma {:induction false} KeptNext(cps: seq<nat>, n: nat, p: nat, m: nat, k: nat)
    requires k <= |cps| && n <= m
    requires p == 0 || (p == |cps| && n < m)
    requires forall j :: 0 <= j < |cps| && cps[j] >= n + (if p == 0 then 0 else 1) ==> cps[j] >= m
    ensures Kept(cps, m, 0, k) == Kept(cps, n, p, k)
  {
    if k > 0 { KeptNext(cps, n, p, m, k - 1); }
  }

  lemma {:induction false} KeptAll(cps: seq<nat>, n: nat, k: nat)
    requires k <= |cps| && !Pending(cps, n)
    ensures Kept(cps, n, 0, k) == cps[..k]
  {
    if k > 0 {
      KeptAll(cps, n, k - 1);
      assert cps[k - 1] < n;
      assert cps[..k] == cps[..k - 1] + [cps[k - 1]];
    }
  }

  // ----- the encoder and the decoder in step -----

  /**
    `d` is the decoder after the digits written so far.  Its output is what has been kept, and
    `delta` counts the decoder's steps from its position to the encoder's.
   */
  ghost predicate InStep(cps: seq<nat>, p: nat, st: Encoder, d0: Decoder, d: Decoder) {
    && st.Enc? && p <= |cps| && Run(st.out, d0) == Some(d) && 45 !in st.out
    && d.n <= st.n && d.bias == st.bias && d.output == Kept(cps, st.n, p, |cps|) && |d.output| == st.h
    && d.i <= st.h && (st.first <==> d.i == 0)
    && st.delta + d.i == (st.h + 1) * (st.n - d.n) + |Kept(cps, st.n, p, p)|
  }

  lemma {:induction false} KeptPrefix(cps: seq<nat>, n: nat, p: nat, j: nat, k: nat)
    requires j <= k <= |cps|
    ensures |Kept(cps, n, p, j)| <= |Kept(cps, n, p, k)|
    decreases k
  {
    if j < k { KeptPrefix(cps, n, p, j, k - 1); }
  }

  lemma RunEmit(out: seq<byte>, delta: nat, d0: Decoder, d: Decoder)
    requires Run(out, d0) == Some(d)
    ensures var v := VarInt(delta, 36, d.bias);
      Run(out + v, d0) == Some(Insertion(d, delta)) && (45 !in out ==> 45 !in out + v)
  {
    var v := VarInt(delta, 36, d.bias);
    RunAppend(out, v, d0);
    VarIntRoundTrip(delta, 36, d.bias, []);
    assert v + [] == v;
    VarIntNoDelimiter(delta, 36, d.bias);
    assert Run([], Insertion(d, delta)) == Some(Insertion(d, delta));
  }

  lemma InsertionAt(d: Decoder, delta: nat, n: nat, at: nat)
    requires at <= |d.output| && d.n <= n && delta + d.i == (|d.output| + 1) * (n - d.n) + at
    ensures Insertion(d, delta) == Decoder(n, at + 1, Adapt(delta, |d.output| + 1, d.i == 0),
                                           d.output[..at] + [n] + d.output[at..])
  {
    DivUnique(n - d.n, at, |d.output| + 1);
  }

  lemma KeptAt(cps: seq<nat>, n: nat, p: nat)
    requires p < |cps| && cps[p] == n
    ensures var a, b := Kept(cps, n, p, p), Kept(cps, n, p, |cps|);
      && |a| <= |b| && Kept(cps, n, p + 1, |cps|) == b[..|a|] + [n] + b[|a|..]
      && |Kept(cps, n, p + 1, p + 1)| == |a| + 1
  {
    KeptPrefix(cps, n, p, p, |cps|);
    KeptInsert(cps, n, p, |cps|);
    KeptInsert(cps, n, p, p + 1);
  }

  /** Writing a character makes the decoder insert it where it belongs. */
  lemma EmitInStep(cps: seq<nat>, p: nat, st: Encoder, d0: Decoder, d: Decoder)
    requires InStep(cps, p, st, d0, d) && p < |cps| && cps[p] == st.n
    ensures InStep(cps, p + 1, CharStep(st, cps[p]), d0, Insertion(d, st.delta))
  {
    hide Insertion, Run, VarInt, Kept, Adapt;
    RunEmit(st.out, st.delta, d0, d);
    KeptAt(cps, st.n, p);
    InsertionAt(d, st.delta, st.n, |Kept(cps, st.n, p, p)|);
    Zero(st.h + 2);
  }

  lemma Zero(x: nat)
    ensures x * 0 == 0
  {
  }

  lemma SkipInStep(cps: seq<nat>, p: nat, st: Encoder, d0: Decoder, d: Decoder)
    requires InStep(cps, p, st, d0, d) && p < |cps| && cps[p] != st.n && CharStep(st, cps[p]).Enc?
    ensures InStep(cps, p + 1, CharStep(st, cps[p]), d0, d)
  {
    KeptSkip(cps, st.n, p, |cps|);
    KeptSkip(cps, st.n, p, p);
  }

  lemma {:induction false} SweepInStep(cps: seq<nat>, p: nat, st: Encoder, d0: Decoder, d: Decoder)
    returns (d': Decoder)
    requires st.Enc? && p <= |cps| && InStep(cps, p, st, d0, d) && Sweep(cps, p, st).Enc?
    ensures InStep(cps, |cps|, Sweep(cps, p, st), d0, d')
    decreases |cps| - p
  {
    hide InStep, VarInt, Adapt, Insertion;
    if p == |cps| {
      d' := d;
    } else {
      if cps[p] == st.n {
        EmitInStep(cps, p, st, d0, d);
        d' := Insertion(d, st.delta);
      } else {
        SkipInStep(cps, p, st, d0, d);
        d' := d;
      }
      d' := SweepInStep(cps, p + 1, CharStep(st, cps[p]), d0, d');
    }
  }

  lemma Distribute(a: int, x: int, y: int)
    ensures a * (x + y) == a * x + a * y == x * a + y * a
  {
  }

  /** Moving the bound to the next character that remains moves `delta` by whole turns. */
  lemma AdvanceInStep(cps: seq<nat>, st: Encoder, d0: Decoder, d: Decoder, m: nat)
    requires InStep(cps, 0, st, d0, d) && IsMinFrom(cps, st.n, m) && Advance(st, m).Enc?
    ensures InStep(cps, 0, Advance(st, m), d0, d)
  {
    hide Run, Kept;
    KeptNext(cps, st.n, 0, m, |cps|);
    KeptNext(cps, st.n, 0, m, 0);
    Distribute(st.h + 1, m - st.n, st.n - d.n);
  }

  lemma NextRoundInStep(cps: seq<nat>, st: Encoder, d0: Decoder, d: Decoder)
    requires InStep(cps, |cps|, st, d0, d)
    ensures InStep(cps, 0, st.(n := st.n + 1, delta := st.delta + 1), d0, d)
  {
    KeptNext(cps, st.n, |cps|, st.n + 1, |cps|);
    assert Kept(cps, st.n + 1, 0, 0) == [];
    hide Run, Kept;
    Distribute(st.h + 1, st.n - d.n, 1);
  }

  /** One turn of the outer loop. */
  lemma RoundInStep(cps: seq<nat>, st: Encoder, d0: Decoder, d: Decoder)
    returns (s: Encoder, d': Decoder)
    requires InStep(cps, 0, st, d0, d) && Pending(cps, st.n)
    requires Sweep(cps, 0, Advance(st, MinFrom(cps, st.n))).Enc?
    ensures s == Sweep(cps, 0, Advance(st, MinFrom(cps, st.n))) && s.Enc? && st.n <= s.n <= Largest(cps)
    ensures InStep(cps, 0, s.(n := s.n + 1, delta := s.delta + 1), d0, d')
  {
    var m := MinFrom(cps, st.n);
    InLargest(cps, m);
    SweepKeepsN(cps, 0, Advance(st, m));
    hide InStep;
    AdvanceInStep(cps, st, d0, d, m);
    d' := SweepInStep(cps, 0, Advance(st, m), d0, d);
    s := Sweep(cps, 0, Advance(st, m));
    NextRoundInStep(cps, s, d0, d');
  }

  /** The outer loop leaves a text whose decoding is the whole label. */
  lemma {:induction false} RoundsInStep(cps: seq<nat>, st: Encoder, d0: Decoder, d: Decoder)
    returns (d': Decoder)
    requires InStep(cps, 0, st, d0, d) && Rounds(cps, st).Enc?
    ensures Run(Rounds(cps, st).out, d0) == Some(d') && d'.output == cps && 45 !in Rounds(cps, st).out
    decreases Largest(cps) + 1 - st.n
  {
    if !Pending(cps, st.n) {
      KeptAll(cps, st.n, |cps|);
      d' := d;
    } else {
      var s;
      s, d' := RoundInStep(cps, st, d0, d);
      d' := RoundsInStep(cps, s.(n := s.n + 1, delta := s.delta + 1), d0, d');
    }
  }

  // ----- a label -----

  /** The ASCII characters of a label, in order. */
  function Basic(cps: seq<nat>): (r: seq<byte>)
    ensures forall k :: 0 <= k < |r| ==> r[k] < 128
    ensures |r| <= |cps|
  {
    if cps == [] then []
    else
      var r, c := Basic(cps[..|cps| - 1]), cps[|cps| - 1];
      if c < 128 then r + [c] else r
  }

  function Start(cps: seq<nat>): Encoder {
    Enc([], 128, 0, 72, |Basic(cps)|, true)
  }

  /** The text written after `xn--`; `None` on overflow. */
  function Encode(cps: seq<nat>): Option<seq<byte>> {
    match Rounds(cps, Start(cps))
    case Overflow => None
    case Enc(out, _, _, _, _, _) =>
      Some(Basic(cps) + (if Basic(cps) == [] then [] else [45]) + out)
  }

  lemma {:induction false} BasicKept(cps: seq<nat>, k: nat)
    requires k <= |cps|
    ensures Basic(cps[..k]) == Kept(cps, 128, 0, k)
  {
    if k > 0 {
      BasicKept(cps, k - 1);
      assert cps[..k][..k - 1] == cps[..k - 1];
    }
  }

  lemma {:induction false} LastDelimiterAt(a: seq<byte>, b: seq<byte>)
    requires 45 !in b
    ensures LastDelimiter(b) == 0
    ensures LastDelimiter(a + [45] + b) == |a|
    decreases |b|
  {
    if b != [] {
      var c := b[..|b| - 1];
      assert forall x :: x in c ==> x in b;
      assert (a + [45] + b)[..|a| + |b|] == a + [45] + c;
      LastDelimiterAt(a, c);
    }
  }

  lemma StartInStep(cps: seq<nat>)
    ensures var d0 := Decoder(128, 0, 72, Basic(cps)); InStep(cps, 0, Start(cps), d0, d0)
  {
    var d0 := Decoder(128, 0, 72, Basic(cps));
    BasicKept(cps, |cps|);
    assert cps[..|cps|] == cps;
    assert Run([], d0) == Some(d0) && Kept(cps, 128, 0, 0) == [];
  }

  lemma DecodeParts(basic: seq<byte>, out: seq<byte>, d: Decoder)
    requires forall k :: 0 <= k < |basic| ==> basic[k] < 128
    requires 45 !in out && Run(out, Decoder(128, 0, 72, basic)) == Some(d)
    ensures Decode(basic + (if basic == [] then [] else [45]) + out) == Some(d.output)
  {
    hide Run;
    var text := basic + (if basic == [] then [] else [45]) + out;
    LastDelimiterAt(basic, out);
    if basic == [] {
      assert text == out && text[..0] == basic;
    } else {
      assert text == basic + [45] + out;
      assert text[..|basic|] == basic && text[|basic| + 1..] == out;
    }
  }

  /** Every label that is encoded without overflow is decoded to itself. */
  lemma RoundTrip(cps: seq<nat>)
    requires Encode(cps).Some?
    ensures Decode(Encode(cps).value) == Some(cps)
  {
    hide Run, InStep, Rounds, Basic, Decode;
    StartInStep(cps);
    var d0 := Decoder(128, 0, 72, Basic(cps));
    var d := RoundsInStep(cps, Start(cps), d0, d0);
    DecodeParts(Basic(cps), Rounds(cps, Start(cps)).out, d);
  }
}
