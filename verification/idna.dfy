/**
  `uv__idna_toascii_label` and `uv__idna_toascii` of `libuv/src/idna.c`: the loops over the
  input text and the writes into a bounded buffer.
 */
module Idna {
  import opened Bytes
  import opened Utf8
  import Punycode

  const UV_EINVAL := -22
  const UV_E2BIG := -7

  /** The largest `int`: the label routine returns a count as an `int`. */
  const INT_MAX := 0x7FFF_FFFF

  /** An `unsigned`: every assignment to one is checked to be in range, so none wraps around. */

  datatype Result<+T> = Ok(value: T) | Err(code: int)

  // ----- specification -----

  predicate IsAscii(cps: seq<nat>) {
    forall k :: 0 <= k < |cps| ==> cps[k] < 128
  }

  /** The text of a label: itself when it is ASCII, its Punycode after `xn--` otherwise. */
  function Text(cps: seq<nat>): Option<seq<byte>> {
    if IsAscii(cps) then Some(Punycode.Basic(cps))
    else match Punycode.Encode(cps)
      case None => None
      case Some(text) => Some(PREFIX + text)
  }

  /** `xn--` */
  const PREFIX: seq<byte> := [120, 110, 45, 45]

  function LabelText(s: seq<byte>): Result<seq<byte>> {
    match DecodeFrom(s, 0)
    case None => Err(UV_EINVAL)
    case Some(cps) => match Text(cps) case None => Err(UV_E2BIG) case Some(text) => Ok(text)
  }

  /** U+002E, U+3002, U+FF0E and U+FF61 separate labels. */
  predicate IsDot(c: nat) {
    c == 0x2E || c == 0x3002 || c == 0xFF0E || c == 0xFF61
  }

  // ----- the output buffer -----

  /** What `if (d < de) *d++ = ...` has left of `text`: as much of it as there is room for. */
  ghost predicate Wrote(b: seq<byte>, d0: nat, d: nat, de: nat, text: seq<byte>) {
    && d0 <= d <= de <= |b| && d - d0 == (if |text| <= de - d0 then |text| else de - d0)
    && b[d0..d] == text[..d - d0]
  }

  /** Nothing outside the buffer's window has changed. */
  ghost predicate SameOutside(b: seq<byte>, b': seq<byte>, d0: nat, de: nat) {
    |b'| == |b| && d0 <= de <= |b| && b'[..d0] == b[..d0] && b'[de..] == b[de..]
  }

  /** `if (*d < de) *(*d)++ = ch;` */
  method Put(buf: array<byte>, d: nat, de: nat, ch: byte, ghost d0: nat, ghost text: seq<byte>) returns (d': nat)
    requires Wrote(buf[..], d0, d, de, text)
    modifies buf
    ensures Wrote(buf[..], d0, d', de, text + [ch]) && SameOutside(old(buf[..]), buf[..], d0, de)
  {
    d' := d;
    if d < de {
      buf[d] := ch;
      d' := d + 1;
      assert buf[..][d0..d] == old(buf[..])[d0..d];
      assert buf[..][d0..d'] == buf[..][d0..d] + [ch];
    } else {
      assert (text + [ch])[..d - d0] == text[..d - d0];
    }
  }

  lemma SameRefl(b: seq<byte>, d0: nat, d: nat, de: nat, text: seq<byte>)
    requires Wrote(b, d0, d, de, text)
    ensures SameOutside(b, b, d0, de)
  {
  }

  lemma SameTrans(a: seq<byte>, b: seq<byte>, c: seq<byte>, d0: nat, de: nat)
    requires SameOutside(a, b, d0, de) && SameOutside(b, c, d0, de)
    ensures SameOutside(a, c, d0, de)
  {
  }

  // ----- loops over the characters -----

  /** Position `p` of `s` is the beginning of character `j` of `cps`, or the end. */
  ghost predicate At(s: seq<byte>, p: nat, j: nat, cps: seq<nat>) {
    p <= |s| && j <= |cps| && DecodeFrom(s, p) == Some(cps[j..])
  }

  lemma AtStart(s: seq<byte>, cps: seq<nat>)
    requires DecodeFrom(s, 0) == Some(cps)
    ensures At(s, 0, 0, cps) && cps[..0] == []
  {
    assert cps[0..] == cps;
  }

  lemma AtStep(s: seq<byte>, p: nat, j: nat, cps: seq<nat>)
    requires At(s, p, j, cps) && p < |s|
    ensures var r := DecodeAt(s, p);
      && r.value != BAD && j < |cps| && cps[j] == r.value && At(s, r.next, j + 1, cps)
      && cps[..j + 1] == cps[..j] + [cps[j]]
  {
    var r := DecodeAt(s, p);
    assert cps[j..][0] == r.value && cps[j..][1..] == cps[j + 1..];
  }

  lemma AtEnd(s: seq<byte>, j: nat, cps: seq<nat>)
    requires At(s, |s|, j, cps)
    ensures j == |cps| && cps[..j] == cps
  {
    assert |cps[j..]| == 0;
  }

  lemma {:induction false} BasicAppend(a: seq<nat>, b: seq<nat>)
    ensures Punycode.Basic(a + b) == Punycode.Basic(a) + Punycode.Basic(b)
    decreases |b|
  {
    if b == [] {
      assert a + b == a;
    } else {
      assert (a + b)[..|a + b| - 1] == a + b[..|b| - 1];
      BasicAppend(a, b[..|b| - 1]);
    }
  }

  lemma {:induction false} BasicAll(cps: seq<nat>)
    ensures IsAscii(cps) <==> |Punycode.Basic(cps)| == |cps|
    ensures IsAscii(cps) ==> Punycode.Basic(cps) == cps
  {
    if cps != [] {
      var r := cps[..|cps| - 1];
      BasicAll(r);
      assert cps == r + [cps[|cps| - 1]];
      assert IsAscii(cps) <==> IsAscii(r) && cps[|cps| - 1] < 128;
    }
  }

  /** `done` are the characters before position `p`, if the rest can be decoded at all. */
  ghost predicate Reached(s: seq<byte>, p: nat, done: seq<nat>) {
    && p <= |s|
    && match DecodeFrom(s, p)
       case None => DecodeFrom(s, 0).None?
       case Some(rest) => DecodeFrom(s, 0) == Some(done + rest)
  }

  lemma ReachedStart(s: seq<byte>)
    ensures Reached(s, 0, []) && Punycode.Basic([]) == []
  {
    if DecodeFrom(s, 0).Some? { assert [] + DecodeFrom(s, 0).value == DecodeFrom(s, 0).value; }
  }

  lemma ReachedStep(s: seq<byte>, p: nat, done: seq<nat>)
    requires Reached(s, p, done) && p < |s|
    ensures var r := DecodeAt(s, p);
      && (if r.value == BAD then DecodeFrom(s, 0).None? else Reached(s, r.next, done + [r.value]))
      && Punycode.Basic(done + [r.value]) ==
         if r.value < 128 then Punycode.Basic(done) + [r.value] else Punycode.Basic(done)
  {
    var r := DecodeAt(s, p);
    assert (done + [r.value])[..|done|] == done;
    hide DecodeAt;
    if r.value != BAD && DecodeFrom(s, r.next).Some? {
      var rest := DecodeFrom(s, r.next).value;
      assert done + ([r.value] + rest) == done + [r.value] + rest;
    }
  }

  lemma ReachedEnd(s: seq<byte>, done: seq<nat>)
    requires Reached(s, |s|, done)
    ensures DecodeFrom(s, 0) == Some(done)
    ensures |Punycode.Basic(done)| <= |done| && (|Punycode.Basic(done)| == |done| <==> IsAscii(done))
  {
    assert done + [] == done;
    BasicAll(done);
  }

  /** The first loop: refuses malformed text, counts ASCII (`h`) and other characters (`todo`). */
  method Count(s: seq<byte>) returns (ok: bool, h: nat, todo: nat)
    ensures ok <==> DecodeFrom(s, 0).Some?
    ensures ok ==> var cps := DecodeFrom(s, 0).value;
      h == |Punycode.Basic(cps)| && h + todo == |cps| && (todo == 0 <==> IsAscii(cps))
  {
    hide *;
    h, todo := 0, 0;
    var p: nat := 0;
    ghost var done: seq<nat> := [];
    ReachedStart(s);
    while p < |s|
      invariant Reached(s, p, done) && p <= |s| && h == |Punycode.Basic(done)| && h + todo == |done|
    {
      var c, p' := Decode1(s, p);
      ReachedStep(s, p, done);
      if c == BAD {
        return false, 0, 0;
      }
      if c < 128 {
        h := h + 1;
      } else {
        todo := todo + 1;
      }
      p, done := p', done + [c];
    }
    ok := true;
    ReachedEnd(s, done);
  }

  /** The second loop: writes the ASCII characters and stops behind the last of them. */
  method WriteAscii(s: seq<byte>, h: nat, buf: array<byte>, d0: nat, de: nat, ghost b: nat, ghost text: seq<byte>)
    returns (d: nat)
    requires DecodeFrom(s, 0).Some? && h == |Punycode.Basic(DecodeFrom(s, 0).value)|
    requires Wrote(buf[..], b, d0, de, text)
    modifies buf
    ensures Wrote(buf[..], b, d, de, text + Punycode.Basic(DecodeFrom(s, 0).value))
    ensures SameOutside(old(buf[..]), buf[..], b, de)
  {
    hide *;
    ghost var cps, was := DecodeFrom(s, 0).value, buf[..];
    d := d0;
    var x, p := 0, 0;
    ghost var j := 0;
    AtStart(s, cps);
    SameRefl(buf[..], b, d, de, text);
    NoBasic(text);
    while p < |s|
      invariant At(s, p, j, cps) && p <= |s| && j <= |cps| && x == |Punycode.Basic(cps[..j])| && (x < h || h == 0)
      invariant Wrote(buf[..], b, d, de, text + Punycode.Basic(cps[..j])) && SameOutside(was, buf[..], b, de)
    {
      ghost var now := buf[..];
      var c, p' := Decode1(s, p);
      AtStep(s, p, j, cps);
      BasicStep(cps, j, text);
      p, j := p', j + 1;
      if c > 127 {
        continue;
      }
      d := Put(buf, d, de, c, b, text + Punycode.Basic(cps[..j - 1]));
      SameTrans(was, now, buf[..], b, de);
      x := x + 1;
      if x == h {
        return;
      }
    }
    AtEnd(s, j, cps);
  }

  lemma NoBasic(text: seq<byte>)
    ensures text + Punycode.Basic([]) == text
  {
  }

  lemma BasicStep(cps: seq<nat>, k: nat, text: seq<byte>)
    requires k < |cps|
    ensures var a, b := Punycode.Basic(cps[..k]), Punycode.Basic(cps[..k + 1]);
      && (cps[k] >= 128 ==> b == a)
      && (cps[k] < 128 ==> b == a + [cps[k]] && text + a + [cps[k]] == text + b)
      && (|b| == |Punycode.Basic(cps)| ==> b == Punycode.Basic(cps))
  {
    assert cps[..k + 1][..k] == cps[..k];
    BasicAppend(cps[..k + 1], cps[k + 1..]);
    assert cps[..k + 1] + cps[k + 1..] == cps;
  }

  // ----- one integer -----

  const ALPHABET: seq<byte> :=
    [97, 98, 99, 100, 101, 102, 103, 104, 105, 106, 107, 108, 109, 110, 111, 112, 113, 114,
     115, 116, 117, 118, 119, 120, 121, 122, 48, 49, 50, 51, 52, 53, 54, 55, 56, 57]

  lemma AlphabetDigit(t: nat)
    requires t < 36
    ensures |ALPHABET| == 36 && ALPHABET[t] == Punycode.Digit(t)
  {
  }

  /** A quotient by at least 10 is at most a tenth. */
  lemma Tenth(x: nat, y: nat)
    requires y >= 10
    ensures 0 <= 10 * (x / y) <= x
  {
    Punycode.DivShrinks(x, y);
    Punycode.DivMod(x, y);
    Punycode.MulNat(y - 10, x / y);
  }

  /** One digit that is not the last, and what is left to be written. */
  method NextDigit(q: u32, t: u32, k: u32, bias: u32, ghost text: seq<byte>, ghost v: seq<byte>)
    returns (more: u32, digit: u32)
    requires q >= t == Punycode.Threshold(k, bias)
    ensures 10 * more <= q - t && t >= 1 && |ALPHABET| == 36 && digit < 36
    ensures text + v + [ALPHABET[digit]] == text + (v + [ALPHABET[digit]])
    ensures v + Punycode.VarInt(q, k, bias) == v + [ALPHABET[digit]] + Punycode.VarInt(more, k + 36, bias)
  {
    hide Punycode.VarInt, Punycode.Threshold;
    ThresholdBounds(k, bias);
    DigitStep(q, k, bias, text, v);
    var x: u32, y: u32 := q - t, 36 - t;
    more, digit := x / y, t + x % y;
  }

  /** The digit loop.  It ends long before `k` could wrap around. */
  method WriteInt(delta: u32, bias: u32, buf: array<byte>, d0: nat, de: nat, ghost b: nat, ghost text: seq<byte>)
    returns (d: nat)
    requires Wrote(buf[..], b, d0, de, text)
    modifies buf
    ensures Wrote(buf[..], b, d, de, text + Punycode.VarInt(delta, 36, bias))
    ensures SameOutside(old(buf[..]), buf[..], b, de)
  {
    hide *;
    ghost var was, v: seq<byte> := buf[..], [];
    d := d0;
    var k: u32, q: u32 := 36, delta;
    SameRefl(buf[..], b, d, de, text);
    assert text + v == text && v + Punycode.VarInt(q, k, bias) == Punycode.VarInt(q, k, bias);
    var t: u32;
    while true
      invariant v + Punycode.VarInt(q, k, bias) == Punycode.VarInt(delta, 36, bias)
      invariant 2 * k + q + 72 * (if q < 8 then q else 8) <= 72 + delta + 576
      invariant Wrote(buf[..], b, d, de, text + v) && SameOutside(was, buf[..], b, de)
      decreases q
    {
      ghost var now := buf[..];
      t := 1;
      if k > bias {
        t := k - bias;
      }
      if t > 26 {
        t := 26;
      }
      ThresholdIs(k, bias);
      if q < t {
        break;
      }
      q, t := NextDigit(q, t, k, bias, text, v);
      d := Put(buf, d, de, ALPHABET[t], b, text + v);
      SameTrans(was, now, buf[..], b, de);
      v, k := v + [ALPHABET[t]], k + 36;
    }
    ghost var now := buf[..];
    LastDigit(q, k, bias, text, v);
    d := Put(buf, d, de, ALPHABET[q], b, text + v);
    SameTrans(was, now, buf[..], b, de);
  }

  lemma ThresholdIs(k: nat, bias: nat)
    ensures var t := if k > bias then k - bias else 1; Punycode.Threshold(k, bias) == if t > 26 then 26 else t
  {
  }

  lemma DigitStep(q: nat, k: nat, bias: nat, text: seq<byte>, v: seq<byte>)
    requires q >= Punycode.Threshold(k, bias)
    ensures var t := Punycode.Threshold(k, bias);
      && var x, y := q - t, 36 - t;
      && 0 <= 10 * (x / y) <= x && 0 <= x % y < y && |ALPHABET| == 36
      && var digit := [ALPHABET[t + x % y]];
      && text + v + digit == text + (v + digit)
      && v + Punycode.VarInt(q, k, bias) == v + digit + Punycode.VarInt(x / y, k + 36, bias)
  {
    var t := Punycode.Threshold(k, bias);
    ThresholdBounds(k, bias);
    DigitBounds(q - t, t);
    VarIntDigit(q, k, bias);
    hide Punycode.VarInt, Punycode.Threshold;
    var x, y := q - t, 36 - t;
    var digit := [ALPHABET[t + x % y]];
    assert v + (digit + Punycode.VarInt(x / y, k + 36, bias)) == v + digit + Punycode.VarInt(x / y, k + 36, bias);
  }

  lemma ThresholdBounds(k: nat, bias: nat)
    ensures 1 <= Punycode.Threshold(k, bias) <= 26
  {
  }

  lemma DigitBounds(x: nat, t: nat)
    requires 1 <= t <= 26
    ensures 0 <= 10 * (x / (36 - t)) <= x && 0 <= x % (36 - t) < 36 - t && |ALPHABET| == 36
  {
    Tenth(x, 36 - t);
    Punycode.DivMod(x, 36 - t);
    AlphabetDigit(0);
  }

  lemma VarIntDigit(q: nat, k: nat, bias: nat)
    requires q >= Punycode.Threshold(k, bias)
    ensures var t := Punycode.Threshold(k, bias);
      && 1 <= t <= 26 && q - t >= 0 && 0 <= (q - t) % (36 - t) < 36 - t && (q - t) / (36 - t) >= 0 && |ALPHABET| == 36
      && Punycode.VarInt(q, k, bias) == [ALPHABET[t + (q - t) % (36 - t)]] + Punycode.VarInt((q - t) / (36 - t), k + 36, bias)
  {
    hide *;
    var t := Punycode.Threshold(k, bias);
    ThresholdBounds(k, bias);
    DigitBounds(q - t, t);
    Punycode.VarIntMore(q, k, bias, t, (q - t) / (36 - t), (q - t) % (36 - t));
    AlphabetDigit(t + (q - t) % (36 - t));
  }

  lemma LastDigit(q: nat, k: nat, bias: nat, text: seq<byte>, v: seq<byte>)
    requires q < Punycode.Threshold(k, bias)
    ensures |ALPHABET| == 36 && q < 36 && v + Punycode.VarInt(q, k, bias) == v + [ALPHABET[q]]
    ensures text + v + [ALPHABET[q]] == text + (v + [ALPHABET[q]])
  {
    AlphabetDigit(q);
  }

  lemma Halves(delta: nat)
    ensures delta / 2 / 350 == delta / 700
  {
  }

  lemma BelowQuotient(x: nat, y: nat, c: nat)
    requires y > 0 && x < c * y
    ensures 0 <= x / y < c
  {
    Punycode.DivShrinks(x, y);
    Punycode.DivMod(x, y);
    Punycode.MulAtLeast(y, x / y - c + 1);
    assert y * (x / y - c + 1) == y * (x / y) - c * y + y;
  }

  /** The lines after an integer has been written: the new bias. */
  method AdaptBias(delta0: u32, h: u32, first: bool) returns (bias: u32)
    requires h > 0
    ensures bias == Punycode.Adapt(delta0, h, first)
  {
    var delta: u32 := delta0 / 2;
    if first {
      delta := delta / 350;
      Halves(delta0);
    }
    Punycode.DivShrinks(delta, h);
    delta := delta + delta / h;
    bias := 0;
    ghost var start := delta;
    while delta > 35 * 26 / 2
      invariant Punycode.Shrink(delta, bias) == Punycode.Shrink(start, 0)
      invariant 2 * bias + delta <= start
      decreases delta
    {
      delta := delta / 35;
      bias := bias + 36;
    }
    BelowQuotient(36 * delta, delta + 38, 36);
    bias := bias + 36 * delta / (delta + 38);
  }

  // ----- the loops of the encoder -----

  /** The search for the least character of at least `n`. */
  method FindNext(s: seq<byte>, n: u32) returns (m: u32)
    requires DecodeFrom(s, 0).Some? && Punycode.Pending(DecodeFrom(s, 0).value, n)
    ensures m == Punycode.MinFrom(DecodeFrom(s, 0).value, n)
  {
    hide *;
    ghost var cps := DecodeFrom(s, 0).value;
    ScalarsBelowBad(s, cps);
    NothingPending(n);
    m := BAD;
    var p := 0;
    ghost var j := 0;
    AtStart(s, cps);
    while p < |s|
      invariant At(s, p, j, cps) && p <= |s| && j <= |cps|
      invariant m == BAD ==> !Punycode.Pending(cps[..j], n)
      invariant m != BAD ==> Punycode.IsMinFrom(cps[..j], n, m)
    {
      var c, p' := Decode1(s, p);
      AtStep(s, p, j, cps);
      MinStep(cps[..j], c, n);
      if c >= n {
        if c < m {
          m := c;
        }
      }
      p, j := p', j + 1;
    }
    AtEnd(s, j, cps);
    LeastUnique(cps, n, m);
  }

  lemma NothingPending(n: nat)
    ensures !Punycode.Pending([], n)
  {
  }

  lemma LeastUnique(cps: seq<nat>, n: nat, m: nat)
    requires Punycode.Pending(cps, n) && Punycode.IsMinFrom(cps, n, m)
    ensures m == Punycode.MinFrom(cps, n)
  {
    var least := Punycode.MinFrom(cps, n);
    assert least <= m && m <= least;
  }

  lemma MinStep(done: seq<nat>, c: nat, n: nat)
    ensures var r := done + [c];
      && (Punycode.Pending(r, n) <==> Punycode.Pending(done, n) || c >= n)
      && (!Punycode.Pending(done, n) && c >= n ==> Punycode.IsMinFrom(r, n, c))
      && (forall m :: Punycode.IsMinFrom(done, n, m) ==> Punycode.IsMinFrom(r, n, if n <= c < m then c else m))
  {
    var r := done + [c];
    assert r[|done|] == c && r[..|done|] == done;
    assert forall k :: 0 <= k < |done| ==> r[k] == done[k];
  }

  /** How far the encoder has come: the characters written, and those left. */
  ghost predicate Progress(cps: seq<nat>, n: nat, p: nat, h: nat, todo: nat) {
    && p <= |cps| && h + todo == |cps| && h == |Punycode.Kept(cps, n, p, |cps|)|
  }

  lemma Counts(cps: seq<nat>, n: nat, p: nat, h: nat, todo: nat)
    requires Progress(cps, n, p, h, todo)
    ensures h + todo == |cps|
  {
  }

  lemma IntMax()
    ensures INT_MAX == 0x7FFF_FFFF
  {
  }

  lemma StartProgress(cps: seq<nat>)
    ensures Progress(cps, 128, 0, |Punycode.Basic(cps)|, |cps| - |Punycode.Basic(cps)|)
  {
    Punycode.BasicKept(cps, |cps|);
    assert cps[..|cps|] == cps;
  }

  /** `todo` is 0 exactly when no character of at least `n` is left. */
  lemma ProgressPending(cps: seq<nat>, n: nat, h: nat, todo: nat)
    requires Progress(cps, n, 0, h, todo)
    ensures todo > 0 <==> Punycode.Pending(cps, n)
  {
    if !Punycode.Pending(cps, n) {
      Punycode.KeptAll(cps, n, |cps|);
    } else {
      var j :| 0 <= j < |cps| && cps[j] >= n;
      KeptMisses(cps, n, j, |cps|);
    }
  }

  lemma {:induction false} KeptMisses(cps: seq<nat>, n: nat, j: nat, k: nat)
    requires j < k <= |cps| && cps[j] >= n
    ensures |Punycode.Kept(cps, n, 0, k)| < k
  {
    if k > j + 1 { KeptMisses(cps, n, j, k - 1); }
  }

  /** Passing the character at `p`. */
  lemma ProgressStep(cps: seq<nat>, n: nat, p: nat, h: nat, todo: nat)
    requires Progress(cps, n, p, h, todo) && p < |cps|
    ensures cps[p] != n ==> Progress(cps, n, p + 1, h, todo)
    ensures cps[p] == n ==> todo > 0 && Progress(cps, n, p + 1, h + 1, todo - 1)
  {
    if cps[p] == n {
      Punycode.KeptAt(cps, n, p);
      assert |Punycode.Kept(cps, n, p + 1, |cps|)| <= |cps|;
    } else {
      Punycode.KeptSkip(cps, n, p, |cps|);
    }
  }

  lemma ProgressAdvance(cps: seq<nat>, n: nat, h: nat, todo: nat)
    requires Progress(cps, n, 0, h, todo) && Punycode.Pending(cps, n)
    ensures Progress(cps, Punycode.MinFrom(cps, n), 0, h, todo)
  {
    Punycode.KeptNext(cps, n, 0, Punycode.MinFrom(cps, n), |cps|);
  }

  lemma ProgressNext(cps: seq<nat>, n: nat, h: nat, todo: nat)
    requires Progress(cps, n, |cps|, h, todo)
    ensures Progress(cps, n + 1, 0, h, todo)
  {
    Punycode.KeptNext(cps, n, |cps|, n + 1, |cps|);
  }

  /** The encoder of the specification with the routine's variables. */
  function Mirror(out: seq<byte>, n: nat, delta: nat, bias: nat, h: nat, first: bool): Punycode.Encoder {
    Punycode.Enc(out, n, delta, bias, h, first)
  }

  lemma SweepSkip(cps: seq<nat>, p: nat, out: seq<byte>, n: nat, delta: nat, bias: nat, h: nat, first: bool)
    requires p < |cps| && cps[p] != n
    ensures var st := Mirror(out, n, delta, bias, h, first);
      Punycode.Sweep(cps, p, st) ==
        if cps[p] > n then Punycode.Sweep(cps, p + 1, st)
        else if delta + 1 == 0x1_0000_0000 then Punycode.Overflow
        else Punycode.Sweep(cps, p + 1, Mirror(out, n, delta + 1, bias, h, first))
  {
    assert Punycode.Sweep(cps, p + 1, Punycode.Overflow) == Punycode.Overflow;
  }

  lemma SweepEmit(cps: seq<nat>, p: nat, out: seq<byte>, n: nat, delta: nat, bias: nat, h: nat, first: bool)
    requires p < |cps| && cps[p] == n
    ensures var v := Punycode.VarInt(delta, 36, bias);
      Punycode.Sweep(cps, p, Mirror(out, n, delta, bias, h, first)) ==
         Punycode.Sweep(cps, p + 1, Mirror(out + v, n, 0, Punycode.Adapt(delta, h + 1, first), h + 1, false))
  {
  }

  lemma SweepEnd(cps: seq<nat>, st: Punycode.Encoder)
    ensures Punycode.Sweep(cps, |cps|, st) == st
  {
  }

  /** The variables of the routine that live across the turns of the outer loop. */
  datatype Vars = Vars(delta: u32, bias: u32, h: u32, todo: nat, first: bool)

  /** Writing the character that is due: an integer, then a new bias. */
  method EmitChar(v: Vars, buf: array<byte>, d0: nat, de: nat, ghost b: nat, ghost text: seq<byte>, ghost out: seq<byte>)
    returns (v': Vars, d: nat)
    requires v.todo > 0 && v.h < 0x7FFF_FFFF && Wrote(buf[..], b, d0, de, text + out)
    modifies buf
    ensures Wrote(buf[..], b, d, de, text + (out + Punycode.VarInt(v.delta, 36, v.bias)))
    ensures SameOutside(old(buf[..]), buf[..], b, de)
    ensures v'.delta == 0 && v'.bias == Punycode.Adapt(v.delta, v.h + 1, v.first)
    ensures v'.h == v.h + 1 && v'.todo == v.todo - 1 && !v'.first
  {
    hide *;
    assert text + out + Punycode.VarInt(v.delta, 36, v.bias) == text + (out + Punycode.VarInt(v.delta, 36, v.bias));
    d := WriteInt(v.delta, v.bias, buf, d0, de, b, text + out);
    var bias := AdaptBias(v.delta, v.h + 1, v.first);
    v' := Vars(0, bias, v.h + 1, v.todo - 1, false);
  }

  /**
    The loop over the characters, up to its end or an overflow of `delta`.  At its end `delta`
    counts from the last `n` and so is at most the number of characters.
   */
  method SweepLoop(s: seq<byte>, n: u32, v0: Vars, buf: array<byte>, d0: nat, de: nat,
                   ghost b: nat, ghost text: seq<byte>, ghost out0: seq<byte>, ghost cps: seq<nat>)
    returns (ok: bool, v: Vars, d: nat, ghost out: seq<byte>)
    requires DecodeFrom(s, 0) == Some(cps) && |cps| <= INT_MAX && n in cps
    requires Progress(cps, n, 0, v0.h, v0.todo) && Wrote(buf[..], b, d0, de, text + out0)
    modifies buf
    ensures Wrote(buf[..], b, d, de, text + out) && SameOutside(old(buf[..]), buf[..], b, de)
    ensures var end := Punycode.Sweep(cps, 0, Mirror(out0, n, v0.delta, v0.bias, v0.h, v0.first));
      if ok then end == Mirror(out, n, v.delta, v.bias, v.h, v.first) else end == Punycode.Overflow
    ensures ok ==> Progress(cps, n, |cps|, v.h, v.todo) && v.delta <= |cps| && v.todo < v0.todo
  {
    hide *;
    ghost var was, start := buf[..], Mirror(out0, n, v0.delta, v0.bias, v0.h, v0.first);
    v, out, d := v0, out0, d0;
    SameRefl(buf[..], b, d, de, text + out);
    var p := 0;
    ghost var j := 0;
    AtStart(s, cps);
    Counts(cps, n, 0, v.h, v.todo);
    IntMax();
    while p < |s|
      invariant At(s, p, j, cps) && p <= |s| && j <= |cps|
      invariant Punycode.Sweep(cps, 0, start) ==
                Punycode.Sweep(cps, j, Mirror(out, n, v.delta, v.bias, v.h, v.first))
      invariant Progress(cps, n, j, v.h, v.todo) && v.todo <= v0.todo && v.h + v.todo == |cps|
      invariant n in cps[..j] ==> v.delta <= j && v.todo < v0.todo
      invariant Wrote(buf[..], b, d, de, text + out) && SameOutside(was, buf[..], b, de)
    {
      ghost var now := buf[..];
      var c, p' := Decode1(s, p);
      AtStep(s, p, j, cps);
      ProgressStep(cps, n, j, v.h, v.todo);
      p, j := p', j + 1;
      if c != n {
        SweepSkip(cps, j - 1, out, n, v.delta, v.bias, v.h, v.first);
      }
      if c < n {
        if v.delta + 1 == 0x1_0000_0000 {
          ok := false;
          return;
        }
        v := v.(delta := v.delta + 1);
      }
      if c != n {
        continue;
      }
      SweepEmit(cps, j - 1, out, n, v.delta, v.bias, v.h, v.first);
      ghost var digits := Punycode.VarInt(v.delta, 36, v.bias);
      v, d := EmitChar(v, buf, d, de, b, text, out);
      out := out + digits;
      SameTrans(was, now, buf[..], b, de);
    }
    AtEnd(s, j, cps);
    SweepEnd(cps, Mirror(out, n, v.delta, v.bias, v.h, v.first));
    ok := true;
  }

  lemma AdvanceRound(cps: seq<nat>, m: nat, out: seq<byte>, n: nat, delta: nat, bias: nat, h: nat, first: bool)
    requires Punycode.Pending(cps, n) && m == Punycode.MinFrom(cps, n) && delta < 0x1_0000_0000
    ensures m >= n && m in cps
    ensures var st := Mirror(out, n, delta, bias, h, first);
      if m - n > (0xFFFF_FFFF - delta) / (h + 1) then Punycode.Rounds(cps, st) == Punycode.Overflow
      else
        && 0 <= (m - n) * (h + 1) <= 0xFFFF_FFFF - delta
        && Punycode.Rounds(cps, st) ==
           AfterSweep(cps, Punycode.Sweep(cps, 0, Mirror(out, m, delta + (m - n) * (h + 1), bias, h, first)))
  {
    hide *;
    RoundsOnce(cps, m, out, n, delta, bias, h, first);
    AdvanceIs(m, out, n, delta, bias, h, first);
    SweepOverflow(cps);
    AfterSweepIs(cps, out, n, delta, bias, h, first);
  }

  lemma RoundsOnce(cps: seq<nat>, m: nat, out: seq<byte>, n: nat, delta: nat, bias: nat, h: nat, first: bool)
    requires Punycode.Pending(cps, n) && m == Punycode.MinFrom(cps, n)
    ensures m >= n && m in cps
    ensures var st := Mirror(out, n, delta, bias, h, first);
      st.Enc? && st.n == n
      && Punycode.Rounds(cps, st) == AfterSweep(cps, Punycode.Sweep(cps, 0, Punycode.Advance(st, m)))
  {
    hide *;
    MirrorIs(out, n, delta, bias, h, first);
    Punycode.RoundsStep(cps, Mirror(out, n, delta, bias, h, first));
    AfterSweepCases(cps, Punycode.Sweep(cps, 0, Punycode.Advance(Mirror(out, n, delta, bias, h, first), m)));
  }

  lemma MirrorIs(out: seq<byte>, n: nat, delta: nat, bias: nat, h: nat, first: bool)
    ensures Mirror(out, n, delta, bias, h, first).Enc? && Mirror(out, n, delta, bias, h, first).n == n
  {
  }

  lemma AfterSweepCases(cps: seq<nat>, st: Punycode.Encoder)
    ensures AfterSweep(cps, st) ==
      match st
      case Overflow => Punycode.Overflow
      case Enc(out, n, delta, bias, h, first) => Punycode.Rounds(cps, Punycode.Enc(out, n + 1, delta + 1, bias, h, first))
  {
  }

  lemma AdvanceIs(m: nat, out: seq<byte>, n: nat, delta: nat, bias: nat, h: nat, first: bool)
    requires m >= n && delta < 0x1_0000_0000
    ensures var st := Mirror(out, n, delta, bias, h, first);
      st.Enc? && st.n == n
      && if m - n > (0xFFFF_FFFF - delta) / (h + 1) then Punycode.Advance(st, m) == Punycode.Overflow
         else
           && 0 <= (m - n) * (h + 1) <= 0xFFFF_FFFF - delta
           && Punycode.Advance(st, m) == Mirror(out, m, delta + (m - n) * (h + 1), bias, h, first)
  {
    Punycode.MulNat(m - n, h + 1);
    if m - n <= (0xFFFF_FFFF - delta) / (h + 1) {
      Punycode.MulBound(m - n, 0xFFFF_FFFF - delta, h + 1);
    }
  }

  lemma SweepOverflow(cps: seq<nat>)
    ensures Punycode.Sweep(cps, 0, Punycode.Overflow) == Punycode.Overflow
  {
  }

  /** What the specification does with the result of a sweep. */
  function AfterSweep(cps: seq<nat>, st: Punycode.Encoder): Punycode.Encoder {
    match st
    case Overflow => Punycode.Overflow
    case Enc(out, n, delta, bias, h, first) => Punycode.Rounds(cps, Mirror(out, n + 1, delta + 1, bias, h, first))
  }

  lemma AfterSweepIs(cps: seq<nat>, out: seq<byte>, n: nat, delta: nat, bias: nat, h: nat, first: bool)
    ensures AfterSweep(cps, Punycode.Overflow) == Punycode.Overflow
    ensures AfterSweep(cps, Mirror(out, n, delta, bias, h, first)) ==
            Punycode.Rounds(cps, Mirror(out, n + 1, delta + 1, bias, h, first))
  {
  }

  lemma RoundsEnd(cps: seq<nat>, out: seq<byte>, n: nat, delta: nat, bias: nat, h: nat, first: bool)
    requires !Punycode.Pending(cps, n)
    ensures var st := Mirror(out, n, delta, bias, h, first);
      Punycode.Rounds(cps, st) == st && st.Enc? && st.out == out
  {
  }

  lemma ScalarsBelowBad(s: seq<byte>, cps: seq<nat>)
    requires DecodeFrom(s, 0) == Some(cps)
    ensures BAD == 0xFFFF_FFFF && forall k :: 0 <= k < |cps| ==> cps[k] < BAD
  {
    assert forall k :: 0 <= k < |cps| ==> cps[k] in cps;
  }

  lemma ScalarsSmall(s: seq<byte>, cps: seq<nat>, m: nat)
    requires DecodeFrom(s, 0) == Some(cps) && m in cps
    ensures m < 0x11_0000
  {
  }

  /** The outer loop. */
  method EncodeLoop(s: seq<byte>, h0: u32, todo0: nat, buf: array<byte>, d0: nat, de: nat,
                    ghost b: nat, ghost text: seq<byte>, ghost cps: seq<nat>)
    returns (ok: bool, d: nat, ghost out: seq<byte>)
    requires DecodeFrom(s, 0) == Some(cps) && |cps| <= INT_MAX
    requires Progress(cps, 128, 0, h0, todo0) && Wrote(buf[..], b, d0, de, text)
    modifies buf
    ensures Wrote(buf[..], b, d, de, text + out) && SameOutside(old(buf[..]), buf[..], b, de)
    ensures var end := Punycode.Rounds(cps, Mirror([], 128, 0, 72, h0, true));
      if ok then end.Enc? && end.out == out else end == Punycode.Overflow
  {
    hide *;
    ghost var was, start := buf[..], Mirror([], 128, 0, 72, h0, true);
    var n: u32 := 128;
    var v := Vars(0, 72, h0, todo0, true);
    d, out := d0, [];
    SameRefl(buf[..], b, d, de, text);
    assert text + [] == text;
    ProgressPending(cps, n, v.h, v.todo);
    IntMax();
    while v.todo > 0
      invariant Progress(cps, n, 0, v.h, v.todo) && (v.todo > 0 <==> Punycode.Pending(cps, n))
      invariant Punycode.Rounds(cps, start) == Punycode.Rounds(cps, Mirror(out, n, v.delta, v.bias, v.h, v.first))
      invariant Wrote(buf[..], b, d, de, text + out) && SameOutside(was, buf[..], b, de)
      decreases v.todo
    {
      ghost var now, out0 := buf[..], out;
      Counts(cps, n, 0, v.h, v.todo);
      var m := FindNext(s, n);
      AdvanceRound(cps, m, out, n, v.delta, v.bias, v.h, v.first);
      ScalarsSmall(s, cps, m);
      ProgressAdvance(cps, n, v.h, v.todo);
      var x: u32, y: u32 := m - n, v.h + 1;
      if x > (0xFFFF_FFFF - v.delta) / y {
        ok := false;
        return;
      }
      var v1 := v.(delta := v.delta + x * y);
      n := m;
      ok, v, d, out := SweepLoop(s, n, v1, buf, d, de, b, text, out, cps);
      SameTrans(was, now, buf[..], b, de);
      AfterSweepIs(cps, out, n, v.delta, v.bias, v.h, v.first);
      if !ok {
        return;
      }
      ProgressNext(cps, n, v.h, v.todo);
      ProgressPending(cps, n + 1, v.h, v.todo);
      Counts(cps, n, |cps|, v.h, v.todo);
      v, n := v.(delta := v.delta + 1), n + 1;
    }
    RoundsEnd(cps, out, n, v.delta, v.bias, v.h, v.first);
    ok := true;
  }

  // ----- a label and a name -----

  /** The four guarded writes of `xn--`. */
  method WritePrefix(buf: array<byte>, d0: nat, de: nat) returns (d: nat)
    requires Wrote(buf[..], d0, d0, de, [])
    modifies buf
    ensures Wrote(buf[..], d0, d, de, PREFIX) && SameOutside(old(buf[..]), buf[..], d0, de)
  {
    d := d0;
    d := Put(buf, d, de, 120, d0, []);
    d := Put(buf, d, de, 110, d0, [120]);
    d := Put(buf, d, de, 45, d0, [120, 110]);
    d := Put(buf, d, de, 45, d0, [120, 110, 45]);
  }

  /** A label's text in the parts the routine writes. */
  lemma LabelCases(s: seq<byte>, cps: seq<nat>, h: nat)
    requires DecodeFrom(s, 0) == Some(cps) && h == |Punycode.Basic(cps)|
    ensures var basic, end := Punycode.Basic(cps), Punycode.Rounds(cps, Mirror([], 128, 0, 72, h, true));
      if IsAscii(cps) then LabelText(s) == Ok(basic) == Ok([] + basic)
      else if end.Overflow? then LabelText(s) == Err(UV_E2BIG)
      else LabelText(s) == Ok(PREFIX + basic + (if h > 0 then [45] else []) + end.out)
  {
    hide Punycode.Basic, Punycode.Rounds, DecodeFrom, IsAscii;
    var basic, end := Punycode.Basic(cps), Punycode.Rounds(cps, Mirror([], 128, 0, 72, h, true));
    assert [] + basic == basic;
    if !IsAscii(cps) && end.Enc? {
      var dash := if h > 0 then [45] else [];
      assert PREFIX + (basic + dash + end.out) == PREFIX + basic + dash + end.out;
    }
  }

  lemma Nothing(b: seq<byte>, d: nat, de: nat)
    requires d <= de <= |b|
    ensures Wrote(b, d, d, de, []) && SameOutside(b, b, d, de)
  {
  }

  lemma WroteWithin(b: seq<byte>, d0: nat, d: nat, de: nat, text: seq<byte>)
    requires Wrote(b, d0, d, de, text)
    ensures d0 <= d <= de <= |b| && text + [] == text
  {
  }

  lemma Codes(s: seq<byte>)
    ensures UV_EINVAL < 0 && UV_E2BIG < 0
    ensures DecodeFrom(s, 0).None? ==> LabelText(s) == Err(UV_EINVAL)
  {
  }

  /** `uv__idna_toascii_label`. */
  method ToAsciiLabel(s: seq<byte>, buf: array<byte>, d0: nat, de: nat) returns (rc: int, d: nat)
    requires |s| <= INT_MAX && d0 <= de <= buf.Length
    modifies buf
    ensures SameOutside(old(buf[..]), buf[..], d0, de) && d0 <= d <= de
    ensures match LabelText(s)
      case Ok(text) => rc >= 0 && Wrote(buf[..], d0, d, de, text)
      case Err(code) => rc == code < 0
  {
    hide *;
    ghost var was := buf[..];
    d := d0;
    Nothing(was, d, de);
    Codes(s);
    var ok, h, todo := Count(s);
    if !ok {
      return UV_EINVAL, d;
    }
    ghost var cps := DecodeFrom(s, 0).value;
    ghost var text: seq<byte>, out: seq<byte> := [], [];
    LabelCases(s, cps, h);
    LengthFits(s, cps);
    if todo > 0 {
      d := WritePrefix(buf, d, de);
      text := PREFIX;
    }
    ghost var now := buf[..];
    d := WriteAscii(s, h, buf, d, de, d0, text);
    SameTrans(was, now, buf[..], d0, de);
    text := text + Punycode.Basic(cps);
    WroteWithin(buf[..], d0, d, de, text);
    if todo == 0 {
      return h, d;
    }
    now := buf[..];
    if h > 0 {
      d := Put(buf, d, de, 45, d0, text);
      text := text + [45];
      SameTrans(was, now, buf[..], d0, de);
    }
    now := buf[..];
    StartProgress(cps);
    ok, d, out := EncodeLoop(s, h, todo, buf, d, de, d0, text, cps);
    SameTrans(was, now, buf[..], d0, de);
    WroteWithin(buf[..], d0, d, de, text + out);
    if !ok {
      return UV_E2BIG, d;
    }
    rc := 0;
  }

  lemma LengthFits(s: seq<byte>, cps: seq<nat>)
    requires DecodeFrom(s, 0) == Some(cps) && |s| <= INT_MAX
    ensures |cps| <= INT_MAX <= 0x7FFF_FFFF
  {
  }

  // ----- the whole name -----

  /** Scanning `s` from `b` reaches exactly `p`, over the characters `cur`. */
  ghost predicate Spans(s: seq<byte>, b: nat, p: nat, cur: seq<nat>)
    requires b <= p <= |s|
    decreases p - b
  {
    if b == p then cur == []
    else
      var r := DecodeAt(s, b);
      r.value != BAD && r.next <= p && cur != [] && cur[0] == r.value && Spans(s, r.next, p, cur[1..])
  }

  lemma {:induction false} SpansStep(s: seq<byte>, b: nat, p: nat, cur: seq<nat>)
    requires b <= p < |s| && Spans(s, b, p, cur) && DecodeAt(s, p).value != BAD
    ensures Spans(s, b, DecodeAt(s, p).next, cur + [DecodeAt(s, p).value])
    decreases p - b
  {
    var r := DecodeAt(s, p);
    if b == p {
      assert (cur + [r.value])[1..] == [] && Spans(s, r.next, r.next, []);
    } else {
      SpansStep(s, DecodeAt(s, b).next, p, cur[1..]);
      assert (cur + [r.value])[1..] == cur[1..] + [r.value];
    }
  }

  /** A character that ends within a label decodes the same with the label's end as the limit. */
  lemma Restrict(s: seq<byte>, b: nat, p: nat, i: nat)
    requires b <= i < p <= |s| && DecodeAt(s, i).next <= p
    ensures DecodeAt(s[b..p], i - b) == Decoded(DecodeAt(s, i).value, DecodeAt(s, i).next - b)
  {
    hide Assemble;
    assert forall k :: 0 <= k < p - b ==> s[b..p][k] == s[b + k];
  }

  /** The label routine sees the characters the scan of the whole name has seen. */
  lemma {:induction false} SpansDecode(s: seq<byte>, b: nat, p: nat, i: nat, cur: seq<nat>)
    requires b <= i <= p <= |s| && Spans(s, i, p, cur)
    ensures DecodeFrom(s[b..p], i - b) == Some(cur)
    decreases p - i
  {
    hide DecodeAt;
    if i < p {
      Restrict(s, b, p, i);
      SpansDecode(s, b, p, DecodeAt(s, i).next, cur[1..]);
      assert cur == [cur[0]] + cur[1..];
    }
  }

  /** The result for a name from position `p` on, in the middle of the label that began at `b`. */
  function NameFrom(s: seq<byte>, b: nat, p: nat): Result<seq<byte>>
    requires b <= p <= |s|
    decreases |s| - p
  {
    if p == |s| then LabelText(s[b..])
    else
      var r := DecodeAt(s, p);
      if r.value == BAD then Err(UV_EINVAL)
      else if !IsDot(r.value) then NameFrom(s, b, r.next)
      else Join(LabelText(s[b..p]), NameFrom(s, r.next, r.next))
  }

  /** A label's text, a full stop and the rest. */
  function Join(first: Result<seq<byte>>, rest: Result<seq<byte>>): Result<seq<byte>> {
    if first.Err? then first else Follow(first.value + [46], rest)
  }

  function Follow(text: seq<byte>, rest: Result<seq<byte>>): Result<seq<byte>> {
    if rest.Err? then rest else Ok(text + rest.value)
  }

  /** The labels of a name. */
  function Labels(cps: seq<nat>): (r: seq<seq<nat>>)
    ensures |r| > 0
  {
    if cps == [] then [[]]
    else
      var r := Labels(cps[1..]);
      if IsDot(cps[0]) then [[]] + r else [[cps[0]] + r[0]] + r[1..]
  }

  /** The texts of the labels, separated by full stops. */
  function Joined(labels: seq<seq<nat>>): Option<seq<byte>>
    requires |labels| > 0
  {
    var t := Text(labels[0]);
    if |labels| == 1 || t.None? then t
    else match Joined(labels[1..]) case None => None case Some(rest) => Some(t.value + [46] + rest)
  }

  lemma LabelsOf(cur: seq<nat>, c: nat, rest: seq<nat>)
    requires forall k :: 0 <= k < |cur| ==> !IsDot(cur[k])
    ensures IsDot(c) ==> Labels(cur + [c] + rest) == [cur] + Labels(rest)
    ensures Labels(cur) == [cur]
  {
    if cur == [] {
      assert cur + [c] + rest == [c] + rest && ([c] + rest)[1..] == rest;
    } else {
      LabelsOf(cur[1..], c, rest);
      assert (cur + [c] + rest)[1..] == cur[1..] + [c] + rest && cur == [cur[0]] + cur[1..];
      assert ([cur[1..]] + Labels(rest))[1..] == Labels(rest);
    }
  }

  /**
    A name that decodes is converted label by label and joined by full stops, whichever of the
    four separators stood between the labels; a name that does not decode is refused.
   */
  lemma {:induction false} NameLabels(s: seq<byte>, b: nat, p: nat, cur: seq<nat>)
    requires b <= p <= |s| && Spans(s, b, p, cur) && forall k :: 0 <= k < |cur| ==> !IsDot(cur[k])
    ensures var r, rest := NameFrom(s, b, p), DecodeFrom(s, p);
      if rest.None? then r.Err?
      else match Joined(Labels(cur + rest.value)) case None => r == Err(UV_E2BIG) case Some(text) => r == Ok(text)
    decreases |s| - p
  {
    hide Text, IsDot, DecodeAt, LabelText, Labels, Joined;
    SpansDecode(s, b, p, b, cur);
    if p == |s| {
      assert s[b..] == s[b..p] && cur + [] == cur;
      LabelsOf(cur, 0, []);
      LabelIs(s[b..], cur);
    } else {
      var r := DecodeAt(s, p);
      if r.value != BAD && IsDot(r.value) {
        NameLabels(s, r.next, r.next, []);
        LabelIs(s[b..p], cur);
        if DecodeFrom(s, r.next).Some? { DotLabels(cur, r.value, DecodeFrom(s, r.next).value); }
      } else if r.value != BAD {
        SpansStep(s, b, p, cur);
        NameLabels(s, b, r.next, cur + [r.value]);
        if DecodeFrom(s, r.next).Some? {
          assert cur + [r.value] + DecodeFrom(s, r.next).value == cur + ([r.value] + DecodeFrom(s, r.next).value);
        }
      }
    }
  }

  lemma LabelIs(s: seq<byte>, cur: seq<nat>)
    requires DecodeFrom(s, 0) == Some(cur)
    ensures Joined([cur]) == Text(cur)
    ensures LabelText(s) == match Text(cur) case None => Err(UV_E2BIG) case Some(text) => Ok(text)
  {
  }

  lemma DotLabels(cur: seq<nat>, c: nat, rest: seq<nat>)
    requires IsDot(c) && forall k :: 0 <= k < |cur| ==> !IsDot(cur[k])
    ensures [] + rest == rest
    ensures Joined(Labels(cur + ([c] + rest))) ==
            match Text(cur)
            case None => None
            case Some(t) => match Joined(Labels(rest)) case None => None case Some(u) => Some(t + [46] + u)
  {
    LabelsOf(cur, c, rest);
    assert cur + ([c] + rest) == cur + [c] + rest;
    assert ([cur] + Labels(rest))[1..] == Labels(rest);
  }

  /** A write into the rest of the window is a write into the window. */
  lemma Widen(a: seq<byte>, b: seq<byte>, c: seq<byte>, d0: nat, d1: nat, de: nat, text: seq<byte>)
    requires SameOutside(a, b, d0, de) && Wrote(b, d0, d1, de, text) && SameOutside(b, c, d1, de)
    ensures SameOutside(a, c, d0, de)
  {
    assert c[..d0] == c[..d1][..d0] == b[..d1][..d0] == b[..d0];
  }

  lemma WroteAfter(b: seq<byte>, c: seq<byte>, d0: nat, d1: nat, d: nat, de: nat, text: seq<byte>, t: seq<byte>)
    requires Wrote(b, d0, d1, de, text) && SameOutside(b, c, d1, de) && Wrote(c, d1, d, de, t)
    ensures Wrote(c, d0, d, de, text + t)
  {
    assert c[d0..d1] == c[..d1][d0..] == b[..d1][d0..] == b[d0..d1];
    assert c[d0..d] == c[d0..d1] + c[d1..d];
  }

  lemma FollowNothing(r: Result<seq<byte>>)
    ensures Follow([], r) == r
  {
    if r.Ok? { assert [] + r.value == r.value; }
  }

  lemma NameStep(s: seq<byte>, b: nat, p: nat, text: seq<byte>)
    requires b <= p < |s|
    ensures var r, now := DecodeAt(s, p), Follow(text, NameFrom(s, b, p));
      && UV_EINVAL < 0
      && (IsDot(r.value) <==> r.value == 0x2E || r.value == 0x3002 || r.value == 0xFF0E || r.value == 0xFF61)
      && if r.value == BAD then now == Err(UV_EINVAL)
         else if !IsDot(r.value) then now == Follow(text, NameFrom(s, b, r.next))
         else match LabelText(s[b..p])
           case Err(code) => now == Err(code)
           case Ok(t) => now == Follow(text + t + [46], NameFrom(s, r.next, r.next))
  {
    hide LabelText;
    var r := DecodeAt(s, p);
    if r.value != BAD && IsDot(r.value) && LabelText(s[b..p]).Ok? {
      var t, rest := LabelText(s[b..p]).value, NameFrom(s, r.next, r.next);
      if rest.Ok? { assert text + (t + [46] + rest.value) == text + t + [46] + rest.value; }
    }
  }

  lemma NameEnd(s: seq<byte>, b: nat, text: seq<byte>)
    requires b <= |s|
    ensures match LabelText(s[b..])
      case Err(code) => Follow(text, NameFrom(s, b, |s|)) == Err(code)
      case Ok(t) => Follow(text, NameFrom(s, b, |s|)) == Ok(text + t)
    ensures b == |s| ==> Follow(text, NameFrom(s, b, |s|)) == Ok(text)
  {
    if b == |s| {
      assert DecodeFrom(s[b..], 0) == Some([]) && text + [] == text;
    }
  }

  /** `uv__idna_toascii`: the value returned is an error code or the number of bytes written. */
  method ToAscii(s: seq<byte>, buf: array<byte>, d0: nat, de: nat) returns (rc: int, d: nat)
    requires |s| <= INT_MAX && d0 <= de <= buf.Length
    modifies buf
    ensures SameOutside(old(buf[..]), buf[..], d0, de)
    ensures match NameFrom(s, 0, 0)
      case Ok(text) => rc == d - d0 >= 0 && Wrote(buf[..], d0, d, de, text + [0])
      case Err(code) => rc == code < 0
  {
    hide *;
    ghost var was := buf[..];
    d := d0;
    Nothing(was, d, de);
    ghost var text: seq<byte> := [];
    var b: nat, p: nat := 0, 0;
    Codes(s);
    FollowNothing(NameFrom(s, 0, 0));
    while p < |s|
      invariant b <= p <= |s| && Wrote(buf[..], d0, d, de, text) && SameOutside(was, buf[..], d0, de)
      invariant NameFrom(s, 0, 0) == Follow(text, NameFrom(s, b, p))
      decreases |s| - p
    {
      ghost var now := buf[..];
      var c, p' := Decode1(s, p);
      NameStep(s, b, p, text);
      if c == BAD {
        return UV_EINVAL, d;
      }
      if c != 0x2E && c != 0x3002 && c != 0xFF0E && c != 0xFF61 {
        p := p';
        continue;
      }
      WroteWithin(now, d0, d, de, text);
      ghost var d1 := d;
      rc, d := ToAsciiLabel(s[b..p], buf, d, de);
      Widen(was, now, buf[..], d0, d1, de, text);
      if rc < 0 {
        return;
      }
      WroteAfter(now, buf[..], d0, d1, d, de, text, LabelText(s[b..p]).value);
      now := buf[..];
      text := text + LabelText(s[b..p]).value;
      d := Put(buf, d, de, 46, d0, text);
      SameTrans(was, now, buf[..], d0, de);
      text := text + [46];
      b, p := p', p';
    }
    NameEnd(s, b, text);
    ghost var now := buf[..];
    if b < |s| {
      WroteWithin(now, d0, d, de, text);
      ghost var d1 := d;
      rc, d := ToAsciiLabel(s[b..], buf, d, de);
      Widen(was, now, buf[..], d0, d1, de, text);
      if rc < 0 {
        return;
      }
      WroteAfter(now, buf[..], d0, d1, d, de, text, LabelText(s[b..]).value);
      text := text + LabelText(s[b..]).value;
    }
    now := buf[..];
    d := Put(buf, d, de, 0, d0, text);
    SameTrans(was, now, buf[..], d0, de);
    WroteWithin(buf[..], d0, d, de, text + [0]);
    rc := d - d0;
  }

  /**
    For every well-formed label with a character outside ASCII, what is written behind `xn--`
    is decoded by RFC 3492 to the label's characters.
   */
  lemma LabelDecodes(cps: seq<nat>)
    requires (forall v :: v in cps ==> IsScalar(v)) && !IsAscii(cps) && LabelText(EncodeAll(cps)).Ok?
    ensures var text := LabelText(EncodeAll(cps)).value;
      PREFIX <= text && Punycode.Decode(text[|PREFIX|..]) == Some(cps)
  {
    hide Punycode.Decode, Punycode.Encode, IsAscii, DecodeFrom;
    DecodeEncodeAll([], cps);
    assert [] + EncodeAll(cps) == EncodeAll(cps);
    Punycode.RoundTrip(cps);
    var text := LabelText(EncodeAll(cps)).value;
    assert text[|PREFIX|..] == Punycode.Encode(cps).value;
  }

  // ----- encoding twice -----

  /** ASCII text without a full stop. */
  predicate Plain(s: seq<byte>) {
    IsAscii(s) && 46 !in s
  }

  lemma {:induction false} VarIntPlain(q: nat, k: nat, bias: nat)
    ensures Plain(Punycode.VarInt(q, k, bias))
    decreases q
  {
    var t := Punycode.Threshold(k, bias);
    if q >= t {
      Punycode.DivMod(q - t, 36 - t);
      Punycode.DivShrinks(q - t, 36 - t);
      VarIntPlain((q - t) / (36 - t), k + 36, bias);
    }
  }

  lemma {:induction false} SweepPlain(cps: seq<nat>, p: nat, st: Punycode.Encoder)
    requires p <= |cps| && (st.Enc? ==> Plain(st.out))
    ensures var r := Punycode.Sweep(cps, p, st); r.Enc? ==> Plain(r.out)
    decreases |cps| - p
  {
    if st.Enc? && p < |cps| {
      VarIntPlain(st.delta, 36, st.bias);
      hide Punycode.VarInt, Punycode.Adapt;
      SweepPlain(cps, p + 1, Punycode.CharStep(st, cps[p]));
    }
  }

  lemma {:induction false} RoundsPlain(cps: seq<nat>, st: Punycode.Encoder)
    requires st.Enc? && Plain(st.out)
    ensures var r := Punycode.Rounds(cps, st); r.Enc? ==> Plain(r.out)
    decreases Punycode.Largest(cps) + 1 - st.n
  {
    hide Punycode.Sweep, Plain;
    if Punycode.Pending(cps, st.n) {
      var m := Punycode.MinFrom(cps, st.n);
      Punycode.InLargest(cps, m);
      var s := Punycode.Sweep(cps, 0, Punycode.Advance(st, m));
      Punycode.SweepKeepsN(cps, 0, Punycode.Advance(st, m));
      SweepPlain(cps, 0, Punycode.Advance(st, m));
      if s.Enc? { RoundsPlain(cps, s.(n := s.n + 1, delta := s.delta + 1)); }
    }
  }

  lemma {:induction false} BasicPlain(cps: seq<nat>)
    requires 46 !in cps
    ensures Plain(Punycode.Basic(cps))
  {
    if cps != [] {
      var r := cps[..|cps| - 1];
      assert forall c :: c in r ==> c in cps;
      BasicPlain(r);
    }
  }

  /** A label's text is ASCII without separators, so it is its own text. */
  lemma TextPlain(cps: seq<nat>)
    requires 46 !in cps && Text(cps).Some?
    ensures Plain(Text(cps).value) && Text(Text(cps).value) == Text(cps)
  {
    hide Punycode.Rounds, Punycode.Basic;
    BasicPlain(cps);
    if !IsAscii(cps) {
      RoundsPlain(cps, Punycode.Start(cps));
    }
    BasicAll(Text(cps).value);
  }

  lemma {:induction false} LabelsNoDot(cps: seq<nat>, k: nat)
    requires k < |Labels(cps)|
    ensures forall c :: c in Labels(cps)[k] ==> !IsDot(c)
  {
    if cps != [] {
      if k > 0 || !IsDot(cps[0]) {
        LabelsNoDot(cps[1..], if IsDot(cps[0]) then k - 1 else k);
      }
    }
  }

  lemma {:induction false} JoinedAgain(labels: seq<seq<nat>>)
    requires |labels| > 0 && Joined(labels).Some?
    requires forall k :: 0 <= k < |labels| ==> 46 !in labels[k]
    ensures var t := Joined(labels).value; IsAscii(t) && Joined(Labels(t)) == Some(t)
    decreases |labels|
  {
    hide Text;
    var t := Text(labels[0]).value;
    TextPlain(labels[0]);
    assert forall k :: 0 <= k < |t| ==> t[k] in t;
    if |labels| == 1 {
      LabelsOf(t, 0, []);
      assert Joined([t]) == Text(t);
    } else {
      JoinedAgain(labels[1..]);
      var rest := Joined(labels[1..]).value;
      LabelsOf(t, 46, rest);
      assert ([t] + Labels(rest))[1..] == Labels(rest) && ([t] + Labels(rest))[0] == t;
    }
  }

  lemma AsciiAt(s: seq<byte>, i: nat)
    requires IsAscii(s) && i < |s|
    ensures DecodeAt(s, i) == Decoded(s[i], i + 1) && s[i] != BAD
  {
  }

  lemma {:induction false} DecodeAscii(s: seq<byte>, i: nat)
    requires IsAscii(s) && i <= |s|
    ensures DecodeFrom(s, i) == Some(s[i..])
    decreases |s| - i
  {
    if i < |s| {
      AsciiAt(s, i);
      DecodeAscii(s, i + 1);
      DecodeMore(s, i, s[i], s[i + 1..]);
      assert s[i..] == [s[i]] + s[i + 1..];
    } else {
      assert s[i..] == [];
    }
  }

  lemma DecodeMore(s: seq<byte>, i: nat, v: nat, rest: seq<nat>)
    requires i < |s| && DecodeAt(s, i) == Decoded(v, i + 1) && v != BAD && DecodeFrom(s, i + 1) == Some(rest)
    ensures DecodeFrom(s, i) == Some([v] + rest)
  {
    hide DecodeAt;
  }

  /** A converted name is ASCII, and converting it again leaves it as it is. */
  lemma Idempotent(s: seq<byte>)
    requires NameFrom(s, 0, 0).Ok?
    ensures var t := NameFrom(s, 0, 0).value; IsAscii(t) && NameFrom(t, 0, 0) == Ok(t)
  {
    hide Joined, DecodeAt, Labels, NameFrom, IsAscii;
    NameLabels(s, 0, 0, []);
    var cps := DecodeFrom(s, 0).value;
    assert [] + cps == cps;
    var labels := Labels(cps);
    forall k | 0 <= k < |labels| ensures 46 !in labels[k] {
      LabelsNoDot(cps, k);
      assert IsDot(46);
    }
    JoinedAgain(labels);
    var t := Joined(labels).value;
    DecodeAscii(t, 0);
    NameLabels(t, 0, 0, []);
    assert [] + t[0..] == t;
  }
}
