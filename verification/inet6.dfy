/**
  `inet_pton6` and `inet_ntop6` of `libuv/src/inet.c`, against the grammar of `Inet6Grammar`:
  the parser accepts exactly its literals, the printer writes one that reads as the address.
 */
module Inet6 {
  import opened Bytes
  import opened Inet4
  import opened Inet6Grammar

  // -- Reading ----------------------------------------------------------------------------------

  lemma ValSnoc(s: string, c: char)
    requires AllHex(s) && HexDigit(c).Some?
    ensures AllHex(s + [c]) && HexVal(s + [c]) == HexVal(s) * 16 + HexDigit(c).value
  {
    assert (s + [c])[..|s|] == s;
  }

  /** The buffer `o` when the last `i` of its first `tp` octets have been moved to the end. */
  ghost function Shifted(o: seq<byte>, tp: nat, i: nat): (t: seq<byte>)
    requires |o| == 16 && i <= tp <= 16
    ensures |t| == 16
  {
    o[..tp - i] + Zeros(16 - tp) + o[tp - i..tp]
  }

  lemma ShiftStep(o: seq<byte>, tp: nat, i: nat)
    requires |o| == 16 && 1 <= i <= tp < 16
    ensures Shifted(o, tp, i - 1)[tp - i] == o[tp - i]
    ensures Shifted(o, tp, i - 1)[16 - i := o[tp - i]][tp - i := 0] == Shifted(o, tp, i)
  {
  }

  lemma ShiftEnds(o: seq<byte>, colonp: nat, tp: nat)
    requires |o| == 16 && colonp <= tp < 16 && forall k :: tp <= k < 16 ==> o[k] == 0
    ensures Shifted(o, tp, 0) == o && Shifted(o, tp, tp - colonp) == o[..colonp] + Zeros(16 - tp) + o[colonp..tp]
  {
  }

  /** The octets from the gap on go to the end of the buffer by hand, since they may overlap. */
  method ShiftTail(tmp: array<byte>, colonp: nat, tp: nat)
    requires tmp.Length == 16 && colonp <= tp < 16 && forall k :: tp <= k < 16 ==> tmp[k] == 0
    modifies tmp
    ensures tmp[..] == old(tmp[..colonp]) + Zeros(16 - tp) + old(tmp[colonp..tp])
  {
    hide Shifted;
    var n := tp - colonp;
    ghost var o := tmp[..];
    ShiftEnds(o, colonp, tp);
    var i := 1;
    while i <= n
      invariant 1 <= i <= n + 1 && tmp[..] == Shifted(o, tp, i - 1)
    {
      ShiftStep(o, tp, i);
      tmp[16 - i] := tmp[colonp + n - i];
      tmp[colonp + n - i] := 0;
      i := i + 1;
    }
    assert o[..colonp] == old(tmp[..colonp]) && o[colonp..tp] == old(tmp[colonp..tp]);
  }

  /** Two more octets. */
  method PutWord(tmp: array<byte>, tp: nat, val: nat)
    requires tp + 2 <= tmp.Length && val < 65536 && forall k :: tp <= k < tmp.Length ==> tmp[k] == 0
    modifies tmp
    ensures tmp[..tp + 2] == old(tmp[..tp]) + Word(val) && forall k :: tp + 2 <= k < tmp.Length ==> tmp[k] == 0
  {
    tmp[tp] := val / 256 % 256;
    tmp[tp + 1] := val % 256;
  }

  /** What follows the loop: the last token, the gap, and the test that the buffer is full. */
  method FinishRead(tmp: array<byte>, tp0: nat, val: nat, seen: nat, colon: Option<nat>, ghost tok: string) returns (r: Option<seq<byte>>)
    requires tmp.Length == 16 && tp0 <= 16 && (forall k :: tp0 <= k < 16 ==> tmp[k] == 0)
    requires AllHex(tok) && seen == |tok| <= 4 && val == HexVal(tok) && (colon.Some? ==> colon.value <= tp0)
    modifies tmp
    ensures r == Finish(tok, old(tmp[..tp0]), colon)
  {
    hide HexVal, HexDigit, AllHex;
    var tp := tp0;
    if seen > 0 {
      if tp + 2 > 16 { return None; }
      PutWord(tmp, tp, val);
      tp := tp + 2;
    }
    ghost var o := tmp[..tp];
    if colon.Some? {
      if tp == 16 { return None; }
      assert tmp[..colon.value] == o[..colon.value] && tmp[colon.value..tp] == o[colon.value..];
      ShiftTail(tmp, colon.value, tp);
      tp := 16;
    }
    if tp != 16 { return None; }
    assert tmp[..16] == tmp[..];
    r := Some(tmp[..]);
  }

  lemma Outcome6(s: string)
    ensures Parse6(s).Some? ==> exists t :: WellFormed(t) && s == Render(t) && Parse6(s) == Some(Value(t))
    ensures Parse6(s).None? ==> forall t :: WellFormed(t) ==> s != Render(t)
  {
    hide Parse6, Render, Value, HexRun, ValidRun;
    forall a ensures Parse6(s) == Some(a) <==> exists t :: WellFormed(t) && s == Render(t) && a == Value(t) {
      Accepts6(s, a);
    }
    forall t | WellFormed(t) ensures s == Render(t) ==> Parse6(s).Some? {
      Complete6(t);
    }
  }

  /** `inet_pton6`: exactly the texts of literals are accepted; `None` is `UV_EINVAL`. */
  method Pton6(src: string) returns (r: Option<seq<byte>>)
    ensures r == Parse6(src)
    ensures r.Some? ==> exists t :: WellFormed(t) && src == Render(t) && r == Some(Value(t))
    ensures r.None? ==> forall t :: WellFormed(t) ==> src != Render(t)
  {
    hide Scan6, Finish, Parse4, Text4, HexVal, WellFormed, Render, Value, AllHex;
    Outcome6(src);
    NoDigits();
    var tmp := new byte[16](_ => 0);
    var tp := 0;
    var colon: Option<nat> := None;
    var i := 0;
    if |src| > 0 && src[0] == ':' {
      i := 1;
      if !(|src| > 1 && src[1] == ':') { return None; }
    }
    var curtok, seen, val := i, 0, 0;
    ghost var tok := "";
    assert src[0..] == src && tmp[..0] == [];
    while i < |src|
      invariant curtok <= i <= |src| && tok == src[curtok..i] && AllHex(tok) && seen == |tok| <= 4 && val == HexVal(tok)
      invariant tp <= 16 && (forall k :: tp <= k < 16 ==> tmp[k] == 0) && (colon.Some? ==> colon.value <= tp)
      invariant Scan6(src[i..], tok, tmp[..tp], colon) == Parse6(src)
      decreases |src| - i
    {
      var ch := src[i];
      ScanOne(src[i..], tok, tmp[..tp], colon);
      assert src[i..][0] == ch && src[i..][1..] == src[i + 1..] && tok + src[i..] == src[curtok..];
      i := i + 1;
      if HexDigit(ch).Some? {
        ValSnoc(tok, ch);
        val := val * 16 + HexDigit(ch).value;
        seen := seen + 1;
        if seen > 4 { return None; }
        tok := tok + [ch];
      } else if ch == ':' && seen == 0 {
        curtok := i;
        if colon.Some? { return None; }
        colon := Some(tp);
      } else if ch == ':' {
        curtok := i;
        if i == |src| || tp + 2 > 16 { return None; }
        PutWord(tmp, tp, val);
        tp, seen, val, tok := tp + 2, 0, 0, "";
      } else {
        var q := None;
        if ch == '.' && tp + 4 <= 16 {
          q := Pton4(src[curtok..]);
        }
        if q.None? { return None; }
        r := ReadQuad(tmp, tp, q.value, colon);
        return;
      }
    }
    ScanStop(tok, tmp[..tp], colon);
    assert src[i..] == "";
    r := FinishRead(tmp, tp, val, seen, colon, tok);
  }

  /** A dotted quad ends the text: its octets are added and the loop is left. */
  method ReadQuad(tmp: array<byte>, tp: nat, q: seq<byte>, colon: Option<nat>) returns (r: Option<seq<byte>>)
    requires tmp.Length == 16 && tp + 4 <= 16 && |q| == 4 && (forall k :: tp <= k < 16 ==> tmp[k] == 0)
    requires colon.Some? ==> colon.value <= tp
    modifies tmp
    ensures r == Finish("", old(tmp[..tp]) + q, colon)
  {
    hide Finish;
    NoDigits();
    forall k | 0 <= k < 4 { tmp[tp + k] := q[k]; }
    assert tmp[..tp + 4] == old(tmp[..tp]) + q;
    r := FinishRead(tmp, tp + 4, 0, 0, colon, "");
  }

  function ZoneFree(src: string): (s: string)
    ensures s <= src && '%' !in s && (|s| < |src| ==> src[|s|] == '%')
  {
    if src == "" || src[0] == '%' then "" else [src[0]] + ZoneFree(src[1..])
  }

  lemma {:induction false} ZoneFreeAt(src: string, k: nat)
    requires k <= |src| && '%' !in src[..k] && (k < |src| ==> src[k] == '%')
    ensures ZoneFree(src) == src[..k]
  {
    if k > 0 {
      assert src[..k][0] == src[0] && src[..k][1..] == src[1..][..k - 1];
      ZoneFreeAt(src[1..], k - 1);
    }
  }

  /**
    `uv_inet_pton` for IPv6: what follows a '%' is ignored.  The size of the copy never turns
    away an address.
   */
  method InetPton6(src: string) returns (r: Option<seq<byte>>)
    ensures r == Parse6(ZoneFree(src))
  {
    hide Parse6;
    var p := 0;
    while p < |src| && src[p] != '%'
      invariant p <= |src| && '%' !in src[..p]
    {
      p := p + 1;
    }
    ZoneFreeAt(src, p);
    if Parse6(src[..p]).Some? { AcceptedLength(src[..p]); }
    if p < |src| {
      if p > 46 - 1 { return None; }
      var tmp := src[..p];
      r := Pton6(tmp);
    } else {
      assert src[..p] == src;
      r := Pton6(src);
    }
  }
}
