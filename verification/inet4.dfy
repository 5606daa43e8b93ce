/**
  The dotted decimal form of IPv4 addresses, `inet_ntop4` and `inet_pton4` of `libuv/src/inet.c`.
  Text is a `string` without its terminating NUL.
 */
module Inet4 {
  import opened Bytes

  const NUL: char := '\0'

  function Digit(d: nat): (c: char)
    requires d < 10
    ensures '0' <= c <= '9' && c as int - '0' as int == d
  {
    ('0' as int + d) as char
  }

  /** What `%u` prints for an octet. */
  function Dec(n: byte): (s: string)
    ensures 1 <= |s| <= 3
  {
    if n < 10 then [Digit(n)]
    else if n < 100 then [Digit(n / 10), Digit(n % 10)]
    else [Digit(n / 100), Digit(n / 10 % 10), Digit(n % 10)]
  }

  function Text4(a: seq<byte>): (s: string)
    requires |a| == 4
    ensures 7 <= |s| <= 15
  {
    Dec(a[0]) + "." + Dec(a[1]) + "." + Dec(a[2]) + "." + Dec(a[3])
  }

  /**
    Reading the rest `s` of a text: `done` are the octets that a dot has closed, `cur` is the
    octet being read, if a digit of it was seen.
   */
  function Scan4(s: string, done: seq<byte>, cur: Option<byte>): Option<seq<byte>> {
    if s == "" then
      if cur.Some? && |done| == 3 then Some(done + [cur.value]) else None
    else if '0' <= s[0] <= '9' then
      var nw := (if cur.Some? then cur.value * 10 else 0) + (s[0] as int - '0' as int);
      if cur == Some(0) || nw > 255 || |done| > 3 then None else Scan4(s[1..], done, Some(nw))
    else if s[0] == '.' && cur.Some? && |done| < 3 then
      Scan4(s[1..], done + [cur.value], None)
    else
      None
  }

  function Parse4(s: string): Option<seq<byte>> {
    Scan4(s, [], None)
  }

  // -- Every dotted text is read as its octets --------------------------------------------------

  lemma DigitStep(s: string, done: seq<byte>, cur: Option<byte>, d: nat)
    requires d < 10 && |done| <= 3 && cur != Some(0) && (cur.Some? ==> cur.value * 10 + d < 256)
    ensures Scan4([Digit(d)] + s, done, cur) == Scan4(s, done, Some((if cur.Some? then cur.value * 10 else 0) + d))
  {
    assert ([Digit(d)] + s)[1..] == s;
  }

  lemma OctetStep(s: string, done: seq<byte>, n: byte)
    requires |done| <= 3
    ensures Scan4(Dec(n) + s, done, None) == Scan4(s, done, Some(n))
  {
    hide Scan4;
    if n < 10 {
      DigitStep(s, done, None, n);
    } else if n < 100 {
      assert Dec(n) + s == [Digit(n / 10)] + ([Digit(n % 10)] + s);
      DigitStep([Digit(n % 10)] + s, done, None, n / 10);
      DigitStep(s, done, Some(n / 10), n % 10);
    } else {
      var last := [Digit(n % 10)] + s;
      assert Dec(n) + s == [Digit(n / 100)] + ([Digit(n / 10 % 10)] + last);
      DigitStep([Digit(n / 10 % 10)] + last, done, None, n / 100);
      DigitStep(last, done, Some(n / 100), n / 10 % 10);
      DigitStep(s, done, Some(n / 10), n % 10);
    }
  }

  lemma DotStep(s: string, done: seq<byte>, n: byte)
    requires |done| < 3
    ensures Scan4(Dec(n) + "." + s, done, None) == Scan4(s, done + [n], None)
  {
    assert Dec(n) + "." + s == Dec(n) + ("." + s);
    OctetStep("." + s, done, n);
    assert ("." + s)[1..] == s;
  }

  lemma ScanEnd4(done: seq<byte>, n: byte)
    requires |done| == 3
    ensures Scan4("", done, Some(n)) == Some(done + [n])
  {
  }

  lemma Complete4(a: seq<byte>)
    requires |a| == 4
    ensures Parse4(Text4(a)) == Some(a)
  {
    hide Scan4, Dec;
    var s3 := Dec(a[3]);
    var s2 := Dec(a[2]) + "." + s3;
    var s1 := Dec(a[1]) + "." + s2;
    assert Text4(a) == Dec(a[0]) + "." + s1;
    DotStep(s1, [], a[0]);
    DotStep(s2, [a[0]], a[1]);
    DotStep(s3, [a[0], a[1]], a[2]);
    assert s3 + "" == s3;
    OctetStep("", [a[0], a[1], a[2]], a[3]);
    ScanEnd4([a[0], a[1], a[2]], a[3]);
    assert [a[0], a[1], a[2]] + [a[3]] == a;
    assert [a[0]] + [a[1]] == [a[0], a[1]] && [a[0], a[1]] + [a[2]] == [a[0], a[1], a[2]] && [] + [a[0]] == [a[0]];
  }

  // -- Nothing but dotted texts is read ---------------------------------------------------------

  /** The text of the octets that a dot has closed. */
  function Dotted(done: seq<byte>): string {
    if done == [] then "" else Dotted(done[..|done| - 1]) + Dec(done[|done| - 1]) + "."
  }

  function Current(cur: Option<byte>): string {
    if cur.Some? then Dec(cur.value) else ""
  }

  lemma DecSnoc(n: byte, c: char)
    requires '0' <= c <= '9' && n != 0 && n * 10 + (c as int - '0' as int) < 256
    ensures Dec(n * 10 + (c as int - '0' as int)) == Dec(n) + [c]
  {
  }

  lemma SoundEnd(done: seq<byte>, n: byte)
    requires |done| == 3
    ensures Dotted(done) + Dec(n) == Text4(done + [n])
  {
    hide Dec;
    assert done == [done[0], done[1], done[2]] && done[..2] == [done[0], done[1]] && done[..2][..1] == [done[0]];
    assert Dotted([done[0]]) == Dec(done[0]) + "." by {
      assert [done[0]][..0] == [];
      assert "" + Dec(done[0]) + "." == Dec(done[0]) + ".";
    }
  }

  lemma SoundDigit(before: string, cur: Option<byte>, s: string)
    requires s != "" && '0' <= s[0] <= '9' && cur != Some(0)
    requires (if cur.Some? then cur.value * 10 else 0) + (s[0] as int - '0' as int) <= 255
    ensures before + Current(cur) + s == before + Dec((if cur.Some? then cur.value * 10 else 0) + (s[0] as int - '0' as int)) + s[1..]
  {
    if cur.Some? {
      DecSnoc(cur.value, s[0]);
    }
    assert s == [s[0]] + s[1..];
  }

  lemma SoundDot(done: seq<byte>, n: byte, s: string)
    requires s != "" && s[0] == '.'
    ensures Dotted(done) + Dec(n) + s == Dotted(done + [n]) + s[1..]
  {
    hide Dec;
    assert (done + [n])[..|done|] == done;
    assert s == "." + s[1..];
  }

  lemma {:induction false} Sound4(s: string, done: seq<byte>, cur: Option<byte>)
    requires |done| <= 3 && Scan4(s, done, cur).Some?
    ensures |Scan4(s, done, cur).value| == 4 && Dotted(done) + Current(cur) + s == Text4(Scan4(s, done, cur).value)
    decreases |s|
  {
    hide Dec, Dotted, Text4;
    if s == "" {
      SoundEnd(done, cur.value);
      assert Dotted(done) + Current(cur) + s == Dotted(done) + Dec(cur.value);
    } else if '0' <= s[0] <= '9' {
      var nw := (if cur.Some? then cur.value * 10 else 0) + (s[0] as int - '0' as int);
      Sound4(s[1..], done, Some(nw));
      SoundDigit(Dotted(done), cur, s);
    } else {
      Sound4(s[1..], done + [cur.value], None);
      SoundDot(done, cur.value, s);
      assert Dotted(done + [cur.value]) + "" == Dotted(done + [cur.value]);
    }
  }

  /** Exactly the dotted texts are accepted, and each is read as its octets. */
  lemma Accepts4(s: string, a: seq<byte>)
    ensures Parse4(s) == Some(a) <==> |a| == 4 && s == Text4(a)
  {
    if Parse4(s) == Some(a) {
      Sound4(s, [], None);
      assert Dotted([]) + Current(None) + s == s;
    }
    if |a| == 4 && s == Text4(a) {
      Complete4(a);
    }
  }

  lemma Outcome4(s: string)
    ensures Parse4(s).Some? ==> |Parse4(s).value| == 4 && s == Text4(Parse4(s).value)
    ensures Parse4(s).None? ==> forall a: seq<byte> :: |a| == 4 ==> s != Text4(a)
  {
    hide Text4, Scan4;
    forall a: seq<byte> ensures Parse4(s) == Some(a) <==> |a| == 4 && s == Text4(a) {
      Accepts4(s, a);
    }
  }

  // -- The code ---------------------------------------------------------------------------------

  /** `inet_pton4`: on `None`, `UV_EINVAL`, the destination is left alone. */
  method Pton4(src: string) returns (r: Option<seq<byte>>)
    ensures r == Parse4(src)
    ensures r.Some? ==> |r.value| == 4 && src == Text4(r.value)
    ensures r.None? ==> forall a: seq<byte> :: |a| == 4 ==> src != Text4(a)
  {
    hide Text4, Dec;
    Outcome4(src);
    var tmp := new byte[4];
    var tp, octets, sawDigit := 0, 0, false;
    tmp[0] := 0;
    var i := 0;
    while i < |src|
      invariant i <= |src| && tp < 4 && octets == (if sawDigit then tp + 1 else tp) && (!sawDigit ==> tmp[tp] == 0)
      invariant Scan4(src[i..], tmp[..tp], if sawDigit then Some(tmp[tp]) else None) == Parse4(src)
    {
      var ch := src[i];
      assert src[i..][0] == ch && src[i..][1..] == src[i + 1..];
      i := i + 1;
      if '0' <= ch <= '9' {
        var nw := tmp[tp] * 10 + (ch as int - '0' as int);
        if sawDigit && tmp[tp] == 0 { return None; }
        if nw > 255 { return None; }
        tmp[tp] := nw;
        if !sawDigit {
          octets := octets + 1;
          if octets > 4 { return None; }
          sawDigit := true;
        }
      } else if ch == '.' && sawDigit {
        if octets == 4 { return None; }
        tp := tp + 1;
        tmp[tp] := 0;
        sawDigit := false;
        assert tmp[..tp] == tmp[..tp - 1] + [tmp[tp - 1]];
      } else {
        return None;
      }
    }
    if octets < 4 { return None; }
    r := Some(tmp[..]);
    assert tmp[..] == tmp[..3] + [tmp[3]];
  }

  /** `uv__strscpy` of a text that fits: its characters and a NUL. */
  method CopyText(dst: array<char>, at: nat, s: string)
    requires at + |s| < dst.Length
    modifies dst
    ensures dst[..] == old(dst[..at]) + s + [NUL] + old(dst[at + |s| + 1..])
  {
    for i := 0 to |s|
      invariant forall k :: 0 <= k < i ==> dst[at + k] == s[k]
      invariant forall k :: 0 <= k < dst.Length && !(at <= k < at + i) ==> dst[k] == old(dst[k])
    {
      dst[at + i] := s[i];
    }
    dst[at + |s|] := NUL;
    assert forall k :: at <= k < at + |s| ==> dst[k] == s[k - at];
  }

  /** `inet_ntop4` into the `size` characters of `dst` from `at` on: `false` is `UV_ENOSPC`. */
  method Ntop4(src: seq<byte>, dst: array<char>, at: nat, size: nat) returns (ok: bool)
    requires |src| == 4 && at + size <= dst.Length
    modifies dst
    ensures ok == (|Text4(src)| < size)
    ensures !ok ==> dst[..] == old(dst[..])
    ensures ok ==> dst[..] == old(dst[..at]) + Text4(src) + [NUL] + old(dst[at + |Text4(src)| + 1..])
  {
    var tmp := Text4(src);
    if |tmp| >= size { return false; }
    CopyText(dst, at, tmp);
    ok := true;
  }
}
