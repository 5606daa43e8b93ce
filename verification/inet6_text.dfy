/**
  `inet_ntop6` of `libuv/src/inet.c`: the leftmost longest run of zero words becomes "::", and an
  address that starts with zeros may end in dotted decimal.  What is printed reads as the address.
 */
module Inet6Text {
  import opened Bytes
  import opened Inet4
  import opened Inet6Grammar

  function HexChar(d: nat): (c: char)
    requires d < 16
    ensures HexDigit(c) == Some(d)
  {
    if d < 10 then ('0' as int + d) as char else ('a' as int + d - 10) as char
  }

  /** What `%x` prints for a word. */
  function HexText(w: nat): (s: string)
    requires w < 65536
    ensures 1 <= |s| <= (if w < 16 then 1 else if w < 256 then 2 else if w < 4096 then 3 else 4)
  {
    if w < 16 then [HexChar(w)] else HexText(w / 16) + [HexChar(w % 16)]
  }

  lemma ValOne(s: string, d: nat)
    requires AllHex(s) && d < 16
    ensures AllHex(s + [HexChar(d)]) && HexVal(s + [HexChar(d)]) == HexVal(s) * 16 + d
  {
    assert (s + [HexChar(d)])[..|s|] == s;
  }

  lemma {:induction false} HexTextValue(w: nat)
    requires w < 65536
    ensures AllHex(HexText(w)) && HexVal(HexText(w)) == w
  {
    if w < 16 {
      ValOne([], w);
      assert [] + [HexChar(w)] == HexText(w);
    } else {
      HexTextValue(w / 16);
      ValOne(HexText(w / 16), w % 16);
    }
  }

  // -- The words of an address and their zero runs ----------------------------------------------

  function High(b: nat): nat {
    b * 256
  }

  function WordAt(a: seq<byte>, i: nat): (w: nat)
    requires |a| == 16 && i < 8
    ensures w < 65536 && Word(w) == a[2 * i..2 * i + 2]
  {
    High(a[2 * i]) + a[2 * i + 1]
  }

  predicate WordsOf(w: seq<nat>, a: seq<byte>) {
    |a| == 16 && |w| == 8 && forall i :: 0 <= i < 8 ==> w[i] == WordAt(a, i)
  }

  predicate ZeroRun(w: seq<nat>, b: int, l: int) {
    0 <= b && 1 <= l && b + l <= |w| && forall k :: b <= k < b + l ==> w[k] == 0
  }

  /** `base` and `len` are at least as good as the run at `b`: longer, or as long and not further right. */
  predicate Beats(base: int, len: int, b: int, l: int) {
    base >= 0 && (l < len || (l == len && base <= b))
  }

  /** The leftmost of the longest runs of two zero words or more; there is none if `base` is negative. */
  ghost predicate BestRun(w: seq<nat>, base: int, len: int) {
    if base < 0 then
      base == -1 && forall b, l :: ZeroRun(w, b, l) ==> l < 2
    else
      ZeroRun(w, base, len) && len >= 2 && forall b, l :: ZeroRun(w, b, l) ==> Beats(base, len, b, l)
  }

  lemma BestRunUnique(w: seq<nat>, base: int, len: int, base': int, len': int)
    requires BestRun(w, base, len) && BestRun(w, base', len')
    ensures base == base' && (base >= 0 ==> len == len')
  {
    if base >= 0 { assert ZeroRun(w, base, len); }
    if base' >= 0 { assert ZeroRun(w, base', len'); }
  }

  /** The preprocessing of `inet_ntop6`: the run for "::". */
  method FindBest(words: array<nat>) returns (base: int, len: int)
    requires words.Length == 8
    ensures BestRun(words[..], base, len)
  {
    ghost var w := words[..];
    base, len := -1, 0;
    var curBase, curLen := -1, 0;
    for i := 0 to 8
      invariant base == -1 || (0 <= base && ZeroRun(w, base, len) && base + len <= i)
      invariant curBase >= -1 && (curBase == -1 ==> i == 0 || w[i - 1] != 0)
      invariant curBase >= 0 ==> ZeroRun(w, curBase, curLen) && curBase + curLen == i && (curBase == 0 || w[curBase - 1] != 0)
      invariant curBase >= 0 && base >= 0 ==> base < curBase
      invariant forall b, l :: ZeroRun(w, b, l) && b + l <= i && (curBase == -1 || b < curBase) ==> Beats(base, len, b, l)
    {
      if words[i] == 0 {
        if curBase == -1 {
          curBase, curLen := i, 1;
        } else {
          curLen := curLen + 1;
        }
      } else {
        if curBase != -1 {
          if base == -1 || curLen > len { base, len := curBase, curLen; }
          curBase := -1;
        }
      }
    }
    if curBase != -1 {
      if base == -1 || curLen > len { base, len := curBase, curLen; }
    }
    if base != -1 && len < 2 { base := -1; }
  }

  // -- The literal that is printed --------------------------------------------------------------

  /** The words from `i` to `j` as groups. */
  function Groups(a: seq<byte>, i: nat, j: nat): (gs: seq<Group>)
    requires |a| == 16 && i <= j <= 8
    ensures |gs| == j - i
    decreases j
  {
    if i == j then [] else Groups(a, i, j - 1) + [Hex(HexText(WordAt(a, j - 1)))]
  }

  lemma WordGroup(a: seq<byte>, i: nat)
    requires |a| == 16 && i < 8
    ensures var g := Hex(HexText(WordAt(a, i))); HexGroup(g) && GroupOctets(g) == a[2 * i..2 * i + 2]
  {
    HexTextValue(WordAt(a, i));
  }

  lemma Slices(a: seq<byte>, lo: nat, mid: nat, hi: nat)
    requires lo <= mid <= hi <= |a|
    ensures a[lo..mid] + a[mid..hi] == a[lo..hi]
  {
  }

  lemma {:induction false} GroupsRead(a: seq<byte>, i: nat, j: nat)
    requires |a| == 16 && i <= j <= 8
    ensures HexRun(Groups(a, i, j)) && HexOctets(Groups(a, i, j)) == a[2 * i..2 * j]
    decreases j
  {
    hide HexText, WordAt, GroupOctets, HexRun, HexOctets, ValidGroup, HexGroup, Groups;
    if i == j {
      GroupsEmpty(a, i);
    } else {
      GroupsRead(a, i, j - 1);
      WordGroup(a, j - 1);
      GroupsMore(a, i, j);
      var g := Hex(HexText(WordAt(a, j - 1)));
      HexIsValid(g);
      RunPush(Groups(a, i, j - 1), g);
      Slices(a, 2 * i, 2 * j - 2, 2 * j);
    }
  }

  lemma GroupsEmpty(a: seq<byte>, i: nat)
    requires |a| == 16 && i <= 8
    ensures Groups(a, i, i) == [] && HexRun([]) && HexOctets([]) == [] == a[2 * i..2 * i]
  {
  }

  lemma GroupsMore(a: seq<byte>, i: nat, j: nat)
    requires |a| == 16 && i < j <= 8
    ensures Groups(a, i, j) == Groups(a, i, j - 1) + [Hex(HexText(WordAt(a, j - 1)))]
  {
  }

  lemma HexIsValid(g: Group)
    requires HexGroup(g)
    ensures ValidGroup(g)
  {
  }

  /** An IPv4 address in an IPv6 one: six zero words, or five and then ffff. */
  predicate Embedded(a: seq<byte>, base: int, len: int)
    requires |a| == 16
  {
    base == 0 && (len == 6 || (len == 5 && WordAt(a, 5) == 0xffff))
  }

  function Tail(a: seq<byte>, base: int, len: int): seq<Group>
    requires |a| == 16 && 0 <= base && 2 <= len && base + len <= 8
  {
    if Embedded(a, base, len) then Groups(a, len, 6) + [Quad(a[12..])] else Groups(a, base + len, 8)
  }

  function Printed(a: seq<byte>, base: int, len: int): Literal
    requires |a| == 16 && (base >= 0 ==> 2 <= len && base + len <= 8)
  {
    if base < 0 then Literal(Groups(a, 0, 8), false, []) else Literal(Groups(a, 0, base), true, Tail(a, base, len))
  }

  lemma TailRead(a: seq<byte>, base: int, len: int)
    requires |a| == 16 && 0 <= base && 2 <= len && base + len <= 8
    ensures ValidRun(Tail(a, base, len)) && Octets(Tail(a, base, len)) == a[2 * (base + len)..]
  {
    hide HexText, WordAt, Groups, HexOctets, Octets, HexRun, ValidRun;
    if Embedded(a, base, len) {
      QuadRead(a, len);
    } else {
      GroupsRead(a, base + len, 8);
      HexRunOctets(Groups(a, base + len, 8));
      assert a[2 * (base + len)..16] == a[2 * (base + len)..];
    }
  }

  lemma QuadRead(a: seq<byte>, len: int)
    requires |a| == 16 && 2 <= len <= 6
    ensures ValidRun(Groups(a, len, 6) + [Quad(a[12..])]) && Octets(Groups(a, len, 6) + [Quad(a[12..])]) == a[2 * len..]
  {
    hide *;
    GroupsRead(a, len, 6);
    GroupIsQuad(a[12..]);
    RunPush(Groups(a, len, 6), Quad(a[12..]));
    assert a[2 * len..12] + a[12..] == a[2 * len..];
  }

  lemma ZeroWords(a: seq<byte>, w: seq<nat>, base: int, len: int)
    requires WordsOf(w, a) && ZeroRun(w, base, len)
    ensures a == a[0..2 * base] + Zeros(2 * len) + a[2 * (base + len)..]
  {
    forall k | 2 * base <= k < 2 * (base + len) ensures a[k] == 0 {
      assert w[k / 2] == WordAt(a, k / 2) == 0;
    }
  }

  /** The literal stands for the address. */
  lemma PrintedValue(a: seq<byte>, w: seq<nat>, base: int, len: int)
    requires WordsOf(w, a) && (base >= 0 ==> len >= 2 && ZeroRun(w, base, len))
    ensures WellFormed(Printed(a, base, len)) && Value(Printed(a, base, len)) == a
  {
    hide HexText, WordAt, Groups, HexRun, HexOctets, Octets, ValidRun, Tail, WordsOf, ZeroRun;
    WordsBound(w, a, base, len);
    if base < 0 {
      GroupsRead(a, 0, 8);
      HexRunOctets(Groups(a, 0, 8));
      assert a[0..16] == a;
    } else {
      GroupsRead(a, 0, base);
      TailRead(a, base, len);
      ZeroWords(a, w, base, len);
    }
  }

  lemma WordsBound(w: seq<nat>, a: seq<byte>, base: int, len: int)
    requires WordsOf(w, a) && (base >= 0 ==> len >= 2 && ZeroRun(w, base, len))
    ensures |a| == 16 && (base >= 0 ==> 2 <= len && base + len <= 8)
  {
  }

  /** `text` is the text of `a` with its best run left out. */
  ghost predicate Canonical(a: seq<byte>, text: string) {
    exists w, base, len :: WordsOf(w, a) && BestRun(w, base, len) && Shaped(Printed(a, base, len)) && text == Render(Printed(a, base, len))
  }

  lemma CanonicalUnique(a: seq<byte>, text: string, text': string)
    requires Canonical(a, text) && Canonical(a, text')
    ensures text == text'
  {
    hide Render, Printed;
    var w, base, len :| WordsOf(w, a) && BestRun(w, base, len) && Shaped(Printed(a, base, len)) && text == Render(Printed(a, base, len));
    var w', base', len' :| WordsOf(w', a) && BestRun(w', base', len') && Shaped(Printed(a, base', len')) && text' == Render(Printed(a, base', len'));
    assert w == w';
    BestRunUnique(w, base, len, base', len');
    SamePrinted(a, base, len, len');
  }

  lemma SamePrinted(a: seq<byte>, base: int, len: int, len': int)
    requires |a| == 16 && (base >= 0 ==> 2 <= len && base + len <= 8 && len == len')
    ensures Printed(a, base, len) == Printed(a, base, len')
  {
  }

  /** Reading what is printed gives back the address. */
  lemma RoundTrip6(a: seq<byte>, text: string)
    requires Canonical(a, text)
    ensures Parse6(text) == Some(a)
  {
    hide Render, Value, Parse6;
    var w, base, len :| WordsOf(w, a) && BestRun(w, base, len) && Shaped(Printed(a, base, len)) && text == Render(Printed(a, base, len));
    PrintedValue(a, w, base, len);
    Complete6(Printed(a, base, len));
  }

  // -- Printing ---------------------------------------------------------------------------------

  /** The text that has been written before word `i`. */
  function Progress(a: seq<byte>, base: int, len: int, i: nat): string
    requires |a| == 16 && i <= 8 && (base >= 0 ==> 2 <= len && base + len <= 8)
  {
    if base < 0 || i <= base then GroupsText(a, 0, i)
    else if i <= base + len then GroupsText(a, 0, base) + ":"
    else GroupsText(a, 0, base) + "::" + GroupsText(a, base + len, i)
  }

  function GroupsText(a: seq<byte>, i: nat, j: nat): string
    requires |a| == 16 && i <= j <= 8
  {
    if i == j then "" else if i == j - 1 then HexText(WordAt(a, i)) else GroupsText(a, i, j - 1) + ":" + HexText(WordAt(a, j - 1))
  }

  lemma {:induction false} GroupsJoin(a: seq<byte>, i: nat, j: nat)
    requires |a| == 16 && i <= j <= 8
    ensures HexRun(Groups(a, i, j)) && ValidRun(Groups(a, i, j)) && Join(Groups(a, i, j)) == GroupsText(a, i, j)
    ensures Trail(Groups(a, i, j)) == if i == j then "" else GroupsText(a, i, j) + ":"
    decreases j
  {
    hide HexText, WordAt;
    GroupsRead(a, i, j);
    if i < j {
      GroupsJoin(a, i, j - 1);
      assert Groups(a, i, j)[..j - i - 1] == Groups(a, i, j - 1);
      if i == j - 1 { assert "" + HexText(WordAt(a, i)) == HexText(WordAt(a, i)); }
    }
  }

  lemma {:induction false} GroupsTextSize(a: seq<byte>, i: nat, j: nat)
    requires |a| == 16 && i <= j <= 8
    ensures |GroupsText(a, i, j)| <= 5 * (j - i) && (i + 1 == j ==> |GroupsText(a, i, j)| <= 4)
    decreases j
  {
    hide HexText, WordAt;
    if i + 1 < j { GroupsTextSize(a, i, j - 1); }
  }

  /** The buffer of 46 characters is large enough. */
  lemma ProgressSize(a: seq<byte>, base: int, len: int, i: nat)
    requires |a| == 16 && i <= 8 && (base >= 0 ==> 2 <= len && base + len <= 8)
    ensures |Progress(a, base, len, i)| <= 5 * i
    ensures i == 6 && Embedded(a, base, len) ==> |Progress(a, base, len, i)| <= 6
  {
    hide HexText, WordAt, GroupsText;
    if base < 0 || i <= base {
      GroupsTextSize(a, 0, i);
    } else {
      GroupsTextSize(a, 0, base);
      GroupsNone(a, 0);
      if i > base + len { GroupsTextSize(a, base + len, i); }
    }
  }

  lemma GroupsNone(a: seq<byte>, i: nat)
    requires |a| == 16 && i <= 8
    ensures GroupsText(a, i, i) == ""
  {
  }

  predicate Inside(base: int, len: int, i: nat) {
    base != -1 && base <= i < base + len
  }

  /**
    At word 6 the code's test for an embedded IPv4 address is `Embedded`: its alternative for seven words
    never decides, since a run of seven from the start covers word 6, and that word is skipped.
   */
  lemma EmbeddedTest(w: seq<nat>, a: seq<byte>, base: int, len: int)
    requires WordsOf(w, a) && BestRun(w, base, len)
    ensures base == 0 && len == 7 ==> Inside(base, len, 6)
    ensures Inside(base, len, 6) ==> !Embedded(a, base, len)
    ensures !Inside(base, len, 6) ==>
      (base == 0 && (len == 6 || (len == 7 && w[7] != 1) || (len == 5 && w[5] == 0xffff)) <==> Embedded(a, base, len))
  {
    assert w[5] == WordAt(a, 5);
  }

  /** A word inside the run writes a colon at most. */
  lemma ProgressInside(a: seq<byte>, base: int, len: int, i: nat)
    requires |a| == 16 && i < 8 && base >= -1 && (base >= 0 ==> 2 <= len && base + len <= 8) && Inside(base, len, i)
    ensures Progress(a, base, len, i + 1) == if i == base then Progress(a, base, len, i) + ":" else Progress(a, base, len, i)
  {
    hide HexText, WordAt, GroupsText;
  }

  /** Any other word is written after a colon, unless it is the first. */
  lemma ProgressWord(a: seq<byte>, base: int, len: int, i: nat)
    requires |a| == 16 && i < 8 && base >= -1 && (base >= 0 ==> 2 <= len && base + len <= 8) && !Inside(base, len, i)
    ensures Progress(a, base, len, i + 1) == Progress(a, base, len, i) + (if i != 0 then ":" else "") + HexText(WordAt(a, i))
  {
    hide HexText, WordAt;
    if base < 0 || i < base {
      if i == 0 { assert "" + "" + HexText(WordAt(a, 0)) == HexText(WordAt(a, 0)); }
    } else {
      var h, t := GroupsText(a, 0, base), HexText(WordAt(a, i));
      if i == base + len {
        assert h + "::" + t == h + ":" + ":" + t;
      } else {
        assert h + "::" + (GroupsText(a, base + len, i) + ":" + t) == h + "::" + GroupsText(a, base + len, i) + ":" + t;
      }
    }
  }

  /** The whole text, when no IPv4 address is embedded. */
  lemma ProgressEnd(a: seq<byte>, base: int, len: int)
    requires |a| == 16 && base >= -1 && (base >= 0 ==> 2 <= len && base + len <= 8) && !Embedded(a, base, len)
    ensures Shaped(Printed(a, base, len))
    ensures Render(Printed(a, base, len)) == Progress(a, base, len, 8) + (if base != -1 && base + len == 8 then ":" else "")
  {
    hide HexText, WordAt, GroupsText, Groups, Trail, Join, HexRun, ValidRun;
    if base < 0 {
      GroupsJoin(a, 0, 8);
      NoGroups();
    } else {
      GroupsJoin(a, 0, base);
      GroupsJoin(a, base + len, 8);
      GroupsNone(a, 0);
      GroupsNone(a, 8);
      var h, t := GroupsText(a, 0, base), GroupsText(a, base + len, 8);
      if base == 0 {
        assert "::" + t == "" + "::" + t;
      } else {
        assert h + ":" + ":" + t == h + "::" + t;
      }
      if base + len == 8 { assert h + "::" + "" == h + ":" + ":"; }
    }
  }

  /** The whole text, when an IPv4 address is embedded. */
  lemma ProgressQuad(a: seq<byte>, base: int, len: int)
    requires |a| == 16 && base + len <= 8 && Embedded(a, base, len)
    ensures Shaped(Printed(a, base, len))
    ensures Render(Printed(a, base, len)) == Progress(a, base, len, 6) + ":" + Text4(a[12..])
  {
    hide HexText, WordAt, GroupsText, Groups, Trail, Join, HexRun, ValidRun, Text4;
    GroupsJoin(a, 0, 0);
    GroupsJoin(a, len, 6);
    GroupsNone(a, 0);
    GroupsNone(a, 6);
    RunPush(Groups(a, len, 6), Quad(a[12..]));
    var t := GroupsText(a, len, 6);
    if len == 6 {
      assert "::" + ("" + Text4(a[12..])) == ("" + ":") + ":" + Text4(a[12..]);
    } else {
      assert "::" + (t + ":" + Text4(a[12..])) == ("" + "::" + t) + ":" + Text4(a[12..]);
    }
  }

  /** `words[i / 2] |= src[i] << ((1 - (i % 2)) << 3)` for each octet; the bits do not meet. */
  method CopyWords(src: seq<byte>) returns (words: array<nat>)
    requires |src| == 16
    ensures fresh(words) && words.Length == 8 && WordsOf(words[..], src)
  {
    words := new nat[8](_ => 0);
    for i := 0 to 16
      invariant forall k :: 0 <= k < 8 ==> words[k] == (if 2 * k + 1 < i then WordAt(src, k) else if 2 * k < i then High(src[2 * k]) else 0)
    {
      words[i / 2] := words[i / 2] + (if i % 2 == 0 then High(src[i]) else src[i]);
    }
  }

  /** `*tp++ = ':'`. */
  method PutColon(tmp: array<char>, tp: nat)
    requires tp < tmp.Length
    modifies tmp
    ensures tmp[..tp + 1] == old(tmp[..tp]) + ":"
  {
    tmp[tp] := ':';
  }

  /** A colon, unless this is the first word. */
  method PutSeparator(tmp: array<char>, tp0: nat, i: nat) returns (tp: nat)
    requires tp0 < tmp.Length
    modifies tmp
    ensures tp == (if i != 0 then tp0 + 1 else tp0) && tmp[..tp] == old(tmp[..tp0]) + (if i != 0 then ":" else "")
  {
    tp := tp0;
    if i != 0 {
      PutColon(tmp, tp);
      tp := tp + 1;
    }
  }

  method PutText(tmp: array<char>, tp0: nat, s: string) returns (tp: nat)
    requires tp0 + |s| < tmp.Length
    modifies tmp
    ensures tp == tp0 + |s| && tmp[..tp] == old(tmp[..tp0]) + s
  {
    CopyText(tmp, tp0, s);
    tp := tp0 + |s|;
    assert tmp[..tp] == tmp[..][..tp];
  }

  /** The last four octets in dotted decimal. */
  method PutQuad(src: seq<byte>, tmp: array<char>, tp0: nat) returns (ok: bool, tp: nat)
    requires |src| == 16 && tp0 <= 7 && tmp.Length == 46
    modifies tmp
    ensures ok && tp0 <= tp <= 45 && tmp[..tp] == old(tmp[..tp0]) + Text4(src[12..])
  {
    hide Text4;
    ghost var t := Text4(src[12..]);
    ok := Ntop4(src[12..16], tmp, tp0, 46 - tp0);
    assert src[12..16] == src[12..] && tmp[..tp0 + |t|] == tmp[..][..tp0 + |t|];
    tp := tp0 + |Text4(src[12..])|;
  }

  /** The formatting part of `inet_ntop6`: the text in `tmp[..tp]`. */
  method Format(src: seq<byte>, words: array<nat>, base: int, len: int, tmp: array<char>) returns (ok: bool, tp: nat)
    requires WordsOf(words[..], src) && BestRun(words[..], base, len) && tmp.Length == 46
    modifies tmp
    ensures ok && tp <= 45 && Shaped(Printed(src, base, len)) && tmp[..tp] == Render(Printed(src, base, len))
  {
    hide Shaped, Render, Printed, Progress, HexText, WordAt, Text4, Embedded, BestRun;
    ghost var w := words[..];
    RunBounds(w, base, len);
    var last := words[7];
    EmbeddedTest(w, src, base, len);
    ok, tp := true, 0;
    ProgressStart(src, base, len);
    var i := 0;
    while i < 8
      invariant i <= 8 && tp <= 5 * i && tmp[..tp] == Progress(src, base, len, i)
      invariant i > 6 ==> !Embedded(src, base, len)
      decreases 8 - i
    {
      assert words[..][i] == WordAt(src, i);
      if base != -1 && i >= base && i < base + len {
        ProgressInside(src, base, len, i);
        if i == base {
          PutColon(tmp, tp);
          tp := tp + 1;
        }
        i := i + 1;
        continue;
      }
      ProgressSize(src, base, len, i);
      tp := PutSeparator(tmp, tp, i);
      if i == 6 && base == 0 && (len == 6 || (len == 7 && last != 1) || (len == 5 && words[5] == 0xffff)) {
        ProgressQuad(src, base, len);
        ok, tp := PutQuad(src, tmp, tp);
        return;
      }
      ProgressWord(src, base, len, i);
      tp := PutText(tmp, tp, HexText(words[i]));
      i := i + 1;
    }
    ProgressEnd(src, base, len);
    if base != -1 && base + len == 8 {
      PutColon(tmp, tp);
      tp := tp + 1;
    }
  }

  lemma RunBounds(w: seq<nat>, base: int, len: int)
    requires |w| == 8 && BestRun(w, base, len)
    ensures base >= -1 && (base >= 0 ==> 2 <= len && base + len <= 8)
  {
  }

  lemma ProgressStart(a: seq<byte>, base: int, len: int)
    requires |a| == 16 && (base >= 0 ==> 2 <= len && base + len <= 8)
    ensures Progress(a, base, len, 0) == ""
  {
  }

  /**
    `inet_ntop6`: the canonical text and a NUL in `dst`, or `UV_ENOSPC` if they do not fit in
    `size` characters.
   */
  method Ntop6(src: seq<byte>, dst: array<char>, size: nat) returns (ok: bool, ghost text: string)
    requires |src| == 16 && size <= dst.Length
    modifies dst
    ensures Canonical(src, text) && Parse6(text) == Some(src) && |text| <= 45
    ensures ok == (|text| + 1 <= size)
    ensures dst[..] == if ok then text + [NUL] + old(dst[|text| + 1..]) else old(dst[..])
  {
    hide Parse6, Render, Printed, BestRun;
    var words := CopyWords(src);
    var base, len := FindBest(words);
    var tmp := new char[46];
    var tp;
    ok, tp := Format(src, words, base, len, tmp);
    text := tmp[..tp];
    assert WordsOf(words[..], src) && BestRun(words[..], base, len);
    RoundTrip6(src, text);
    if !ok || tp + 1 > size { return false, text; }
    CopyText(dst, 0, tmp[..tp]);
    ok := true;
  }
}
