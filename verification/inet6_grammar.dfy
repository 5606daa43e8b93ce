/**
  The text form of IPv6 addresses (section 2.2 of RFC 4291) and what reading it means: `Scan6` says
  what the parser of `libuv/src/inet.c` makes of a text, and the lemmas show that it accepts exactly
  the literals of the grammar below.
 */
module Inet6Grammar {
  import opened Bytes
  import opened Inet4

  function HexDigit(c: char): (v: Option<nat>)
    ensures v.Some? ==> v.value < 16
  {
    if '0' <= c <= '9' then Some(c as int - '0' as int)
    else if 'a' <= c <= 'f' then Some(c as int - 'a' as int + 10)
    else if 'A' <= c <= 'F' then Some(c as int - 'A' as int + 10)
    else None
  }

  predicate AllHex(s: string) {
    forall k :: 0 <= k < |s| ==> HexDigit(s[k]).Some?
  }

  /** The value of a token of hexadecimal digits. */
  function HexVal(s: string): (v: nat)
    requires AllHex(s)
    ensures |s| <= 4 ==> v < 65536
    ensures |s| <= 3 ==> v < 4096
    ensures |s| <= 2 ==> v < 256
    ensures |s| <= 1 ==> v < 16
  {
    if s == "" then 0 else HexVal(s[..|s| - 1]) * 16 + HexDigit(s[|s| - 1]).value
  }

  /** The two octets of a 16-bit word. */
  function Word(v: nat): seq<byte>
    requires v < 65536
  {
    [v / 256, v % 256]
  }

  // -- The grammar ------------------------------------------------------------------------------

  datatype Group = Hex(digits: string) | Quad(octets: seq<byte>)

  predicate HexGroup(g: Group) {
    g.Hex? && 1 <= |g.digits| <= 4 && AllHex(g.digits)
  }

  predicate ValidGroup(g: Group) {
    HexGroup(g) || (g.Quad? && |g.octets| == 4)
  }

  function GroupText(g: Group): string
    requires ValidGroup(g)
  {
    if g.Hex? then g.digits else Text4(g.octets)
  }

  function GroupOctets(g: Group): seq<byte>
    requires ValidGroup(g)
  {
    if g.Hex? then Word(HexVal(g.digits)) else g.octets
  }

  predicate HexRun(gs: seq<Group>) {
    forall k :: 0 <= k < |gs| ==> HexGroup(gs[k])
  }

  /** Groups of which the last may be dotted decimal. */
  predicate ValidRun(gs: seq<Group>) {
    gs == [] || (HexRun(gs[..|gs| - 1]) && ValidGroup(gs[|gs| - 1]))
  }

  /** Groups, each followed by a colon. */
  function Trail(gs: seq<Group>): string
    requires HexRun(gs)
  {
    if gs == [] then "" else Trail(gs[..|gs| - 1]) + GroupText(gs[|gs| - 1]) + ":"
  }

  /** Groups with colons between them. */
  function Join(gs: seq<Group>): string
    requires ValidRun(gs)
  {
    if gs == [] then "" else Trail(gs[..|gs| - 1]) + GroupText(gs[|gs| - 1])
  }

  function HexOctets(gs: seq<Group>): (o: seq<byte>)
    requires HexRun(gs)
    ensures |o| == 2 * |gs|
  {
    if gs == [] then [] else HexOctets(gs[..|gs| - 1]) + GroupOctets(gs[|gs| - 1])
  }

  function Octets(gs: seq<Group>): seq<byte>
    requires ValidRun(gs)
  {
    if gs == [] then [] else HexOctets(gs[..|gs| - 1]) + GroupOctets(gs[|gs| - 1])
  }

  lemma HexRunOctets(gs: seq<Group>)
    requires HexRun(gs)
    ensures ValidRun(gs) && Octets(gs) == HexOctets(gs)
  {
  }

  /** The groups before and after a "::", if there is one (`gap`), else all of them in `head`. */
  datatype Literal = Literal(head: seq<Group>, gap: bool, tail: seq<Group>)

  /** Where a dotted group may stand. */
  predicate Shaped(t: Literal) {
    if t.gap then HexRun(t.head) && ValidRun(t.tail) else ValidRun(t.head) && t.tail == []
  }

  function AllOctets(t: Literal): seq<byte>
    requires Shaped(t)
  {
    if t.gap then HexOctets(t.head) + Octets(t.tail) else Octets(t.head)
  }

  /** "::" stands for at least one octet; without it the groups make sixteen. */
  predicate WellFormed(t: Literal) {
    Shaped(t) && if t.gap then |AllOctets(t)| < 16 else |AllOctets(t)| == 16
  }

  function Render(t: Literal): string
    requires Shaped(t)
  {
    if !t.gap then Join(t.head)
    else if t.head == [] then "::" + Join(t.tail)
    else Trail(t.head) + ":" + Join(t.tail)
  }

  function Zeros(n: nat): seq<byte> {
    seq(n, _ => 0)
  }

  /** The address a literal stands for. */
  function Value(t: Literal): (a: seq<byte>)
    requires WellFormed(t)
    ensures |a| == 16
  {
    if t.gap then HexOctets(t.head) + Zeros(16 - |AllOctets(t)|) + Octets(t.tail) else Octets(t.head)
  }

  // -- What the parser computes -----------------------------------------------------------------

  /** The end of the text: the last token is added, the octets after the gap go to the end. */
  function Finish(tok: string, out: seq<byte>, colon: Option<nat>): Option<seq<byte>>
    requires AllHex(tok) && |tok| <= 4 && (colon.Some? ==> colon.value <= |out|)
  {
    if tok != "" && |out| > 14 then None
    else
      var o := if tok != "" then out + Word(HexVal(tok)) else out;
      if colon.Some? then
        if |o| >= 16 then None else Some(o[..colon.value] + Zeros(16 - |o|) + o[colon.value..])
      else if |o| == 16 then Some(o) else None
  }

  /**
    Reading the rest `s` of a text: `tok` are the digits of the current token, `out` the octets
    so far and `colon` the place of the gap in them.
   */
  function Scan6(s: string, tok: string, out: seq<byte>, colon: Option<nat>): Option<seq<byte>>
    requires AllHex(tok) && |tok| <= 4 && (colon.Some? ==> colon.value <= |out|)
    decreases |s|
  {
    if s == "" then Finish(tok, out, colon)
    else if HexDigit(s[0]).Some? then
      if |tok| == 4 then None else Scan6(s[1..], tok + [s[0]], out, colon)
    else if s[0] == ':' then
      if tok == "" then
        if colon.Some? then None else Scan6(s[1..], "", out, Some(|out|))
      else if |s| == 1 || |out| > 14 then None
      else Scan6(s[1..], "", out + Word(HexVal(tok)), colon)
    else if s[0] == '.' && |out| <= 12 then
      var q := Parse4(tok + s);
      if q.Some? then Finish("", out + q.value, colon) else None
    else None
  }

  /** A leading colon has to be followed by another one, and is skipped. */
  function Parse6(s: string): Option<seq<byte>> {
    if s != "" && s[0] == ':' then
      if |s| > 1 && s[1] == ':' then Scan6(s[1..], "", [], None) else None
    else
      Scan6(s, "", [], None)
  }

  /** How the scan goes on after one more character of the text, when it does. */
  lemma ScanOne(s: string, tok: string, out: seq<byte>, colon: Option<nat>)
    requires AllHex(tok) && |tok| <= 4 && (colon.Some? ==> colon.value <= |out|) && s != ""
    ensures
      var next := Scan6(s, tok, out, colon);
      if HexDigit(s[0]).Some? then
        AllHex(tok + [s[0]]) && next == if |tok| == 4 then None else Scan6(s[1..], tok + [s[0]], out, colon)
      else if s[0] == ':' && tok == "" then
        next == if colon.Some? then None else Scan6(s[1..], "", out, Some(|out|))
      else if s[0] == ':' then
        next == if |s| == 1 || |out| > 14 then None else Scan6(s[1..], "", out + Word(HexVal(tok)), colon)
      else if s[0] == '.' && |out| <= 12 && Parse4(tok + s).Some? then
        next == Finish("", out + Parse4(tok + s).value, colon)
      else
        next == None
  {
  }

  // -- Every literal is read as its value -------------------------------------------------------

  lemma {:induction false} ScanDigits(d: string, s: string, tok: string, out: seq<byte>, colon: Option<nat>)
    requires AllHex(tok) && AllHex(d) && |tok| + |d| <= 4 && (colon.Some? ==> colon.value <= |out|)
    ensures AllHex(tok + d) && Scan6(d + s, tok, out, colon) == Scan6(s, tok + d, out, colon)
    decreases |d|
  {
    if d == "" {
      assert d + s == s && tok + d == tok;
    } else {
      ScanDigits(d[1..], s, tok + [d[0]], out, colon);
      assert (d + s)[1..] == d[1..] + s && tok + [d[0]] + d[1..] == tok + d;
    }
  }

  lemma ScanGroup(g: Group, s: string, out: seq<byte>, colon: Option<nat>)
    requires HexGroup(g) && s != "" && |out| <= 14 && (colon.Some? ==> colon.value <= |out|)
    ensures Scan6(GroupText(g) + ":" + s, "", out, colon) == Scan6(s, "", out + GroupOctets(g), colon)
  {
    var t := g.digits;
    ScanDigits(t, ":" + s, "", out, colon);
    assert t + ":" + s == t + (":" + s) && "" + t == t && (":" + s)[1..] == s;
  }

  lemma {:induction false} ScanTrail(gs: seq<Group>, s: string, out: seq<byte>, colon: Option<nat>)
    requires HexRun(gs) && s != "" && |out| + 2 * |gs| <= 16 && (colon.Some? ==> colon.value <= |out|)
    ensures Scan6(Trail(gs) + s, "", out, colon) == Scan6(s, "", out + HexOctets(gs), colon)
    decreases |gs|
  {
    hide GroupText, GroupOctets, Scan6, HexGroup;
    if gs == [] {
      assert Trail(gs) + s == s && out + HexOctets(gs) == out;
    } else {
      var init, g := gs[..|gs| - 1], gs[|gs| - 1];
      ScanTrail(init, GroupText(g) + ":" + s, out, colon);
      ScanGroup(g, s, out + HexOctets(init), colon);
      assert Trail(gs) + s == Trail(init) + (GroupText(g) + ":" + s);
      assert out + HexOctets(gs) == out + HexOctets(init) + GroupOctets(g);
    }
  }

  lemma DecHex(n: byte)
    ensures AllHex(Dec(n))
  {
  }

  lemma ScanQuad(q: seq<byte>, out: seq<byte>, colon: Option<nat>)
    requires |q| == 4 && |out| <= 12 && (colon.Some? ==> colon.value <= |out|)
    ensures Scan6(Text4(q), "", out, colon) == Finish("", out + q, colon)
  {
    hide Dec, Parse4, Finish;
    var rest := "." + (Dec(q[1]) + "." + Dec(q[2]) + "." + Dec(q[3]));
    assert Text4(q) == Dec(q[0]) + rest;
    DecHex(q[0]);
    ScanDigits(Dec(q[0]), rest, "", out, colon);
    assert "" + Dec(q[0]) == Dec(q[0]);
    Complete4(q);
  }

  lemma ScanLast(g: Group, out: seq<byte>, colon: Option<nat>)
    requires ValidGroup(g) && |out| + |GroupOctets(g)| <= 16 && (colon.Some? ==> colon.value <= |out|)
    ensures Scan6(GroupText(g), "", out, colon) == Finish("", out + GroupOctets(g), colon)
  {
    hide Dec, Text4, HexVal, Scan6, Finish, Word;
    if g.Hex? {
      var d := g.digits;
      ScanDigits(d, "", "", out, colon);
      assert d + "" == d && "" + d == d;
      WordLength(HexVal(d));
      ScanToken(d, out, colon);
    } else {
      ScanQuad(g.octets, out, colon);
    }
  }

  lemma ScanToken(tok: string, out: seq<byte>, colon: Option<nat>)
    requires AllHex(tok) && 1 <= |tok| <= 4 && |out| <= 14 && (colon.Some? ==> colon.value <= |out|)
    ensures Scan6("", tok, out, colon) == Finish("", out + Word(HexVal(tok)), colon)
  {
    hide HexVal, Word;
    WordLength(HexVal(tok));
  }

  lemma WordLength(v: nat)
    requires v < 65536
    ensures |Word(v)| == 2
  {
  }

  lemma ScanJoin(gs: seq<Group>, out: seq<byte>, colon: Option<nat>)
    requires ValidRun(gs) && |out| + |Octets(gs)| <= 16 && (colon.Some? ==> colon.value <= |out|)
    ensures Scan6(Join(gs), "", out, colon) == Finish("", out + Octets(gs), colon)
  {
    hide GroupText, GroupOctets, Scan6, Finish, Trail, HexOctets, ValidGroup, HexGroup;
    if gs == [] {
      assert out + Octets(gs) == out;
      ScanEnd(out, colon);
    } else {
      var init, g := gs[..|gs| - 1], gs[|gs| - 1];
      var o := out + HexOctets(init);
      GroupStart(g);
      ScanTrail(init, GroupText(g), out, colon);
      assert out + Octets(gs) == o + GroupOctets(g);
      ScanLast(g, o, colon);
    }
  }

  lemma ScanEnd(out: seq<byte>, colon: Option<nat>)
    requires colon.Some? ==> colon.value <= |out|
    ensures Scan6("", "", out, colon) == Finish("", out, colon)
  {
  }

  lemma JoinStart(gs: seq<Group>)
    requires ValidRun(gs) && gs != []
    ensures Join(gs) != "" && HexDigit(Join(gs)[0]).Some?
  {
    var init, g := gs[..|gs| - 1], gs[|gs| - 1];
    GroupStart(g);
    if init != [] { TrailStart(init); }
  }

  lemma GroupStart(g: Group)
    requires ValidGroup(g)
    ensures GroupText(g) != "" && HexDigit(GroupText(g)[0]).Some?
  {
    if g.Quad? { DecHex(g.octets[0]); }
  }

  lemma {:induction false} TrailStart(gs: seq<Group>)
    requires HexRun(gs) && gs != []
    ensures Trail(gs) != "" && HexDigit(Trail(gs)[0]).Some?
    decreases |gs|
  {
    var init, g := gs[..|gs| - 1], gs[|gs| - 1];
    GroupStart(g);
    if init != [] { TrailStart(init); }
  }

  lemma GapValue(t: Literal)
    requires WellFormed(t) && t.gap
    ensures var h := HexOctets(t.head); Finish("", h + Octets(t.tail), Some(|h|)) == Some(Value(t))
  {
    hide HexOctets, Octets, HexRun, ValidRun;
    var h, o := HexOctets(t.head), Octets(t.tail);
    assert (h + o)[..|h|] == h && (h + o)[|h|..] == o;
  }

  lemma CompleteGap(t: Literal)
    requires WellFormed(t) && t.gap
    ensures Scan6(Trail(t.head) + ":" + Join(t.tail), "", [], None) == Some(Value(t))
  {
    hide Scan6, Trail, HexRun, ValidRun, Join, Octets, HexOctets, Finish, Value;
    var rest, o := ":" + Join(t.tail), HexOctets(t.head);
    assert Trail(t.head) + ":" + Join(t.tail) == Trail(t.head) + rest;
    ScanTrail(t.head, rest, [], None);
    assert [] + o == o;
    GapStep(Join(t.tail), o);
    ScanJoin(t.tail, o, Some(|o|));
    GapValue(t);
  }

  lemma CompleteWhole(t: Literal)
    requires WellFormed(t) && !t.gap
    ensures Scan6(Join(t.head), "", [], None) == Some(Value(t))
  {
    hide Scan6, Trail, HexRun, ValidRun, Join;
    ScanJoin(t.head, [], None);
    assert [] + Octets(t.head) == Octets(t.head);
  }

  /** `Parse6` reads every literal as its value. */
  lemma Complete6(t: Literal)
    requires WellFormed(t)
    ensures Parse6(Render(t)) == Some(Value(t))
  {
    hide Scan6, Value, Body;
    BodyStart(t);
    if t.gap {
      CompleteGap(t);
      assert (":" + Body(t))[1..] == Body(t);
      BodyIs(t);
    } else {
      CompleteWhole(t);
      BodyIs(t);
    }
  }

  lemma BodyIs(t: Literal)
    requires Shaped(t)
    ensures Body(t) == if t.gap then Trail(t.head) + ":" + Join(t.tail) else Join(t.head)
  {
  }

  lemma GapStep(s: string, out: seq<byte>)
    ensures Scan6(":" + s, "", out, None) == Scan6(s, "", out, Some(|out|))
  {
    assert (":" + s)[1..] == s;
  }

  // -- Nothing but literals is read -------------------------------------------------------------

  /** The text read so far, without a skipped colon, when `t` has been read and each group is closed. */
  function Lead(t: Literal): string
    requires HexRun(t.head) && HexRun(t.tail)
  {
    if t.gap then Trail(t.head) + ":" + Trail(t.tail) else Trail(t.head)
  }

  /** The text of a literal without the colon that is skipped. */
  function Body(t: Literal): string
    requires Shaped(t)
  {
    if t.gap then Trail(t.head) + ":" + Join(t.tail) else Join(t.head)
  }

  function Push(t: Literal, g: Group): Literal {
    if t.gap then t.(tail := t.tail + [g]) else t.(head := t.head + [g])
  }

  /** `t` has been read into `out` and `colon`. */
  predicate Read(t: Literal, out: seq<byte>, colon: Option<nat>) {
    && HexRun(t.head) && HexRun(t.tail) && (t.gap || t.tail == [])
    && out == HexOctets(t.head) + HexOctets(t.tail)
    && colon == if t.gap then Some(2 * |t.head|) else None
  }

  lemma RunPush(gs: seq<Group>, g: Group)
    requires HexRun(gs) && ValidGroup(g)
    ensures ValidRun(gs + [g]) && Join(gs + [g]) == Trail(gs) + GroupText(g)
    ensures Octets(gs + [g]) == HexOctets(gs) + GroupOctets(g)
    ensures HexGroup(g) ==> HexRun(gs + [g]) && Trail(gs + [g]) == Trail(gs) + GroupText(g) + ":"
    ensures HexGroup(g) ==> HexOctets(gs + [g]) == HexOctets(gs) + GroupOctets(g)
  {
    hide GroupText, GroupOctets;
    assert (gs + [g])[..|gs|] == gs;
  }

  /** A group that a colon closes. */
  lemma ReadGroup(t: Literal, g: Group, out: seq<byte>, colon: Option<nat>)
    requires Read(t, out, colon) && HexGroup(g)
    ensures Read(Push(t, g), out + GroupOctets(g), colon) && Lead(Push(t, g)) == Lead(t) + GroupText(g) + ":"
  {
    hide GroupText, GroupOctets, Trail, HexOctets;
    RunPush(if t.gap then t.tail else t.head, g);
    if t.gap {
      assert HexOctets(t.head) + (HexOctets(t.tail) + GroupOctets(g)) == out + GroupOctets(g);
    } else {
      NoGroups();
      assert out == HexOctets(t.head);
    }
  }

  lemma NoGroups()
    ensures HexRun([]) && HexOctets([]) == [] && Trail([]) == "" && ValidRun([]) && Octets([]) == [] && Join([]) == ""
  {
  }

  /** The last group. */
  lemma ReadLast(t: Literal, g: Group, out: seq<byte>, colon: Option<nat>)
    requires Read(t, out, colon) && ValidGroup(g)
    ensures Shaped(Push(t, g)) && Body(Push(t, g)) == Lead(t) + GroupText(g) && AllOctets(Push(t, g)) == out + GroupOctets(g)
  {
    hide GroupText, GroupOctets, Trail, HexOctets, Join, Octets, ValidRun;
    RunPush(if t.gap then t.tail else t.head, g);
    NoGroups();
    if t.gap {
      assert HexOctets(t.head) + (HexOctets(t.tail) + GroupOctets(g)) == out + GroupOctets(g);
    } else {
      assert out == HexOctets(t.head);
    }
  }

  /** A literal whose octets the parser finishes is well-formed, and its value is what comes out. */
  lemma FinishValue(u: Literal, o: seq<byte>, colon: Option<nat>)
    requires Shaped(u) && AllOctets(u) == o && colon == if u.gap then Some(2 * |u.head|) else None
    requires (colon.Some? ==> colon.value <= |o|) && Finish("", o, colon).Some?
    ensures WellFormed(u) && Value(u) == Finish("", o, colon).value
  {
    if u.gap {
      var h := HexOctets(u.head);
      assert o[..|h|] == h && o[|h|..] == Octets(u.tail);
    }
  }

  lemma FinishToken(tok: string, out: seq<byte>, colon: Option<nat>)
    requires AllHex(tok) && 1 <= |tok| <= 4 && (colon.Some? ==> colon.value <= |out|) && Finish(tok, out, colon).Some?
    ensures Finish(tok, out, colon) == Finish("", out + GroupOctets(Hex(tok)), colon)
  {
  }

  predicate GroupPending(t: Literal) {
    if t.gap then t.tail != [] else t.head != []
  }

  lemma ReadAll(t: Literal, out: seq<byte>, colon: Option<nat>)
    requires Read(t, out, colon) && !GroupPending(t)
    ensures Shaped(t) && Body(t) == Lead(t) && AllOctets(t) == out
  {
    NoGroups();
    assert HexOctets(t.head) + [] == HexOctets(t.head);
  }

  /** The end of the text. */
  lemma SoundEnd6(tok: string, out: seq<byte>, colon: Option<nat>, t: Literal) returns (u: Literal)
    requires Read(t, out, colon) && AllHex(tok) && |tok| <= 4 && (tok == "" ==> !GroupPending(t))
    requires Finish(tok, out, colon).Some?
    ensures WellFormed(u) && Body(u) == Lead(t) + tok && Value(u) == Finish(tok, out, colon).value
  {
    hide Finish, Body, Lead, Value;
    if tok == "" {
      u := t;
      ReadAll(t, out, colon);
      FinishValue(t, out, colon);
      assert Lead(t) + tok == Lead(t);
    } else {
      var g := Hex(tok);
      u := Push(t, g);
      ReadLast(t, g, out, colon);
      FinishToken(tok, out, colon);
      FinishValue(u, out + GroupOctets(g), colon);
    }
  }

  lemma {:induction false} Sound6(s: string, tok: string, out: seq<byte>, colon: Option<nat>, t: Literal) returns (u: Literal)
    requires Read(t, out, colon) && AllHex(tok) && |tok| <= 4 && (s == "" && tok == "" ==> !GroupPending(t))
    requires Scan6(s, tok, out, colon).Some?
    ensures WellFormed(u) && Body(u) == Lead(t) + tok + s && Value(u) == Scan6(s, tok, out, colon).value
    decreases |s|
  {
    hide Finish, Body, Lead, Value, GroupOctets, GroupText, HexOctets, HexVal, WellFormed, Parse4, Zeros;
    if s == "" {
      ScanStop(tok, out, colon);
      u := SoundEnd6(tok, out, colon, t);
      assert Lead(t) + tok + s == Lead(t) + tok;
      return;
    }
    if HexDigit(s[0]).Some? {
      u := Sound6(s[1..], tok + [s[0]], out, colon, t);
      ShiftDigit(Lead(t), tok, s);
    } else if s[0] == ':' && tok == "" {
      var g := t.(gap := true);
      LeadGap(t);
      ReadGap(t, out, colon);
      u := Sound6(s[1..], "", out, Some(|out|), g);
      ShiftColon(Lead(t), tok, s);
    } else if s[0] == ':' {
      var g := Hex(tok);
      GroupIs(tok);
      ReadGroup(t, g, out, colon);
      u := Sound6(s[1..], "", out + GroupOctets(g), colon, Push(t, g));
      ShiftColon(Lead(t), tok, s);
    } else {
      var q := Parse4(tok + s).value;
      Accepts4(tok + s, q);
      var g := Quad(q);
      GroupIsQuad(q);
      ReadLast(t, g, out, colon);
      u := Push(t, g);
      FinishValue(u, out + q, colon);
      assert Lead(t) + (tok + s) == Lead(t) + tok + s;
    }
  }

  lemma ShiftDigit(lead: string, tok: string, s: string)
    requires s != ""
    ensures lead + (tok + [s[0]]) + s[1..] == lead + tok + s
  {
  }

  lemma ShiftColon(lead: string, tok: string, s: string)
    requires s != "" && s[0] == ':'
    ensures lead + tok + ":" + "" + s[1..] == lead + tok + s
    ensures tok == "" ==> lead + ":" + "" + s[1..] == lead + tok + s
  {
    if tok == "" { assert lead + tok == lead; }
  }

  lemma ScanStop(tok: string, out: seq<byte>, colon: Option<nat>)
    requires AllHex(tok) && |tok| <= 4 && (colon.Some? ==> colon.value <= |out|)
    ensures Scan6("", tok, out, colon) == Finish(tok, out, colon)
  {
  }

  lemma NoDigits()
    ensures AllHex("") && HexVal("") == 0
  {
  }

  lemma ReadGap(t: Literal, out: seq<byte>, colon: Option<nat>)
    requires Read(t, out, colon) && !t.gap
    ensures Read(t.(gap := true), out, Some(|out|))
  {
    NoGroups();
    HexSize(t);
  }

  lemma HexSize(t: Literal)
    requires HexRun(t.head) && t.tail == []
    ensures |HexOctets(t.head) + HexOctets(t.tail)| == 2 * |t.head|
  {
  }

  lemma LeadGap(t: Literal)
    requires HexRun(t.head) && !t.gap && t.tail == []
    ensures Lead(t.(gap := true)) == Lead(t) + ":"
  {
    assert Lead(t) + ":" + "" == Lead(t) + ":";
  }

  lemma GroupIs(tok: string)
    requires AllHex(tok) && 1 <= |tok| <= 4
    ensures HexGroup(Hex(tok)) && GroupText(Hex(tok)) == tok && GroupOctets(Hex(tok)) == Word(HexVal(tok))
  {
  }

  lemma GroupIsQuad(q: seq<byte>)
    requires |q| == 4
    ensures ValidGroup(Quad(q)) && GroupText(Quad(q)) == Text4(q) && GroupOctets(Quad(q)) == q
  {
  }

  lemma NotColon(c: char)
    requires HexDigit(c).Some?
    ensures c != ':'
  {
  }

  lemma BodyStart(t: Literal)
    requires WellFormed(t)
    ensures Body(t) != "" && (Body(t)[0] == ':' <==> t.gap && t.head == [])
    ensures Render(t) == if t.gap && t.head == [] then ":" + Body(t) else Body(t)
  {
    hide Trail, Join, HexDigit, HexOctets;
    NoGroups();
    if !t.gap {
      JoinStart(t.head);
      NotColon(Join(t.head)[0]);
    } else if t.head != [] {
      TrailStart(t.head);
      NotColon(Trail(t.head)[0]);
      assert Body(t)[0] == Trail(t.head)[0];
    } else {
      assert Body(t) == ":" + Join(t.tail);
      assert Render(t) == ":" + Body(t);
    }
  }

  /** Whatever `Parse6` accepts is the text of a literal, and is read as its value. */
  lemma Sound(s: string) returns (t: Literal)
    requires Parse6(s).Some?
    ensures WellFormed(t) && s == Render(t) && Parse6(s) == Some(Value(t))
  {
    hide Scan6, Body, Render, Value;
    var none := Literal([], false, []);
    var rest := if s != "" && s[0] == ':' then s[1..] else s;
    NoGroups();
    t := Sound6(rest, "", [], None, none);
    assert Lead(none) + "" + rest == rest;
    BodyStart(t);
  }

  /** Exactly the literals are accepted. */
  lemma Accepts6(s: string, a: seq<byte>)
    ensures Parse6(s) == Some(a) <==> exists t :: WellFormed(t) && s == Render(t) && a == Value(t)
  {
    hide Parse6, Render, Value;
    if Parse6(s) == Some(a) {
      var t := Sound(s);
    }
    if t :| WellFormed(t) && s == Render(t) && a == Value(t) {
      Complete6(t);
    }
  }

  // -- How long an accepted text is -------------------------------------------------------------

  lemma {:induction false} TrailSize(gs: seq<Group>)
    requires HexRun(gs)
    ensures |Trail(gs)| <= 5 * |gs|
    decreases |gs|
  {
    if gs != [] { TrailSize(gs[..|gs| - 1]); }
  }

  lemma JoinSize(gs: seq<Group>)
    requires ValidRun(gs)
    ensures 2 * |Join(gs)| <= 5 * |Octets(gs)| + 10
  {
    hide Text4;
    if gs != [] { TrailSize(gs[..|gs| - 1]); }
  }

  /** No accepted text is longer than the buffer that `uv_inet_pton` copies it to. */
  lemma AcceptedLength(s: string)
    requires Parse6(s).Some?
    ensures |s| <= 45
  {
    hide Parse6, Value, Join, Trail, Octets, HexOctets;
    var t := Sound(s);
    TrailSize(if t.gap then t.head else []);
    JoinSize(if t.gap then t.tail else t.head);
  }
}
