/**
  The recolouring loops of `libuv/include/uv/tree.h` on shapes: what one turn of each loop
  does to the balance, to the in-order reading and to the links.
 */
module RbFixup {
  import opened RbShape
  import opened RbLinks

  ghost function Painted(m: Links, n: Node, col: Color): Links
    requires n in m
  {
    m[n := m[n].(color := col)]
  }

  /** The path to the sibling of the subtree at the end of `c`. */
  ghost function Turn(c: Path, t: Tree): Path
    requires c.Step?
  {
    Step(c.up, Flip(c.side), c.node, c.color, t)
  }

  lemma HereTurn(c: Path, t: Tree, m: Links, root: Node?)
    requires c.Step?
    ensures Here(c, t, m, root) <==> Here(Turn(c, t), c.other, m, root)
  {
    HereUp(c, t, m, root);
    HereUp(Turn(c, t), c.other, m, root);
  }

  /** Painting the sibling of the subtree at the end of `c`. */
  lemma HerePaintOther(c: Path, t: Tree, m: Links, root: Node?, col: Color)
    requires c.Step? && c.other.Bin? && Here(c, t, m, root)
    ensures c.other.node in m
    ensures Here(c.(other := c.other.(color := col)), t, Painted(m, c.other.node, col), root)
  {
    var c' := c.(other := c.other.(color := col));
    HereTurn(c, t, m, root);
    HereRecolor(Turn(c, t), c.other, m, root, col);
    HereTurn(c', t, Painted(m, c.other.node, col), root);
  }

  /** Painting the holder at the end of `c`. */
  lemma HerePaintHolder(c: Path, t: Tree, m: Links, root: Node?, col: Color)
    requires c.Step? && Here(c, t, m, root)
    ensures c.node in m
    ensures Here(c.(color := col), t, Painted(m, c.node, col), root)
  {
    HereUp(c, t, m, root);
    HereRecolor(c.up, Up(c, t), m, root, col);
    HereUp(c.(color := col), t, Painted(m, c.node, col), root);
  }

  /** Colours do not show in the in-order reading. */
  lemma WholePaint(c: Path, t: Tree, col: Color)
    ensures t.Bin? ==> Whole(c, t.(color := col)) == Whole(c, t)
    ensures c.Step? ==> Whole(c.(color := col), t) == Whole(c, t)
    ensures c.Step? && c.other.Bin? ==> Whole(c.(other := c.other.(color := col)), t) == Whole(c, t)
  {
    if c.Step? && c.other.Bin? {
      assert InOrder(c.other.(color := col)) == InOrder(c.other);
    }
  }

  // ----- one turn of RB_INSERT_COLOR -----

  /** The focus `t` is red and balanced; only its red parent, if it has one, may be in the way. */
  ghost predicate Loose(c: Path, t: Tree, h: nat) {
    t.Bin? && t.color == Red && Ok(t, h) && PathOk(c, h)
  }

  /** The path to the focus after a turn that meets a red uncle. */
  ghost function Uncled(c: Path): Path
    requires c.Step? && c.up.Step? && c.up.other.Bin?
  {
    c.(color := Black, up := c.up.(color := Red, other := c.up.other.(color := Black)))
  }

  /** Red uncle: the three colours change, and the focus moves up two levels. */
  lemma UncleRed(c: Path, t: Tree, h: nat, m: Links, root: Node?) returns (c': Path, t': Tree)
    requires Here(c, t, m, root) && Loose(c, t, h) && c.Step? && c.color == Red && c.up.Step?
    requires c.up.other.Bin? && c.up.other.color == Red
    ensures var p, g, u := c.node, c.up.node, c.up.other.node;
      && p in m && g in m && u in m && t'.Bin? && t'.node == g
      && Here(c', t', Painted(Painted(Painted(m, u, Black), p, Black), g, Red), root)
    ensures Loose(c', t', h + 1) && Whole(c', t') == Whole(c, t) && Length(c') < Length(c)
  {
    c', t' := c.up.up, Up(Uncled(c).up, Up(Uncled(c), t));
    var p, g, u := c.node, c.up.node, c.up.other.node;
    var cu := c.up.(other := c.up.other.(color := Black));
    HereUp(c, t, m, root);
    HerePaintOther(c.up, Up(c, t), m, root, Black);
    var m1 := Painted(m, u, Black);
    HereUp(c.(up := cu), t, m1, root);
    HerePaintHolder(c.(up := cu), t, m1, root, Black);
    var m2 := Painted(m1, p, Black);
    var t1 := Up(c.(color := Black), t);
    HereUp(c.(color := Black, up := cu), t, m2, root);
    HerePaintHolder(cu, t1, m2, root, Red);
    HereUp(cu.(color := Red), t1, Painted(m2, g, Red), root);
    UncleOrder(c, t);
    UncleBalance(c, t, h);
  }

  lemma UncleBalance(c: Path, t: Tree, h: nat)
    requires Loose(c, t, h) && c.Step? && c.color == Red && !IsBlack(c.up.other)
    ensures var c1 := Uncled(c); Loose(c1.up.up, Up(c1.up, Up(c1, t)), h + 1)
  {
    var c1 := Uncled(c);
    assert PathOk(c.up, h) && PathOk(c.up.up, h + 1);
    assert Ok(c1.up.other, h + 1);
    assert Ok(Up(c1, t), h + 1);
  }

  lemma UncleOrder(c: Path, t: Tree)
    requires c.Step? && c.up.Step? && c.up.other.Bin?
    ensures var c1 := Uncled(c); Whole(c1.up.up, Up(c1.up, Up(c1, t))) == Whole(c, t)
  {
    var c1 := Uncled(c);
    WholeUp(c1, t);
    WholeUp(c1.up, Up(c1, t));
    assert InOrder(c.up.other.(color := Black)) == InOrder(c.up.other);
    assert Before(c1.up) == Before(c.up) && After(c1.up) == After(c.up);
  }

  /** Black uncle, inner grandchild: a rotation of the parent makes it the outer one. */
  lemma UncleBlackInner(c: Path, t: Tree, h: nat, m: Links, root: Node?) returns (c': Path, t': Tree)
    requires Here(c, t, m, root) && Loose(c, t, h) && c.Step? && c.color == Red
    requires c.up.Step? && c.side != c.up.side
    ensures var s, p := c.up.side, c.node;
      && CanRotate(m, p, s) && m[p].parent != null
      && Here(c', t', Rotated(m, p, s), root) && Loose(c', t', h) && Whole(c', t') == Whole(c, t)
      && c'.Step? && c'.up == c.up && c'.side == s && c'.color == Red && c'.node == t.node
      && t'.Bin? && t'.node == p && Length(c') == Length(c)
  {
    var s, p := c.up.side, c.node;
    c' := Step(c.up, s, t.node, Red, Kid(t, Flip(s)));
    t' := Join(s, c.other, p, Red, Kid(t, s));
    assert Ok(t', h) && PathOk(c', h);
    HereUp(c, t, m, root);
    HereRotate(c.up, Up(c, t), m, root, s);
    HereUp(c', t', Rotated(m, p, s), root);
    WholeUp(c, t);
    WholeUp(c', t');
    RotKeeps(s, Up(c, t));
  }

  /** The path to the focus once the grandparent has been rotated below the parent. */
  ghost function Outered(c: Path): Path
    requires c.Step? && c.up.Step?
  {
    Step(c.up.up, c.side, c.node, Black, Join(Flip(c.side), c.up.other, c.up.node, Red, c.other))
  }

  /** Black uncle, outer grandchild: recolouring and a rotation of the grandparent end the loop. */
  lemma UncleBlackOuter(c: Path, t: Tree, h: nat, f: Side, m: Links, root: Node?) returns (c': Path)
    requires Here(c, t, m, root) && Loose(c, t, h) && c.Step? && c.color == Red
    requires c.up.Step? && c.side == c.up.side && (c.side == L <==> f == R) && IsBlack(c.up.other)
    ensures var p, g := c.node, c.up.node;
      && p in m && g in m
      && var m1 := Painted(Painted(m, p, Black), g, Red);
      && CanRotate(m1, g, f) && (if f == R then m1[g].left else m1[g].right) == p
      && Here(c', t, Rotated(m1, g, f), if m1[g].parent == null then p else root)
    ensures Loose(c', t, h) && Whole(c', t) == Whole(c, t) && Length(c') < Length(c)
  {
    var p, g := c.node, c.up.node;
    c' := Outered(c);
    HerePaintHolder(c, t, m, root, Black);
    var t1 := Up(c.(color := Black), t);
    HereUp(c.(color := Black), t, Painted(m, p, Black), root);
    HerePaintHolder(c.up, t1, Painted(m, p, Black), root, Red);
    var m1 := Painted(Painted(m, p, Black), g, Red);
    HereUp(c.up.(color := Red), t1, m1, root);
    var t2 := Up(c.up.(color := Red), t1);
    HereRotate(c.up.up, t2, m1, root, f);
    HereUp(c', t, Rotated(m1, g, f), if c.up.up.Top? then p else root);
    OuterOrder(c, t);
    OuterBalance(c, h);
  }

  lemma OuterBalance(c: Path, h: nat)
    requires PathOk(c, h) && c.Step? && c.color == Red && IsBlack(c.up.other)
    ensures PathOk(Outered(c), h)
  {
    assert PathOk(c.up, h) && PathOk(c.up.up, h + 1);
    assert Ok(Outered(c).other, h);
  }

  lemma OuterOrder(c: Path, t: Tree)
    requires c.Step? && c.up.Step? && c.side == c.up.side
    ensures Whole(Outered(c), t) == Whole(c, t)
  {
    WholeUp(c, t);
    WholeUp(c.up, Up(c, t));
    WholeUp(Outered(c), t);
    RotKeeps(Flip(c.side), Up(c.up.(color := Red), Up(c.(color := Black), t)));
    assert InOrder(Up(c.(color := Black), t)) == InOrder(Up(c, t));
  }

  /** What the loop of RB_INSERT_COLOR reads before a turn. */
  lemma InsertReads(c: Path, t: Tree, h: nat, m: Links, root: Node?)
    requires Here(c, t, m, root) && Loose(c, t, h)
    ensures t.node in m && m[t.node].parent == if c.Step? then c.node else null
    ensures c.Step? ==> c.node in m && m[c.node].color == c.color
    ensures c.Step? && c.color == Red ==>
      && c.up.Step? && c.up.node in m && m[c.node].parent == c.up.node
      && (m[c.up.node].left == c.node <==> c.up.side == L)
      && (m[c.node].left == t.node <==> c.side == L) && (m[c.node].right == t.node <==> c.side == R)
      && var u := if c.up.side == L then m[c.up.node].right else m[c.up.node].left;
      && (if c.up.other.Leaf? then u == null else u == c.up.other.node && u in m && m[u].color == c.up.other.color)
      && (IsBlack(c.up.other) <==> u == null || m[u].color == Black)
  {
    if c.Step? && c.color == Red {
      HereUp(c, t, m, root);
      assert Linked(c.up.other, c.up.node, m) && Linked(c.other, c.node, m);
    }
  }

  // ----- one turn of RB_REMOVE_COLOR -----

  /** Plugging `t` in leaves every path through it one black node short, unless `t` is painted black. */
  ghost predicate Short(c: Path, t: Tree, h: nat) {
    PathOk(c, h + 1) && if IsBlack(t) then Ok(t, h) else Ok(t.(color := Black), h + 1)
  }

  /** The path to the focus once its red sibling has been rotated above its parent. */
  ghost function SiblingAbove(c: Path): Path
    requires c.Step? && c.other.Bin?
  {
    Step(Step(c.up, c.side, c.other.node, Black, Kid(c.other, Flip(c.side))),
         c.side, c.node, Red, Kid(c.other, c.side))
  }

  /** Red sibling: after recolouring and a rotation the sibling is black. */
  lemma SiblingRed(c: Path, t: Tree, h: nat, m: Links, root: Node?) returns (c': Path)
    requires Here(c, t, m, root) && Short(c, t, h) && c.Step? && c.other.Bin? && c.other.color == Red
    ensures var s, p, y := c.side, c.node, c.other.node;
      && p in m && y in m
      && var m1 := Painted(Painted(m, y, Black), p, Red);
      && CanRotate(m1, p, s) && (if s == L then m1[p].right else m1[p].left) == y
      && Here(c', t, Rotated(m1, p, s), if m1[p].parent == null then y else root)
    ensures c'.Step? && c'.side == c.side && c'.node == c.node && IsBlack(c'.other)
    ensures Short(c', t, h) && Whole(c', t) == Whole(c, t)
    ensures c'.up.Step? && c'.color == Red
  {
    var s, p, y := c.side, c.node, c.other.node;
    c' := SiblingAbove(c);
    HerePaintOther(c, t, m, root, Black);
    var c1 := c.(other := c.other.(color := Black));
    HerePaintHolder(c1, t, Painted(m, y, Black), root, Red);
    var c2 := c1.(color := Red);
    var m1, root' := Painted(Painted(m, y, Black), p, Red), if c.up.Top? then y else root;
    HereUp(c2, t, m1, root);
    HereRotate(c.up, Up(c2, t), m1, root, s);
    HereUp(c'.up, Up(c', t), Rotated(m1, p, s), root');
    HereUp(c', t, Rotated(m1, p, s), root');
    SiblingRedOrder(c, t);
    SiblingRedBalance(c, h);
  }

  lemma SiblingRedBalance(c: Path, h: nat)
    requires PathOk(c, h + 1) && c.Step? && !IsBlack(c.other)
    ensures PathOk(SiblingAbove(c), h + 1) && IsBlack(SiblingAbove(c).other)
  {
    assert PathOk(c.up, h + 2) && Ok(c.other, h + 1);
    assert PathOk(SiblingAbove(c).up, h + 1);
  }

  lemma SiblingRedOrder(c: Path, t: Tree)
    requires c.Step? && c.other.Bin?
    ensures Whole(SiblingAbove(c), t) == Whole(c, t)
  {
    var c' := SiblingAbove(c);
    WholeUp(c, t);
    WholeUp(c', t);
    WholeUp(c'.up, Up(c', t));
    RotKeeps(c.side, Up(c.(color := Red, other := c.other.(color := Black)), t));
    assert InOrder(c.other.(color := Black)) == InOrder(c.other);
  }

  /** Two black nephews: the sibling turns red and the shortage moves up one level. */
  lemma NephewsBlack(c: Path, t: Tree, h: nat, m: Links, root: Node?) returns (t': Tree, h': nat)
    requires Here(c, t, m, root) && Short(c, t, h) && IsBlack(t) && c.Step? && IsBlack(c.other)
    requires c.other.Bin? && IsBlack(c.other.left) && IsBlack(c.other.right)
    ensures var y := c.other.node; y in m && Here(c.up, t', Painted(m, y, Red), root)
    ensures t'.Bin? && t'.node == c.node && Short(c.up, t', h') && Whole(c.up, t') == Whole(c, t)
    ensures Length(c.up) < Length(c) && (IsBlack(t') <==> c.color == Black)
  {
    var c1 := c.(other := c.other.(color := Red));
    t', h' := Up(c1, t), Rise(c, h);
    HerePaintOther(c, t, m, root, Red);
    HereUp(c1, t, Painted(m, c.other.node, Red), root);
    WholePaint(c, t, Red);
    WholeUp(c1, t);
    assert Ok(c.other, h + 1) && Ok(c1.other, h);
  }

  /** The sibling after its red near child has been rotated above it. */
  ghost function NearAbove(s: Side, o: Tree): Tree
    requires o.Bin? && Kid(o, s).Bin?
  {
    var z := Kid(o, s);
    Join(s, Kid(z, s), z.node, Black, Join(s, Kid(z, Flip(s)), o.node, Red, Kid(o, Flip(s))))
  }

  /** Only the near nephew is red: a rotation of the sibling towards `f` makes the far one red. */
  lemma FarNephewBlack(c: Path, t: Tree, h: nat, f: Side, m: Links, root: Node?) returns (c': Path)
    requires Here(c, t, m, root) && Short(c, t, h) && c.Step? && (c.side == L <==> f == R)
    requires c.other.Bin? && IsBlack(c.other)
    requires if f == R then !IsBlack(c.other.left) && IsBlack(c.other.right)
             else !IsBlack(c.other.right) && IsBlack(c.other.left)
    ensures var y, z := c.other.node, (if f == R then c.other.left else c.other.right);
      && z.Bin? && y in m && z.node in m
      && var m1 := Painted(Painted(m, z.node, Black), y, Red);
      && CanRotate(m1, y, f) && m1[y].parent != null && Here(c', t, Rotated(m1, y, f), root)
    ensures c'.Step? && c'.up == c.up && c'.side == c.side && c'.node == c.node && c'.color == c.color
    ensures c'.other.Bin? && IsBlack(c'.other)
    ensures if f == R then !IsBlack(c'.other.right) else !IsBlack(c'.other.left)
    ensures Short(c', t, h) && Whole(c', t) == Whole(c, t)
  {
    var s, o := c.side, c.other;
    var z := Kid(o, s);
    var m1 := NearPainted(c, t, m, root);
    var o1 := Join(s, z.(color := Black), o.node, Red, Kid(o, f));
    c' := c.(other := NearAbove(s, o));
    HereRotate(Turn(c, t), o1, m1, root, f);
    HereTurn(c', t, Rotated(m1, o.node, f), root);
    RotKeeps(f, o1);
    JoinOrder(s, z.(color := Black), o.node, Red, Kid(o, f));
    JoinOrder(s, z, o.node, o.color, Kid(o, f));
    assert InOrder(o1) == InOrder(o);
    NearBalance(s, o, h + 1);
  }

  lemma NearBalance(s: Side, o: Tree, h: nat)
    requires Ok(o, h) && o.Bin? && IsBlack(o) && !IsBlack(Kid(o, s)) && IsBlack(Kid(o, Flip(s)))
    ensures Ok(NearAbove(s, o), h)
  {
    assert Ok(Kid(o, s), h - 1) && Ok(Kid(o, Flip(s)), h - 1);
    assert Ok(Join(s, Kid(Kid(o, s), Flip(s)), o.node, Red, Kid(o, Flip(s))), h - 1);
  }

  lemma NearPainted(c: Path, t: Tree, m: Links, root: Node?) returns (m1: Links)
    requires Here(c, t, m, root) && c.Step? && c.other.Bin? && Kid(c.other, c.side).Bin?
    ensures var s, o := c.side, c.other; var z := Kid(o, s);
      && z.node in m && o.node in m && m1 == Painted(Painted(m, z.node, Black), o.node, Red)
      && Here(Turn(c, t), Join(s, z.(color := Black), o.node, Red, Kid(o, Flip(s))), m1, root)
  {
    var s, o, cs := c.side, c.other, Turn(c, t);
    var z := Kid(o, s);
    var cz := Step(cs, s, o.node, o.color, Kid(o, Flip(s)));
    HereTurn(c, t, m, root);
    HereUp(cz, z, m, root);
    HereRecolor(cz, z, m, root, Black);
    HerePaintHolder(cz, z.(color := Black), Painted(m, z.node, Black), root, Red);
    m1 := Painted(Painted(m, z.node, Black), o.node, Red);
    HereUp(cz.(color := Red), z.(color := Black), m1, root);
  }

  /** The subtree at the parent after the last turn: the sibling stands where the parent stood. */
  ghost function Mended(c: Path, t: Tree): Tree
    requires c.Step? && c.other.Bin? && Kid(c.other, Flip(c.side)).Bin?
  {
    var s, o := c.side, c.other;
    Join(s, Join(s, t, c.node, Black, Kid(o, s)), o.node, c.color, Kid(o, Flip(s)).(color := Black))
  }

  /** The far nephew is red: recolouring and a rotation of the parent restore the balance. */
  lemma FarNephewRed(c: Path, t: Tree, h: nat, m: Links, root: Node?) returns (t': Tree, h': nat)
    requires Here(c, t, m, root) && Short(c, t, h) && IsBlack(t) && c.Step?
    requires c.other.Bin? && IsBlack(c.other)
    requires if c.side == L then !IsBlack(c.other.right) else !IsBlack(c.other.left)
    ensures var p, y, f := c.node, c.other.node, (if c.side == L then c.other.right else c.other.left);
      && f.Bin? && p in m && y in m && f.node in m
      && var m1 := Painted(Painted(Painted(m, y, c.color), p, Black), f.node, Black);
      && CanRotate(m1, p, c.side) && (if c.side == L then m1[p].right else m1[p].left) == y
      && Here(c.up, t', Rotated(m1, p, c.side), if m1[p].parent == null then y else root)
    ensures Fit(c.up, t', h') && Whole(c.up, t') == Whole(c, t)
  {
    var s, o := c.side, c.other;
    var p, y, d := c.node, o.node, Kid(o, Flip(s));
    t', h' := Mended(c, t), Rise(c, h + 1);
    HerePaintOther(c, t, m, root, c.color);
    var c1 := c.(other := o.(color := c.color));
    HerePaintHolder(c1, t, Painted(m, y, c.color), root, Black);
    var c2 := c1.(color := Black);
    var o2 := Join(s, Kid(o, s), y, c.color, d.(color := Black));
    FarPainted(c2, t, Painted(Painted(m, y, c.color), p, Black), root);
    var c3 := c2.(other := o2);
    var m1 := Painted(Painted(Painted(m, y, c.color), p, Black), d.node, Black);
    HereUp(c3, t, m1, root);
    HereRotate(c.up, Up(c3, t), m1, root, s);
    MendedOrder(c, t);
    MendedBalance(c, t, h);
  }

  lemma FarPainted(c: Path, t: Tree, m: Links, root: Node?)
    requires Here(c, t, m, root) && c.Step? && c.other.Bin? && Kid(c.other, Flip(c.side)).Bin?
    ensures var s, o := c.side, c.other; var d := Kid(o, Flip(s));
      && d.node in m
      && Here(c.(other := Join(s, Kid(o, s), o.node, o.color, d.(color := Black))), t,
              Painted(m, d.node, Black), root)
  {
    var s, o, cs := c.side, c.other, Turn(c, t);
    var d := Kid(o, Flip(s));
    var cd := Step(cs, Flip(s), o.node, o.color, Kid(o, s));
    HereTurn(c, t, m, root);
    HereUp(cd, d, m, root);
    HereRecolor(cd, d, m, root, Black);
    HereUp(cd, d.(color := Black), Painted(m, d.node, Black), root);
    HereTurn(c.(other := Up(cd, d.(color := Black))), t, Painted(m, d.node, Black), root);
  }

  lemma MendedBalance(c: Path, t: Tree, h: nat)
    requires PathOk(c, h + 1) && Ok(t, h) && IsBlack(t) && c.Step?
    requires c.other.Bin? && IsBlack(c.other) && !IsBlack(Kid(c.other, Flip(c.side)))
    ensures Fit(c.up, Mended(c, t), Rise(c, h + 1))
  {
    assert Ok(Kid(c.other, c.side), h) && Ok(Kid(c.other, Flip(c.side)), h);
    assert Ok(Join(c.side, t, c.node, Black, Kid(c.other, c.side)), h + 1);
    assert Ok(Kid(c.other, Flip(c.side)).(color := Black), h + 1);
  }

  lemma MendedOrder(c: Path, t: Tree)
    requires c.Step? && c.other.Bin? && Kid(c.other, Flip(c.side)).Bin?
    ensures Whole(c.up, Mended(c, t)) == Whole(c, t)
  {
    var s, o := c.side, c.other;
    var d := Kid(o, Flip(s));
    JoinOrder(s, t, c.node, Black, Kid(o, s));
    JoinOrder(s, Join(s, t, c.node, Black, Kid(o, s)), o.node, c.color, d.(color := Black));
    JoinOrder(s, Kid(o, s), o.node, o.color, d);
    assert InOrder(d.(color := Black)) == InOrder(d);
    WholeUp(c, t);
    JoinOrder(s, t, c.node, c.color, o);
    Regroup(InOrder(t), [c.node], InOrder(Kid(o, s)), [o.node], InOrder(d));
    Regroup(InOrder(d), [o.node], InOrder(Kid(o, s)), [c.node], InOrder(t));
  }

  /** What the loop of RB_REMOVE_COLOR reads before a turn. */
  lemma RemoveReads(c: Path, t: Tree, h: nat, m: Links, root: Node?)
    requires Here(c, t, m, root) && Short(c, t, h)
    ensures t.Bin? ==> t.node in m && m[t.node].color == t.color
    ensures c.Step? ==> root != null && (t.Bin? ==> root != t.node) && c.node in m
    ensures c.Top? ==> root == if t.Leaf? then null else t.node
    ensures IsBlack(t) <==> t.Leaf? || t.color == Black
    ensures c.Step? && IsBlack(t) ==>
      && c.other.Bin?
      && (m[c.node].left == (if t.Leaf? then null else t.node) <==> c.side == L)
      && c.other.node == if c.side == L then m[c.node].right else m[c.node].left
  {
    SummitOnPath(c, Root(t));
    if c.Step? && IsBlack(t) {
      assert Ok(c.other, h + 1);
    }
  }

  lemma {:induction false} SummitOnPath(c: Path, hole: Node?)
    ensures c.Step? ==> Summit(c, hole) in PathNodes(c)
  {
    if c.Step? { SummitOnPath(c.up, c.node); }
  }

  /** What a turn reads of the sibling and of the two nephews. */
  lemma NephewReads(c: Path, t: Tree, m: Links, root: Node?)
    requires Here(c, t, m, root) && c.Step? && c.other.Bin?
    ensures c.node in m && m[c.node].color == c.color && m[c.node].parent == if c.up.Top? then null else c.up.node
    ensures c.other.node == if c.side == L then m[c.node].right else m[c.node].left
    ensures c.other.node in m && m[c.other.node].color == c.other.color
    ensures IsBlack(c.other) <==> c.other.color == Black
    ensures var l, k := c.other.left, m[c.other.node].left;
      && (if l.Leaf? then k == null else k == l.node && k in m && m[k].color == l.color)
      && (IsBlack(l) <==> k == null || m[k].color == Black)
    ensures var r, k := c.other.right, m[c.other.node].right;
      && (if r.Leaf? then k == null else k == r.node && k in m && m[k].color == r.color)
      && (IsBlack(r) <==> k == null || m[k].color == Black)
  {
    assert Linked(c.other, c.node, m);
    assert Linked(c.other.left, c.other.node, m) && Linked(c.other.right, c.other.node, m);
  }

  // ----- taking a node out -----

  /** The only child of a node that lacks one. */
  ghost function Single(t: Tree): Tree
    requires t.Bin?
  {
    if t.left.Leaf? then t.right else t.left
  }

  /** Hanging the only child of `t`'s root in its place. */
  lemma SpliceLinks(c: Path, t: Tree, m: Links, root: Node?)
    requires Here(c, t, m, root) && t.Bin? && (t.left.Leaf? || t.right.Leaf?)
    ensures t.node in m && m[t.node].parent == (if c.Top? then null else c.node)
    ensures m[t.node].left == (if t.left.Leaf? then null else t.left.node)
    ensures m[t.node].right == (if t.right.Leaf? then null else t.right.node)
    ensures m[t.node].color == t.color && (c.Step? ==> c.node in m && c.node != t.node)
    ensures var k, p := Single(t), m[t.node].parent;
      && (k.Bin? ==> k.node in m && k.node != t.node)
      && var m1 := if k.Leaf? then m else m[k.node := m[k.node].(parent := p)];
      && Here(c, k, Relinked(m1, p, t.node, if k.Leaf? then null else k.node) - {t.node},
              if p == null then (if k.Leaf? then null else k.node) else root)
  {
    var k := Single(t);
    assert Linked(k, t.node, m) && (k.Bin? ==> k.node in Nodes(k)) && Nodes(t) == {t.node} + Nodes(k);
    var m1 := if k.Leaf? then m else m[k.node := m[k.node].(parent := Holder(c))];
    PathFrame(c, t.node, m, m1);
    PathRelink(c, t.node, Root(k), m1);
    var m2 := Relinked(m1, Holder(c), t.node, Root(k)) - {t.node};
    PathFrame(c, Root(k), Relinked(m1, Holder(c), t.node, Root(k)), m2);
    LinkedReparent(k, t.node, Holder(c), m, m2);
  }

  /** Losing a red node costs nothing; losing a black one leaves the path one black node short. */
  lemma SpliceBalance(c: Path, t: Tree, h: nat)
    requires Fit(c, t, h) && t.Bin? && (t.left.Leaf? || t.right.Leaf?)
    ensures t.color == Red ==> Fit(c, Single(t), h)
    ensures t.color == Black ==> h > 0 && Short(c, Single(t), h - 1)
  {
    var k := Single(t);
    if t.color == Black {
      assert Ok(k, h - 1) && PathOk(c, h - 1 + 1);
      assert k.Bin? && k.color == Red ==> Ok(k.(color := Black), h);
    }
  }

  lemma RemovedKeeps(s: seq<Node>, x: Node, s': seq<Node>)
    requires Removed(s, x, s') && Sorted(s)
    ensures Sorted(s') && Elements(s') == Elements(s) - {x}
  {
    var k :| 0 <= k < |s| && s[k] == x && s' == s[..k] + s[k + 1..];
    var a, b := s[..k], s[k + 1..];
    assert s == a + [x] + b;
    SortedRemove(a, x, b);
    ElementsConcat(a, b);
    ElementsConcat(a, [x]);
    ElementsConcat(a + [x], b);
  }

  lemma SortedRemove(a: seq<Node>, x: Node, b: seq<Node>)
    requires Sorted(a + [x] + b)
    ensures Sorted(a + b) && x !in Elements(a) && x !in Elements(b)
  {
    var w, s := a + [x] + b, a + b;
    assert w[|a|] == x;
    assert forall i :: 0 <= i < |a| ==> w[i] == a[i];
    assert forall i :: 0 <= i < |b| ==> w[|a| + 1 + i] == b[i];
    forall i, j | 0 <= i < j < |s| ensures s[i].key < s[j].key {
      assert s[i] == w[if i < |a| then i else i + 1] && s[j] == w[if j < |a| then j else j + 1];
    }
  }

  /** `s'` is `s` without its element `x`. */
  ghost predicate Removed(s: seq<Node>, x: Node, s': seq<Node>) {
    exists k :: 0 <= k < |s| && s[k] == x && s' == s[..k] + s[k + 1..]
  }

  lemma RemovedAt(a: seq<Node>, x: Node, b: seq<Node>)
    ensures Removed(a + [x] + b, x, a + b)
  {
    var s, k := a + [x] + b, |a|;
    assert s[k] == x && s[..k] == a && s[k + 1..] == b;
  }

  lemma SpliceCats<T>(a: seq<T>, x: seq<T>, b: seq<T>, d: seq<T>)
    ensures a + (x + b) + d == a + x + (b + d)
    ensures a + (b + x) + d == (a + b) + x + d
    ensures a + b + d == a + (b + d) == (a + b) + d
  {
  }

  lemma SpliceOrder(c: Path, t: Tree)
    requires t.Bin? && (t.left.Leaf? || t.right.Leaf?)
    ensures Removed(Whole(c, t), t.node, Whole(c, Single(t)))
  {
    var a, x, b, d := Before(c), [t.node], InOrder(Single(t)), After(c);
    SpliceCats(a, x, b, d);
    if t.left.Leaf? {
      RemovedAt(a, t.node, b + d);
      assert InOrder(t) == x + b;
    } else {
      RemovedAt(a + b, t.node, d);
      assert InOrder(t) == b + x;
    }
  }

  /** The assignments that give the fields of `o` to `s` and make its neighbours point to `s`. */
  ghost function TakenOver(m: Links, o: Node, s: Node): Links
    requires o in m && (m[o].parent == null || m[o].parent in m)
    requires m[o].left != null && m[o].left in m && (m[o].right == null || m[o].right in m)
  {
    var l: Node, r := m[o].left, m[o].right;
    var m1 := Relinked(m[s := m[o]], m[o].parent, o, s);
    var m2 := m1[l := m1[l].(parent := s)];
    if r == null then m2 else m2[r := m2[r].(parent := s)]
  }

  lemma TakeOverReads(c: Path, t: Tree, m: Links, root: Node?)
    requires Here(c, t, m, root) && t.Bin? && t.left.Bin?
    ensures var o, l, r := t.node, t.left.node, Root(t.right);
      && o in m && l in m && l != o && (r != null ==> r in m && r != o && r != l)
      && m[o].left == l && m[o].right == r && l !in PathNodes(c) && r !in PathNodes(c)
      && m[o].parent == (if c.Top? then null else c.node) && (c.Step? ==> c.node in m && c.node != o)
  {
    assert Linked(t.left, t.node, m) && Linked(t.right, t.node, m);
    assert t.left.node in Nodes(t.left) && (t.right.Bin? ==> t.right.node in Nodes(t.right));
  }

  /** Giving the place of the root of `t` to a node `s` from outside. */
  lemma TakeOverLinks(c: Path, t: Tree, s: Node, m: Links, root: Node?)
    requires Here(c, t, m, root) && t.Bin? && t.left.Bin? && s !in m && s !in Nodes(t) && s !in PathNodes(c)
    ensures t.node in m && (m[t.node].parent == null || m[t.node].parent in m)
    ensures m[t.node].left != null && m[t.node].left in m && (m[t.node].right == null || m[t.node].right in m)
    ensures Here(c, t.(node := s), TakenOver(m, t.node, s) - {t.node},
                 if m[t.node].parent == null then s else root)
  {
    var o, p := t.node, Holder(c);
    TakeOverReads(c, t, m, root);
    var m0, m1 := m[s := m[o]], TakenOver(m, o, s) - {o};
    TakeOverAgrees(c, t, s, m, root);
    hide Agree, TakenOver, InOrder;
    PathFrame(c, o, m, m0);
    PathRelink(c, o, s, m0);
    PathFrame(c, s, Relinked(m0, p, o, s), m1);
    LinkedReparent(t.left, o, s, m, m1);
    LinkedReparent(t.right, o, s, m, m1);
  }

  lemma TakeOverAgrees(c: Path, t: Tree, s: Node, m: Links, root: Node?)
    requires Here(c, t, m, root) && t.Bin? && t.left.Bin? && s !in m && s !in Nodes(t) && s !in PathNodes(c)
    ensures t.node in m && (m[t.node].parent == null || m[t.node].parent in m)
    ensures m[t.node].left != null && m[t.node].left in m && (m[t.node].right == null || m[t.node].right in m)
    ensures var o, p := t.node, Holder(c); var m0, m1 := m[s := m[o]], TakenOver(m, o, s) - {o};
      && o in m && Agree(PathNodes(c), m, m0) && (p == null || p in m0) && o !in PathNodes(c)
      && Agree(PathNodes(c), Relinked(m0, p, o, s), m1)
      && Agree(Nodes(t.left) - {Root(t.left)}, m, m1) && Agree(Nodes(t.right) - {Root(t.right)}, m, m1)
      && t.left.node in m && t.left.node in m1 && m1[t.left.node] == m[t.left.node].(parent := s)
      && (t.right.Bin? ==> t.right.node in m && t.right.node in m1 && m1[t.right.node] == m[t.right.node].(parent := s))
      && s in m1 && m1[s] == m[o]
  {
    TakeOverReads(c, t, m, root);
    hide Linked, InOrder;
    assert Holder(c) != null ==> Holder(c) in PathNodes(c);
  }

  lemma TakenOverSteps(m: Links, o: Node, s: Node)
    requires o in m && (m[o].parent == null || m[o].parent in m)
    requires m[o].left != null && m[o].left in m && (m[o].right == null || m[o].right in m)
    ensures var l: Node, r, m1 := m[o].left, m[o].right, Relinked(m[s := m[o]], m[o].parent, o, s);
      && m1.Keys == m.Keys + {s} && l in m1 && (r != null ==> r in m1)
      && var m2 := m1[l := m1[l].(parent := s)];
         (r != null ==> r in m2) && TakenOver(m, o, s) == if r == null then m2 else m2[r := m2[r].(parent := s)]
  {
  }

  // ----- the successor takes over the place of a node with two children -----

  lemma {:induction false} ComposeOrder(c: Path, base: Path)
    ensures Before(Compose(c, base)) == Before(base) + Before(c)
    ensures After(Compose(c, base)) == After(c) + After(base)
  {
    if c.Step? { ComposeOrder(c.up, base); }
  }

  /** From the end of a path in two parts to the node where the parts meet. */
  lemma Gather(c: Path, base: Path, t: Tree, n: Node, m: Links, root: Node?) returns (u: Tree)
    requires Here(Compose(c, base), t, m, root) && base.Step? && n !in m
    ensures u.Bin? && u.node == base.node && Here(base.up, u, m, root)
    ensures u.(node := n) == Up(base.(node := n), Plug(c, t))
    ensures base.side == R ==> u.left == base.other
    ensures n !in Nodes(u) && n !in PathNodes(base.up)
  {
    u := Up(base, Plug(c, t));
    HerePlug(c, base, t, m, root);
    HereUp(base, Plug(c, t), m, root);
    LinkedDomain(u, Holder(base.up), m);
    PathDomain(base.up, Root(u), m);
  }

  lemma {:induction false} LinkedDomain(t: Tree, p: Node?, m: Links)
    requires Linked(t, p, m)
    ensures Nodes(t) <= m.Keys
  {
    if t.Bin? {
      LinkedDomain(t.left, t.node, m);
      LinkedDomain(t.right, t.node, m);
    }
  }

  lemma {:induction false} PathDomain(c: Path, hole: Node?, m: Links)
    requires PathLinked(c, hole, m)
    ensures PathNodes(c) <= m.Keys
  {
    if c.Step? {
      LinkedDomain(c.other, c.node, m);
      PathDomain(c.up, c.node, m);
    }
  }

  /** And back, after the node `n` has taken that place. */
  lemma Scatter(c: Path, base: Path, t: Tree, n: Node, m: Links, root: Node?)
    requires base.Step? && Here(base.up, Up(base.(node := n), Plug(c, t)), m, root)
    ensures Here(Compose(c, base.(node := n)), t, m, root)
  {
    HereUp(base.(node := n), Plug(c, t), m, root);
    HerePlug(c, base.(node := n), t, m, root);
  }

  lemma RenamedBalance(c: Path, base: Path, t: Tree, n: Node, h: nat)
    requires base.Step?
    ensures Fit(Compose(c, base), t, h) ==> Fit(Compose(c, base.(node := n)), t, h)
    ensures Short(Compose(c, base), t, h) ==> Short(Compose(c, base.(node := n)), t, h)
  {
    if PathOk(Compose(c, base), h) { PathOkRename(c, base, n, h); }
    if PathOk(Compose(c, base), h + 1) { PathOkRename(c, base, n, h + 1); }
  }

  lemma SuccessorCats<T>(a: seq<T>, o: seq<T>, x: seq<T>, r: seq<T>, d: seq<T>)
    ensures (a + o) + (x + r) + d == a + o + (x + r + d)
    ensures (a + x) + r + d == a + (x + r + d)
  {
  }

  /** The leftmost node of the right subtree stands right after the node it replaces. */
  lemma RenamedOrder(c: Path, base: Path, t: Tree)
    requires base.Step? && base.side == R && t.Bin? && t.left.Leaf? && Before(c) == []
    ensures Removed(Whole(Compose(c, base), t), base.node,
                    Whole(Compose(c, base.(node := t.node)), t.right))
  {
    var n := t.node;
    ComposeOrder(c, base);
    ComposeOrder(c, base.(node := n));
    var a, o, x, r := Before(base.up) + InOrder(base.other), [base.node], [n], InOrder(t.right);
    var d := After(c) + After(base);
    assert Before(Compose(c, base)) == a + o && Before(Compose(c, base.(node := n))) == a + x;
    assert InOrder(t) == x + r;
    SuccessorCats(a, o, x, r, d);
    RemovedAt(a, base.node, x + r + d);
  }

  /** The holder at the end of a path in two parts. */
  lemma {:induction false} ComposeHolder(c: Path, base: Path)
    requires base.Step? && PathApart(Compose(c, base))
    ensures Compose(c, base).Step? && base.node in PathNodes(Compose(c, base))
    ensures Compose(c, base).node == if c.Top? then base.node else c.node
    ensures c.Step? ==> c.node != base.node
  {
    if c.Step? { ComposeHolder(c.up, base); }
  }
}
