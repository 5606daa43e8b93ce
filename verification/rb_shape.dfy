/**
  Shapes of the red-black tree of `libuv/include/uv/tree.h`.

  The pointer structure is described by a ghost `Tree` together with a ghost `Path` (the
  way from a subtree up to the root), so that every loop of the original can say exactly
  which subtree it stands at.  Left and right are a parameter (`Side`): what the original
  writes out twice is stated once here.
 */
module RbShape {

  datatype Color = Red | Black

  datatype Side = L | R

  function Flip(s: Side): Side {
    if s == L then R else L
  }

  /** An element with its embedded `RB_ENTRY`.  The element's key never changes. */
  class Node {
    const key: int
    var left: Node?
    var right: Node?
    var parent: Node?
    var color: Color

    constructor (key: int)
      ensures this.key == key
    {
      this.key := key;
      left, right, parent, color := null, null, null, Red;
    }
  }

  datatype Tree = Leaf | Bin(left: Tree, node: Node, color: Color, right: Tree)

  /** A tree with one subtree cut out, on side `side` of `node`; `up` leads towards the root. */
  datatype Path = Top | Step(up: Path, side: Side, node: Node, color: Color, other: Tree)

  ghost function Root(t: Tree): Node? {
    if t.Leaf? then null else t.node
  }

  /** The node whose child field holds the subtree at the end of `c`. */
  ghost function Holder(c: Path): Node? {
    if c.Top? then null else c.node
  }

  ghost function Kid(t: Tree, s: Side): Tree
    requires t.Bin?
  {
    if s == L then t.left else t.right
  }

  /** The tree with `inner` on side `s` of `n` and `outer` on the other. */
  ghost function Join(s: Side, inner: Tree, n: Node, col: Color, outer: Tree): Tree {
    if s == L then Bin(inner, n, col, outer) else Bin(outer, n, col, inner)
  }

  /** The subtree one level above the end of `c`. */
  ghost function Up(c: Path, t: Tree): Tree
    requires c.Step?
  {
    Join(c.side, t, c.node, c.color, c.other)
  }

  ghost function Plug(c: Path, t: Tree): Tree {
    if c.Top? then t else Plug(c.up, Up(c, t))
  }

  ghost function Compose(c: Path, base: Path): Path {
    if c.Top? then base else c.(up := Compose(c.up, base))
  }

  ghost function Nodes(t: Tree): set<Node> {
    if t.Leaf? then {} else {t.node} + Nodes(t.left) + Nodes(t.right)
  }

  ghost function PathNodes(c: Path): set<Node> {
    if c.Top? then {} else {c.node} + Nodes(c.other) + PathNodes(c.up)
  }

  ghost function Length(c: Path): nat {
    if c.Top? then 0 else 1 + Length(c.up)
  }

  // ----- in-order reading -----

  ghost function InOrder(t: Tree): seq<Node> {
    if t.Leaf? then [] else InOrder(t.left) + [t.node] + InOrder(t.right)
  }

  ghost function Before(c: Path): seq<Node> {
    if c.Top? then [] else if c.side == L then Before(c.up)
    else Before(c.up) + InOrder(c.other) + [c.node]
  }

  ghost function After(c: Path): seq<Node> {
    if c.Top? then [] else if c.side == R then After(c.up)
    else [c.node] + InOrder(c.other) + After(c.up)
  }

  ghost function Whole(c: Path, t: Tree): seq<Node> {
    Before(c) + InOrder(t) + After(c)
  }

  ghost predicate Sorted(s: seq<Node>) {
    forall i, j :: 0 <= i < j < |s| ==> s[i].key < s[j].key
  }

  lemma Regroup<T>(a: seq<T>, x: seq<T>, b: seq<T>, y: seq<T>, d: seq<T>)
    ensures (a + x + b) + y + d == a + x + (b + y + d) == a + (x + b + y) + d
  {
  }

  lemma WholeUp(c: Path, t: Tree)
    requires c.Step?
    ensures Whole(c, t) == Whole(c.up, Up(c, t))
  {
    var n, o := [c.node], InOrder(c.other);
    if c.side == L {
      Regroup(Before(c.up), InOrder(t), n, o, After(c.up));
    } else {
      Regroup(Before(c.up), o, n, InOrder(t), After(c.up));
    }
  }

  lemma {:induction false} WholeIsPlug(c: Path, t: Tree)
    ensures InOrder(Plug(c, t)) == Whole(c, t)
    decreases c
  {
    if c.Step? {
      WholeUp(c, t);
      WholeIsPlug(c.up, Up(c, t));
    }
  }

  ghost function Elements(s: seq<Node>): set<Node> {
    set n | n in s
  }

  lemma ElementsConcat(a: seq<Node>, b: seq<Node>)
    ensures Elements(a + b) == Elements(a) + Elements(b)
  {
  }

  lemma {:induction false} NodesInOrder(t: Tree)
    ensures Nodes(t) == Elements(InOrder(t))
  {
    if t.Bin? {
      NodesInOrder(t.left);
      NodesInOrder(t.right);
      ElementsConcat(InOrder(t.left), [t.node]);
      ElementsConcat(InOrder(t.left) + [t.node], InOrder(t.right));
    }
  }

  lemma {:induction false} NodesOfPlug(c: Path, t: Tree)
    ensures Nodes(Plug(c, t)) == Nodes(t) + PathNodes(c)
    decreases c
  {
    if c.Step? { NodesOfPlug(c.up, Up(c, t)); }
  }

  // ----- no node occurs twice -----

  ghost predicate Apart(t: Tree) {
    t.Bin? ==>
      && t.node !in Nodes(t.left) && t.node !in Nodes(t.right) && Nodes(t.left) !! Nodes(t.right)
      && Apart(t.left) && Apart(t.right)
  }

  ghost predicate PathApart(c: Path) {
    c.Step? ==>
      && c.node !in Nodes(c.other) && c.node !in PathNodes(c.up) && Nodes(c.other) !! PathNodes(c.up)
      && Apart(c.other) && PathApart(c.up)
  }

  // ----- rotations -----

  /** Whether `t` can be rotated towards side `s`. */
  ghost predicate Rotatable(s: Side, t: Tree) {
    t.Bin? && Kid(t, Flip(s)).Bin?
  }

  /** `t` rotated towards side `s` (`RB_ROTATE_LEFT` for `L`). */
  ghost function Rot(s: Side, t: Tree): Tree
    requires Rotatable(s, t)
  {
    var k := Kid(t, Flip(s));
    Join(s, Join(s, Kid(t, s), t.node, t.color, Kid(k, s)), k.node, k.color, Kid(k, Flip(s)))
  }

  lemma JoinOrder(s: Side, a: Tree, n: Node, col: Color, b: Tree)
    ensures InOrder(Join(s, a, n, col, b)) ==
      if s == L then InOrder(a) + [n] + InOrder(b) else InOrder(b) + [n] + InOrder(a)
    ensures Nodes(Join(s, a, n, col, b)) == {n} + Nodes(a) + Nodes(b)
    ensures Apart(Join(s, a, n, col, b)) <==>
      n !in Nodes(a) && n !in Nodes(b) && Nodes(a) !! Nodes(b) && Apart(a) && Apart(b)
  {
  }

  lemma RotKeeps(s: Side, t: Tree)
    requires Rotatable(s, t)
    ensures InOrder(Rot(s, t)) == InOrder(t) && Nodes(Rot(s, t)) == Nodes(t)
    ensures Apart(t) ==> Apart(Rot(s, t))
  {
    var k := Kid(t, Flip(s));
    var a, b, d := Kid(t, s), Kid(k, s), Kid(k, Flip(s));
    JoinOrder(s, a, t.node, t.color, k);
    JoinOrder(s, b, k.node, k.color, d);
    JoinOrder(s, a, t.node, t.color, b);
    JoinOrder(s, Join(s, a, t.node, t.color, b), k.node, k.color, d);
    Regroup(InOrder(a), [t.node], InOrder(b), [k.node], InOrder(d));
    Regroup(InOrder(d), [k.node], InOrder(b), [t.node], InOrder(a));
  }

  // ----- colours and black heights -----

  ghost predicate IsBlack(t: Tree) {
    t.Leaf? || t.color == Black
  }

  /** No red node of `t` has a red child, and every path down `t` meets `h` black nodes. */
  ghost predicate Ok(t: Tree, h: nat) {
    if t.Leaf? then h == 0
    else if t.color == Red then IsBlack(t.left) && IsBlack(t.right) && Ok(t.left, h) && Ok(t.right, h)
    else h > 0 && Ok(t.left, h - 1) && Ok(t.right, h - 1)
  }

  /** `c` becomes balanced when a subtree of black height `h` is plugged in. */
  ghost predicate PathOk(c: Path, h: nat) {
    c.Step? ==>
      && Ok(c.other, h) && PathOk(c.up, Rise(c, h))
      && (c.color == Red ==> IsBlack(c.other) && c.up.Step? && c.up.color == Black)
  }

  /** The black height one level up. */
  ghost function Rise(c: Path, h: nat): nat
    requires c.Step?
  {
    if c.color == Red then h else h + 1
  }

  /** `Plug(c, t)` is a red-black tree with a black root; `t` has black height `h`. */
  ghost predicate Fit(c: Path, t: Tree, h: nat) {
    PathOk(c, h) && Ok(t, h) && (IsBlack(t) || (c.Step? && c.color == Black))
  }

  lemma FitUp(c: Path, t: Tree, h: nat)
    requires c.Step?
    ensures Fit(c, t, h) <==> Fit(c.up, Up(c, t), Rise(c, h))
  {
  }

  lemma {:induction false} FitTop(c: Path, t: Tree, h: nat) returns (top: nat)
    requires Fit(c, t, h)
    ensures Fit(Top, Plug(c, t), top)
    decreases c
  {
    if c.Top? {
      top := h;
    } else {
      FitUp(c, t, h);
      top := FitTop(c.up, Up(c, t), Rise(c, h));
    }
  }

  /** The balance of a path does not depend on which node stands where two paths meet. */
  lemma {:induction false} PathOkRename(c: Path, base: Path, n: Node, h: nat)
    requires base.Step? && PathOk(Compose(c, base), h)
    ensures PathOk(Compose(c, base.(node := n)), h)
    decreases c
  {
    if c.Step? { PathOkRename(c.up, base, n, Rise(c, h)); }
  }

  // ----- height -----

  ghost function Height(t: Tree): nat {
    if t.Leaf? then 0
    else 1 + if Height(t.left) >= Height(t.right) then Height(t.left) else Height(t.right)
  }

  ghost function Pow2(n: nat): nat {
    if n == 0 then 1 else 2 * Pow2(n - 1)
  }

  lemma {:induction false} BlackHeightBounds(t: Tree, h: nat)
    requires Ok(t, h)
    ensures Pow2(h) <= |InOrder(t)| + 1
    ensures Height(t) <= 2 * h + (if IsBlack(t) then 0 else 1)
  {
    if t.Bin? {
      var k := if t.color == Red then h else h - 1;
      BlackHeightBounds(t.left, k);
      BlackHeightBounds(t.right, k);
    }
  }

  lemma {:induction false} Pow2Monotone(m: nat, n: nat)
    requires m <= n
    ensures 0 < Pow2(m) <= Pow2(n)
    decreases n
  {
    if m < n {
      Pow2Monotone(m, n - 1);
    } else if n > 0 {
      Pow2Monotone(n - 1, n - 1);
    }
  }

  lemma {:induction false} Pow2Twice(n: nat)
    ensures Pow2(2 * n) == Pow2(n) * Pow2(n)
  {
    if n > 0 {
      Pow2Twice(n - 1);
      assert Pow2(2 * n) == 2 * (2 * Pow2(2 * (n - 1)));
    }
  }

  lemma SquareMonotone(a: nat, b: nat)
    requires a <= b
    ensures a * a <= b * b
  {
    assert a * a <= a * b <= b * b;
  }

  /**
    The maximum height of a red-black tree of `n` nodes is `2 lg (n + 1)`: the bound the
    header states, without logarithms.
   */
  lemma HeightBound(t: Tree, h: nat)
    requires Fit(Top, t, h)
    ensures Pow2(Height(t)) <= (|InOrder(t)| + 1) * (|InOrder(t)| + 1)
  {
    BlackHeightBounds(t, h);
    Pow2Monotone(Height(t), 2 * h);
    Pow2Twice(h);
    SquareMonotone(Pow2(h), |InOrder(t)| + 1);
  }
}
