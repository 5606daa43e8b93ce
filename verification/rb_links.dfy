/**
  The fields of the nodes as snapshots (`Links`), the pointer operations of
  `libuv/include/uv/tree.h` as updates of a snapshot, and what each of them does to the
  shape the snapshot holds.
 */
module RbLinks {
  import opened RbShape

  /** What the fields of one node hold. */
  datatype Link = Link(left: Node?, right: Node?, parent: Node?, color: Color)

  /** The fields of a set of nodes. */
  type Links = map<Node, Link>

  ghost function Child(k: Link, s: Side): Node? {
    if s == L then k.left else k.right
  }

  ghost function WithChild(k: Link, s: Side, v: Node?): Link {
    if s == L then k.(left := v) else k.(right := v)
  }

  // ----- a shape held by a snapshot -----

  /** In `m` every node of `t` has the links its shape asks for; the root's parent is `p`. */
  ghost predicate Linked(t: Tree, p: Node?, m: Links) {
    t.Bin? ==>
      && t.node in m && m[t.node] == Link(Root(t.left), Root(t.right), p, t.color)
      && Linked(t.left, t.node, m) && Linked(t.right, t.node, m)
  }

  /** The same for the nodes along a path, with `hole` at the path's end. */
  ghost predicate PathLinked(c: Path, hole: Node?, m: Links) {
    c.Step? ==>
      && c.node in m && m[c.node].parent == Holder(c.up) && m[c.node].color == c.color
      && Child(m[c.node], c.side) == hole && Child(m[c.node], Flip(c.side)) == Root(c.other)
      && Linked(c.other, c.node, m) && PathLinked(c.up, c.node, m)
  }

  /** The root of the tree whose path `c` ends in a subtree rooted at `hole`. */
  ghost function Summit(c: Path, hole: Node?): Node? {
    if c.Top? then hole else Summit(c.up, c.node)
  }

  /** `m` and `root` hold exactly `Plug(c, t)`, in which no node occurs twice. */
  ghost predicate Here(c: Path, t: Tree, m: Links, root: Node?) {
    && PathLinked(c, Root(t), m) && Linked(t, Holder(c), m) && root == Summit(c, Root(t))
    && Apart(t) && PathApart(c) && Nodes(t) !! PathNodes(c)
  }

  lemma HereUp(c: Path, t: Tree, m: Links, root: Node?)
    requires c.Step?
    ensures Here(c, t, m, root) <==> Here(c.up, Up(c, t), m, root)
  {
    JoinOrder(c.side, t, c.node, c.color, c.other);
  }

  lemma {:induction false} HerePlug(c: Path, base: Path, t: Tree, m: Links, root: Node?)
    ensures Here(Compose(c, base), t, m, root) <==> Here(base, Plug(c, t), m, root)
    decreases c
  {
    if c.Step? {
      HereUp(Compose(c, base), t, m, root);
      HerePlug(c.up, base, Up(c, t), m, root);
    }
  }

  // ----- what an update leaves alone -----

  ghost predicate Agree(s: set<Node>, m: Links, m': Links) {
    forall n :: n in s && n in m ==> n in m' && m'[n] == m[n]
  }

  lemma {:induction false} LinkedFrame(t: Tree, p: Node?, m: Links, m': Links)
    requires Linked(t, p, m) && Agree(Nodes(t), m, m')
    ensures Linked(t, p, m')
  {
    if t.Bin? {
      LinkedFrame(t.left, t.node, m, m');
      LinkedFrame(t.right, t.node, m, m');
    }
  }

  lemma {:induction false} PathFrame(c: Path, hole: Node?, m: Links, m': Links)
    requires PathLinked(c, hole, m) && Agree(PathNodes(c), m, m')
    ensures PathLinked(c, hole, m')
  {
    if c.Step? {
      LinkedFrame(c.other, c.node, m, m');
      PathFrame(c.up, c.node, m, m');
    }
  }

  /** Giving the root of `t` another parent leaves the rest of `t` linked. */
  lemma LinkedReparent(t: Tree, p: Node?, q: Node?, m: Links, m': Links)
    requires Apart(t) && Linked(t, p, m) && Agree(Nodes(t) - {Root(t)}, m, m')
    requires t.Bin? ==> t.node in m' && m'[t.node] == m[t.node].(parent := q)
    ensures Linked(t, q, m')
  {
    if t.Bin? {
      LinkedFrame(t.left, t.node, m, m');
      LinkedFrame(t.right, t.node, m, m');
    }
  }

  // ----- pointer operations -----

  /** The child field of `parent` that holds `elm` made to hold `tmp`. */
  ghost function Relinked(m: Links, parent: Node?, elm: Node, tmp: Node?): Links
    requires parent == null || parent in m
  {
    if parent == null then m
    else if m[parent].left == elm then m[parent := m[parent].(left := tmp)]
    else m[parent := m[parent].(right := tmp)]
  }

  lemma PathRelink(c: Path, h0: Node, h1: Node?, m: Links)
    requires PathApart(c) && PathLinked(c, h0, m) && h0 !in PathNodes(c)
    ensures PathLinked(c, h1, Relinked(m, Holder(c), h0, h1))
    ensures c.Step? ==> Summit(c, h1) == Summit(c, h0)
  {
    if c.Step? {
      LinkedFrame(c.other, c.node, m, Relinked(m, c.node, h0, h1));
      PathFrame(c.up, c.node, m, Relinked(m, c.node, h0, h1));
    }
  }

  /** What a rotation of `x` towards `s` needs: a child on the other side, four separate nodes. */
  ghost predicate CanRotate(m: Links, x: Node, s: Side) {
    x in m && Child(m[x], Flip(s)) != null &&
    var y: Node, p := Child(m[x], Flip(s)), m[x].parent;
    y in m && x != y &&
    var b := Child(m[y], s);
    && (b != null ==> b in m && b != x && b != y)
    && (p != null ==> p in m && p != x && p != y && p != b)
  }

  /** The assignments of a rotation up to the one of the child's parent field, in order. */
  ghost function Detached(m: Links, x: Node, s: Side): Links
    requires CanRotate(m, x, s)
  {
    var y: Node := Child(m[x], Flip(s));
    var b := Child(m[y], s);
    var m1 := m[x := WithChild(m[x], Flip(s), b)];
    var m2 := if b == null then m1 else m1[b := m1[b].(parent := x)];
    m2[y := m2[y].(parent := m2[x].parent)]
  }

  /** `RB_ROTATE_LEFT` (`s == L`) and `RB_ROTATE_RIGHT` (`s == R`). */
  ghost function Rotated(m: Links, x: Node, s: Side): Links
    requires CanRotate(m, x, s)
  {
    var y: Node := Child(m[x], Flip(s));
    var m3 := Relinked(Detached(m, x, s), m[x].parent, x, y);
    var m4 := m3[y := WithChild(m3[y], s, x)];
    m4[x := m4[x].(parent := y)]
  }

  /** The assignments of `RB_ROTATE_LEFT` one by one, before and after the relinking. */
  lemma DetachedLeft(m: Links, x: Node)
    requires CanRotate(m, x, L)
    ensures x in m && m[x].right != null && m[x].right in m && m[x].right != x
    ensures var y: Node, p := m[x].right, m[x].parent; var b := m[y].left;
      && (b != null ==> b in m && b != x && b != y)
      && (p != null ==> p in m && p != x && p != y && p != b)
      && var m1 := m[x := m[x].(right := b)];
         var m2 := if b == null then m1 else m1[b := m1[b].(parent := x)];
         Detached(m, x, L) == m2[y := m2[y].(parent := p)]
  {
  }

  lemma AttachedLeft(m: Links, x: Node)
    requires CanRotate(m, x, L)
    ensures x in m && m[x].right != null && (m[x].parent != null ==> m[x].parent in Detached(m, x, L))
    ensures var y: Node, p := m[x].right, m[x].parent;
      var m3 := Relinked(Detached(m, x, L), p, x, y);
      && m3.Keys == m.Keys && x in m3 && y in m3
      && var m4 := m3[y := m3[y].(left := x)]; Rotated(m, x, L) == m4[x := m4[x].(parent := y)]
  {
  }

  /** The assignments of `RB_ROTATE_RIGHT` one by one, before and after the relinking. */
  lemma DetachedRight(m: Links, x: Node)
    requires CanRotate(m, x, R)
    ensures x in m && m[x].left != null && m[x].left in m && m[x].left != x
    ensures var y: Node, p := m[x].left, m[x].parent; var b := m[y].right;
      && (b != null ==> b in m && b != x && b != y)
      && (p != null ==> p in m && p != x && p != y && p != b)
      && var m1 := m[x := m[x].(left := b)];
         var m2 := if b == null then m1 else m1[b := m1[b].(parent := x)];
         Detached(m, x, R) == m2[y := m2[y].(parent := p)]
  {
  }

  lemma AttachedRight(m: Links, x: Node)
    requires CanRotate(m, x, R)
    ensures x in m && m[x].left != null && (m[x].parent != null ==> m[x].parent in Detached(m, x, R))
    ensures var y: Node, p := m[x].left, m[x].parent;
      var m3 := Relinked(Detached(m, x, R), p, x, y);
      && m3.Keys == m.Keys && x in m3 && y in m3
      && var m4 := m3[y := m3[y].(right := x)]; Rotated(m, x, R) == m4[x := m4[x].(parent := y)]
  {
  }

  /** A rotation writes the two rotated nodes, the subtree that changes hands and the holder. */
  lemma RotatedFields(m: Links, x: Node, s: Side)
    requires CanRotate(m, x, s)
    ensures var y: Node, p, m' := Child(m[x], Flip(s)), m[x].parent, Rotated(m, x, s);
      var b := Child(m[y], s);
      && m'.Keys == m.Keys
      && m'[x] == WithChild(m[x], Flip(s), b).(parent := y)
      && m'[y] == WithChild(m[y], s, x).(parent := p)
      && (b != null ==> m'[b] == m[b].(parent := x))
      && (p != null ==> m'[p] == Relinked(m, p, x, y)[p])
      && (forall n :: n in m && n != x && n != y && n != b && n != p ==> m'[n] == m[n])
  {
  }

  lemma HereCanRotate(c: Path, t: Tree, m: Links, root: Node?, s: Side)
    requires Here(c, t, m, root) && Rotatable(s, t)
    ensures CanRotate(m, t.node, s)
    ensures var k := Kid(t, Flip(s));
      && m[t.node].parent == Holder(c) && Child(m[t.node], Flip(s)) == k.node
      && Child(m[k.node], s) == Root(Kid(k, s))
      && k.node in Nodes(t) && (Kid(k, s).Bin? ==> Kid(k, s).node in Nodes(t))
  {
    var k := Kid(t, Flip(s));
    assert Linked(k, t.node, m) && Linked(Kid(k, s), k.node, m);
    assert Kid(k, s).Bin? ==> Kid(k, s).node in Nodes(Kid(k, s));
    assert Nodes(Kid(k, s)) <= Nodes(k) <= Nodes(t);
  }

  lemma TreeRotate(t: Tree, p: Node?, m: Links, m': Links, s: Side)
    requires Rotatable(s, t) && Apart(t) && Linked(t, p, m)
    requires var x, y, b := t.node, Kid(t, Flip(s)).node, Root(Kid(Kid(t, Flip(s)), s));
      && x in m' && m'[x] == WithChild(m[x], Flip(s), b).(parent := y)
      && y in m' && y in m && m'[y] == WithChild(m[y], s, x).(parent := p)
      && (b != null ==> b in m' && b in m && m'[b] == m[b].(parent := x))
      && Agree(Nodes(t) - {x, y, b}, m, m')
    ensures Linked(Rot(s, t), p, m')
  {
    hide Agree, InOrder;
    var k := Kid(t, Flip(s));
    var x, y, a, b, d := t.node, k.node, Kid(t, s), Kid(k, s), Kid(k, Flip(s));
    assert Linked(k, x, m);
    assert Linked(a, x, m) && Linked(b, y, m) && Linked(d, y, m);
    RotateApart(t, m, m', s);
    hide Apart, Nodes;
    LinkedFrame(a, x, m, m');
    LinkedFrame(d, y, m, m');
    LinkedReparent(b, y, x, m, m');
    assert Linked(Join(s, a, x, t.color, b), y, m');
  }

  /** The subtrees that a rotation leaves alone. */
  lemma RotateApart(t: Tree, m: Links, m': Links, s: Side)
    requires Rotatable(s, t) && Apart(t)
    requires Agree(Nodes(t) - {t.node, Kid(t, Flip(s)).node, Root(Kid(Kid(t, Flip(s)), s))}, m, m')
    ensures var k := Kid(t, Flip(s)); var b := Kid(k, s);
      && Agree(Nodes(Kid(t, s)), m, m') && Agree(Nodes(Kid(k, Flip(s))), m, m')
      && Apart(b) && Agree(Nodes(b) - {Root(b)}, m, m') && t.node != k.node
  {
    hide InOrder;
    var k := Kid(t, Flip(s));
    var b := Kid(k, s);
    assert b.Bin? ==> b.node in Nodes(b);
  }

  /** A rotation in the heap is a rotation of the shape. */
  lemma HereRotate(c: Path, t: Tree, m: Links, root: Node?, s: Side)
    requires Here(c, t, m, root) && Rotatable(s, t)
    ensures CanRotate(m, t.node, s)
    ensures var y := Kid(t, Flip(s)).node;
      Here(c, Rot(s, t), Rotated(m, t.node, s), if c.Top? then y else root)
  {
    HereCanRotate(c, t, m, root, s);
    RotatedAgrees(c, t, m, root, s);
    var x, y, m' := t.node, Kid(t, Flip(s)).node, Rotated(m, t.node, s);
    hide CanRotate, Rotated, Agree, Apart, PathApart, InOrder;
    TreeRotate(t, Holder(c), m, m', s);
    PathRelink(c, x, y, m);
    PathFrame(c, y, Relinked(m, Holder(c), x, y), m');
    RotKeeps(s, t);
  }

  /** A rotation changes nothing but the three nodes, and the parent's pointer. */
  lemma RotatedAgrees(c: Path, t: Tree, m: Links, root: Node?, s: Side)
    requires Here(c, t, m, root) && Rotatable(s, t) && CanRotate(m, t.node, s)
    ensures var x, y, b, m' := t.node, Kid(t, Flip(s)).node, Root(Kid(Kid(t, Flip(s)), s)), Rotated(m, t.node, s);
      && y in m
      && x in m' && m'[x] == WithChild(m[x], Flip(s), b).(parent := y)
      && y in m' && m'[y] == WithChild(m[y], s, x).(parent := Holder(c))
      && (b != null ==> b in m' && b in m && m'[b] == m[b].(parent := x))
      && Agree(Nodes(t) - {x, y, b}, m, m')
      && (Holder(c) == null || Holder(c) in m) && Agree(PathNodes(c), Relinked(m, Holder(c), x, y), m')
      && x !in PathNodes(c)
  {
    HereCanRotate(c, t, m, root, s);
    RotatedFields(m, t.node, s);
    hide Linked, Apart, PathApart, Rotated, InOrder;
    assert Holder(c) != null ==> Holder(c) in PathNodes(c);
  }

  lemma HereRecolor(c: Path, t: Tree, m: Links, root: Node?, col: Color)
    requires Here(c, t, m, root) && t.Bin?
    ensures Here(c, t.(color := col), m[t.node := m[t.node].(color := col)], root)
  {
    var m' := m[t.node := m[t.node].(color := col)];
    PathFrame(c, t.node, m, m');
    LinkedFrame(t.left, t.node, m, m');
    LinkedFrame(t.right, t.node, m, m');
  }
}
