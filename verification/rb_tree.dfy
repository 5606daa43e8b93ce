/**
  `RB_INSERT`, `RB_REMOVE`, their recolouring loops and the searches and walks of
  `libuv/include/uv/tree.h`, on a heap of nodes.
 */
module RbTree {
  import opened RbShape
  import opened RbLinks
  import opened RbFixup

  lemma {:induction false} ComposeTop(c: Path)
    ensures Compose(c, Top) == c
  {
    if c.Step? { ComposeTop(c.up); }
  }

  /** Painting the root of a balanced tree black leaves it balanced. */
  lemma InsertDone(c: Path, t: Tree, h: nat, m: Links, root: Node?) returns (t': Tree, top: nat)
    requires Here(c, t, m, root) && Loose(c, t, h) && (c.Step? ==> c.color == Black)
    ensures root != null && root in m
    ensures Here(Top, t', Painted(m, root, Black), root) && Fit(Top, t', top) && Whole(Top, t') == Whole(c, t)
  {
    ComposeTop(c);
    HerePlug(c, Top, t, m, root);
    WholeIsPlug(c, t);
    PlugBin(c, t);
    HereRecolor(Top, Plug(c, t), m, root, Black);
    t' := Plug(c, t).(color := Black);
    assert InOrder(t') == InOrder(Plug(c, t));
    if c.Top? {
      top := h + 1;
    } else {
      top := FitTop(c, t, h);
    }
  }

  lemma {:induction false} PlugBin(c: Path, t: Tree)
    requires t.Bin?
    ensures Plug(c, t).Bin?
    decreases c
  {
    if c.Step? { PlugBin(c.up, Up(c, t)); }
  }

  // ----- searching -----

  /** The comparison a tree is generated with. */
  function Cmp(a: int, b: int): (c: int)
    ensures (c < 0 <==> a < b) && (c > 0 <==> a > b)
  {
    if a < b then -1 else if a > b then 1 else 0
  }

  /** Everything before the end of `c` is smaller than `key`, everything after it is larger. */
  ghost predicate Between(c: Path, key: int) {
    && (forall i :: 0 <= i < |Before(c)| ==> Before(c)[i].key < key)
    && (forall i :: 0 <= i < |After(c)| ==> key < After(c)[i].key)
  }

  /** The black height of the children of `t`. */
  ghost function Below(t: Tree, h: nat): nat {
    if t.Bin? && t.color == Black && h > 0 then h - 1 else h
  }

  /** A search for `key` has come down `c` to the subtree `t`, where the key is if it is anywhere. */
  ghost predicate Search(c: Path, t: Tree, h: nat, m: Links, root: Node?, order: seq<Node>, key: int) {
    && Here(c, t, m, root) && Fit(c, t, h) && m.Keys == Nodes(t) + PathNodes(c)
    && Whole(c, t) == order && Sorted(order) && Between(c, key)
  }

  lemma SearchDown(c: Path, t: Tree, h: nat, m: Links, root: Node?, order: seq<Node>, key: int)
    requires Search(c, t, h, m, root, order, key) && t.Bin?
    ensures t.node in m
    ensures m[t.node].left == (if t.left.Leaf? then null else t.left.node)
    ensures m[t.node].right == (if t.right.Leaf? then null else t.right.node)
    ensures key < t.node.key ==>
      Search(Step(c, L, t.node, t.color, t.right), t.left, Below(t, h), m, root, order, key)
    ensures key > t.node.key ==>
      Search(Step(c, R, t.node, t.color, t.left), t.right, Below(t, h), m, root, order, key)
  {
    if key < t.node.key {
      Descend(c, t, h, m, root, L);
      DownBetween(c, t, key, L);
    } else if key > t.node.key {
      Descend(c, t, h, m, root, R);
      DownBetween(c, t, key, R);
    }
  }

  lemma Descend(c: Path, t: Tree, h: nat, m: Links, root: Node?, s: Side)
    requires t.Bin? && Here(c, t, m, root) && Fit(c, t, h)
    ensures var c' := Step(c, s, t.node, t.color, Kid(t, Flip(s))); var t' := Kid(t, s);
      && Here(c', t', m, root) && Fit(c', t', Below(t, h)) && Whole(c', t') == Whole(c, t)
      && Nodes(t) + PathNodes(c) == Nodes(t') + PathNodes(c')
  {
    var c', t' := Step(c, s, t.node, t.color, Kid(t, Flip(s))), Kid(t, s);
    assert Up(c', t') == t;
    HereUp(c', t', m, root);
    FitUp(c', t', Below(t, h));
    WholeUp(c', t');
  }

  /** Going down past a node of another key keeps the key between the two halves. */
  lemma DownBetween(c: Path, t: Tree, key: int, s: Side)
    requires t.Bin? && Sorted(Whole(c, t)) && Between(c, key)
    requires if s == L then key < t.node.key else key > t.node.key
    ensures Between(Step(c, s, t.node, t.color, Kid(t, Flip(s))), key)
  {
    AroundNode(Before(c), InOrder(t.left), t.node, InOrder(t.right), After(c));
    hide Sorted;
  }

  lemma AroundNode(before: seq<Node>, left: seq<Node>, x: Node, right: seq<Node>, after: seq<Node>)
    requires Sorted(before + (left + [x] + right) + after)
    ensures forall n :: n in left ==> n.key < x.key
    ensures forall n :: n in right ==> n.key > x.key
  {
    var w, i := before + (left + [x] + right) + after, |before| + |left|;
    assert w[i] == x;
    assert forall k :: 0 <= k < |left| ==> left[k] == w[|before| + k];
    assert forall k :: 0 <= k < |right| ==> right[k] == w[i + 1 + k];
  }

  lemma SearchSplit(c: Path, h: nat, m: Links, root: Node?, order: seq<Node>, key: int)
    requires Search(c, Leaf, h, m, root, order, key)
    ensures Between(c, key) && Sorted(Before(c) + After(c))
    ensures m.Keys == Elements(Before(c)) + Elements(After(c))
  {
    NodesOfLeaf(c);
  }

  lemma NodesOfLeaf(c: Path)
    ensures Whole(c, Leaf) == Before(c) + After(c)
    ensures Nodes(Leaf) + PathNodes(c) == Elements(Before(c)) + Elements(After(c))
  {
    hide Elements, PathNodes, Before, After;
    NodesOfWhole(c, Leaf);
    ElementsConcat(Before(c), After(c));
    assert Whole(c, Leaf) == Before(c) + After(c);
  }

  /** A search that ends at an empty subtree shows that the key is nowhere. */
  lemma SearchMissed(c: Path, h: nat, m: Links, root: Node?, order: seq<Node>, key: int)
    requires Search(c, Leaf, h, m, root, order, key)
    ensures forall n :: n in m ==> n.key != key
  {
    hide Search, Before, After;
    SearchSplit(c, h, m, root, order, key);
    assert forall n :: n in m ==> n in m.Keys;
  }

  lemma NodesOfWhole(c: Path, t: Tree)
    ensures Nodes(t) + PathNodes(c) == Elements(Whole(c, t))
  {
    WholeIsPlug(c, t);
    NodesOfPlug(c, t);
    NodesInOrder(Plug(c, t));
  }

  /** `s'` is `s` with `x` put in somewhere. */
  ghost predicate Inserted(s: seq<Node>, x: Node, s': seq<Node>) {
    exists k :: 0 <= k <= |s| && s' == s[..k] + [x] + s[k..]
  }

  lemma HungOrder(c: Path, h: nat, m: Links, root: Node?, order: seq<Node>, elm: Node)
    requires Search(c, Leaf, h, m, root, order, elm.key)
    ensures var t := Bin(Leaf, elm, Red, Leaf); Sorted(Whole(c, t)) && Inserted(order, elm, Whole(c, t))
  {
    var a, b := Before(c), After(c);
    assert order == a + b;
    SortedInsert(a, elm, b);
    assert Whole(c, Bin(Leaf, elm, Red, Leaf)) == a + [elm] + b;
    assert order[..|a|] == a && order[|a|..] == b;
  }

  lemma SortedInsert(a: seq<Node>, x: Node, b: seq<Node>)
    requires Sorted(a + b)
    requires forall i :: 0 <= i < |a| ==> a[i].key < x.key
    requires forall i :: 0 <= i < |b| ==> x.key < b[i].key
    ensures Sorted(a + [x] + b)
  {
    var w, s := a + [x] + b, a + b;
    forall i, j | 0 <= i < j < |w| ensures w[i].key < w[j].key {
      if i != |a| && j != |a| {
        assert w[i] == s[if i < |a| then i else i - 1] && w[j] == s[if j < |a| then j else j - 1];
      }
    }
  }

  lemma HungFresh(c: Path, h: nat, m: Links, root: Node?, order: seq<Node>, elm: Node)
    requires Search(c, Leaf, h, m, root, order, elm.key)
    ensures elm !in m && elm !in PathNodes(c) && m.Keys == PathNodes(c)
    ensures PathLinked(c, null, m) && PathApart(c) && root == Summit(c, null) && Loose(c, Bin(Leaf, elm, Red, Leaf), 0)
  {
    SearchMissed(c, h, m, root, order, elm.key);
    hide Before, After, InOrder, Sorted, Between;
    assert elm !in m.Keys;
  }

  lemma HungHere(c: Path, m: Links, root: Node?, elm: Node)
    requires elm !in m && elm !in PathNodes(c) && PathLinked(c, null, m) && PathApart(c) && root == Summit(c, null)
    ensures c.Step? ==> c.node in m
    ensures var t := Bin(Leaf, elm, Red, Leaf);
      && Nodes(t) + PathNodes(c) == PathNodes(c) + {elm}
      && var m1 := m[elm := Link(null, null, if c.Top? then null else c.node, Red)];
      && (c.Top? ==> Here(c, t, m1, elm))
      && (c.Step? && c.side == L ==> Here(c, t, m1[c.node := m1[c.node].(left := elm)], root))
      && (c.Step? && c.side == R ==> Here(c, t, m1[c.node := m1[c.node].(right := elm)], root))
  {
    var m1 := m[elm := Link(null, null, Holder(c), Red)];
    if c.Step? {
      var m2 := m1[c.node := WithChild(m1[c.node], c.side, elm)];
      LinkedFrame(c.other, c.node, m, m2);
      PathFrame(c.up, c.node, m, m2);
    }
  }

  lemma HungLinks(c: Path, h: nat, m: Links, root: Node?, order: seq<Node>, elm: Node)
    requires Search(c, Leaf, h, m, root, order, elm.key)
    ensures elm !in m
    ensures c.Step? ==> c.node in m
    ensures var t := Bin(Leaf, elm, Red, Leaf);
      && Loose(c, t, 0) && m.Keys + {elm} == Nodes(t) + PathNodes(c)
      && var m1 := m[elm := Link(null, null, if c.Top? then null else c.node, Red)];
      && (c.Top? ==> Here(c, t, m1, elm))
      && (c.Step? && c.side == L ==> Here(c, t, m1[c.node := m1[c.node].(left := elm)], root))
      && (c.Step? && c.side == R ==> Here(c, t, m1[c.node := m1[c.node].(right := elm)], root))
  {
    HungFresh(c, h, m, root, order, elm);
    HungHere(c, m, root, elm);
  }

  lemma ToTop(c: Path, t: Tree, h: nat, m: Links, root: Node?) returns (t': Tree, top: nat)
    requires Here(c, t, m, root) && Fit(c, t, h)
    ensures Here(Top, t', m, root) && Fit(Top, t', top) && Whole(Top, t') == Whole(c, t)
    ensures root == if t'.Leaf? then null else t'.node
  {
    ComposeTop(c);
    HerePlug(c, Top, t, m, root);
    WholeIsPlug(c, t);
    t' := Plug(c, t);
    top := FitTop(c, t, h);
  }

  lemma FocusReads(c: Path, t: Tree, m: Links, root: Node?)
    requires Here(c, t, m, root)
    ensures t.Bin? ==> t.node in m && m[t.node].color == t.color
    ensures c.Top? <==> root == if t.Leaf? then null else t.node
    ensures IsBlack(t) <==> t.Leaf? || t.color == Black
  {
    SummitOnPath(c, Root(t));
  }

  lemma RemoveDone(c: Path, t: Tree, h: nat, m: Links, root: Node?) returns (t': Tree, top: nat)
    requires Here(c, t, m, root) && (Short(c, t, h) || (c.Top? && Fit(c, t, h)))
    requires c.Top? || (t.Bin? && t.color == Red)
    ensures t.Bin? ==> t.node in m
    ensures Here(Top, t', if t.Leaf? then m else Painted(m, t.node, Black), root)
    ensures Fit(Top, t', top) && Whole(Top, t') == Whole(c, t)
  {
    if t.Leaf? {
      t', top := t, h;
    } else {
      var t1 := t.(color := Black);
      HereRecolor(c, t, m, root, Black);
      WholePaint(c, t, Black);
      t', top := ToTop(c, t1, if t.color == Red then h + 1 else h, Painted(m, t.node, Black), root);
    }
  }

  lemma KidReads(c: Path, t: Tree, m: Links, root: Node?)
    requires Here(c, t, m, root) && t.Bin?
    ensures t.node in m
    ensures m[t.node].left == (if t.left.Leaf? then null else t.left.node)
    ensures m[t.node].right == (if t.right.Leaf? then null else t.right.node)
    ensures t.left.Bin? ==> t.left.node in m
    ensures t.right.Bin? ==> t.right.node in m
  {
    assert Linked(t.left, t.node, m) && Linked(t.right, t.node, m);
  }

  lemma LeftmostBegins(base: Path)
    ensures Compose(Top, base) == base && Before(Top) == []
  {
  }

  lemma LeftmostDown(c: Path, base: Path, t: Tree, h: nat, m: Links, root: Node?)
    returns (c': Path, t': Tree, h': nat)
    requires Here(Compose(c, base), t, m, root) && Fit(Compose(c, base), t, h) && Before(c) == []
    requires t.Bin? && t.left.Bin?
    ensures Here(Compose(c', base), t', m, root) && Fit(Compose(c', base), t', h') && Before(c') == []
    ensures t' == t.left && Whole(Compose(c', base), t') == Whole(Compose(c, base), t)
  {
    c', t', h' := Step(c, L, t.node, t.color, t.right), t.left, Below(t, h);
    Descend(Compose(c, base), t, h, m, root, L);
  }

  /** The right subtree of a node with two children, where the walk to the successor begins. */
  lemma InnerBegins(c: Path, t: Tree, h: nat, m: Links, root: Node?) returns (h': nat)
    requires Here(c, t, m, root) && Fit(c, t, h) && t.Bin?
    ensures var base := Step(c, R, t.node, t.color, t.left);
      Here(base, t.right, m, root) && Fit(base, t.right, h') && Whole(base, t.right) == Whole(c, t)
  {
    h' := Below(t, h);
    Descend(c, t, h, m, root, R);
  }

  lemma InnerReads(c: Path, base: Path, t: Tree, m: Links, root: Node?)
    requires Here(Compose(c, base), t, m, root) && base.Step? && t.Bin?
    ensures Compose(c, base).Step? && t.node != base.node
    ensures forall n: Node :: var c' := Compose(c, base.(node := n)); c'.Step? && c'.node == if c.Top? then n else c.node
    ensures Compose(c, base).node == if c.Top? then base.node else c.node
    ensures c.Step? ==> c.node != base.node
  {
    ComposeHolder(c, base);
  }

  /** What taking the successor out and renaming its place does to the balance and the order. */
  lemma InnerSplice(c: Path, base: Path, t: Tree, h: nat) returns (k: Tree)
    requires Fit(Compose(c, base), t, h) && base.Step? && base.side == R && Before(c) == []
    requires t.Bin? && t.left.Leaf?
    ensures k == Single(t) == t.right
    ensures var c' := Compose(c, base.(node := t.node));
      && (t.color == Red ==> Fit(c', k, h)) && (t.color == Black ==> h > 0 && Short(c', k, h - 1))
      && Removed(Whole(Compose(c, base), t), base.node, Whole(c', k))
  {
    k := t.right;
    SpliceBalance(Compose(c, base), t, h);
    RenamedBalance(c, base, k, t.node, h);
    if h > 0 { RenamedBalance(c, base, k, t.node, h - 1); }
    RenamedOrder(c, base, t);
  }

  lemma OuterSplice(c: Path, t: Tree, h: nat)
    requires Fit(c, t, h) && t.Bin? && (t.left.Leaf? || t.right.Leaf?)
    ensures Single(t) == if t.left.Leaf? then t.right else t.left
    ensures t.color == Red ==> Fit(c, Single(t), h)
    ensures t.color == Black ==> h > 0 && Short(c, Single(t), h - 1)
    ensures Removed(Whole(c, t), t.node, Whole(c, Single(t)))
  {
    SpliceBalance(c, t, h);
    SpliceOrder(c, t);
  }

  lemma WholeTop(t: Tree)
    ensures Whole(Top, t) == InOrder(t) && Nodes(t) == Elements(InOrder(t))
  {
    NodesInOrder(t);
    assert Before(Top) == [] && After(Top) == [];
  }

  lemma {:induction false} LocateFrom(c: Path, t: Tree, h: nat, m: Links, root: Node?, n: Node)
    returns (c': Path, t': Tree, h': nat)
    requires Here(c, t, m, root) && Fit(c, t, h) && n in Nodes(t)
    ensures Here(c', t', m, root) && Fit(c', t', h') && t'.Bin? && t'.node == n && Whole(c', t') == Whole(c, t)
    decreases t
  {
    if t.node == n {
      c', t', h' := c, t, h;
    } else {
      var s := if n in Nodes(t.left) then L else R;
      Descend(c, t, h, m, root, s);
      c', t', h' := LocateFrom(Step(c, s, t.node, t.color, Kid(t, Flip(s))), Kid(t, s), Below(t, h), m, root, n);
    }
  }

  // ----- neighbours in the order -----

  lemma AfterTop()
    ensures After(Top) == []
  {
  }

  lemma AfterDown(c: Path, t: Tree)
    requires t.Bin?
    ensures After(Step(c, R, t.node, t.color, t.left)) == After(c)
    ensures var a := After(Step(c, L, t.node, t.color, t.right)); a != [] && a[0] == t.node
  {
  }

  lemma SortedTail(a: seq<Node>, b: seq<Node>)
    requires Sorted(a + b)
    ensures forall n :: n in Elements(b) ==> b[0].key <= n.key
  {
    forall n | n in Elements(b) ensures b[0].key <= n.key {
      var k :| 0 <= k < |b| && b[k] == n;
      assert (a + b)[|a|] == b[0] && (a + b)[|a| + k] == n;
    }
  }

  /** What a search that missed returns as the nearest key above. */
  lemma NextAbove(c: Path, h: nat, m: Links, root: Node?, order: seq<Node>, key: int)
    requires Search(c, Leaf, h, m, root, order, key)
    ensures After(c) == [] ==> forall n :: n in m ==> n.key < key
    ensures After(c) != [] ==> After(c)[0] in m && key <= After(c)[0].key
    ensures After(c) != [] ==> forall n :: n in m && key <= n.key ==> After(c)[0].key <= n.key
  {
    hide Search, Before, After, Sorted;
    SearchSplit(c, h, m, root, order, key);
    SortedTail(Before(c), After(c));
    assert After(c) != [] ==> After(c)[0] in Elements(After(c));
    assert forall n :: n in m ==> n in m.Keys;
  }

  /** A sorted sequence holds each node once. */
  lemma OnceInOrder(order: seq<Node>, a: seq<Node>, x: Node, b: seq<Node>)
    requires Sorted(order) && order == a + [x] + b
    ensures forall k :: 0 <= k < |order| && order[k] == x ==> k == |a|
    ensures b != [] ==> |a| + 1 < |order| && order[|a| + 1] == b[0]
    ensures b == [] ==> |order| == |a| + 1
  {
    assert order[|a|] == x;
  }

  /** `y` stands right after `x` in `order`; it is null when `x` stands last. */
  ghost predicate Follows(order: seq<Node>, x: Node, y: Node?) {
    forall k :: 0 <= k < |order| && order[k] == x ==> y == if k + 1 < |order| then order[k + 1] else null
  }

  lemma FollowsAt(order: seq<Node>, k: nat, y: Node?)
    requires k < |order| && Follows(order, order[k], y)
    ensures y == if k + 1 < |order| then order[k + 1] else null
  {
  }

  lemma NextBelow(c: Path, t: Tree, cr: Path, tr: Tree, order: seq<Node>)
    requires Whole(c, t) == order && Sorted(order) && t.Bin? && tr.Bin? && tr.left.Leaf? && Before(cr) == []
    requires var base := Step(c, R, t.node, t.color, t.left);
      Whole(Compose(cr, base), tr) == Whole(base, t.right) == order
    ensures Follows(order, t.node, tr.node)
  {
    var a, b := BelowSplit(c, t, cr, tr);
    OnceInOrder(order, a, t.node, b);
  }

  lemma BelowSplit(c: Path, t: Tree, cr: Path, tr: Tree) returns (a: seq<Node>, b: seq<Node>)
    requires t.Bin? && tr.Bin? && tr.left.Leaf? && Before(cr) == []
    ensures b != [] && b[0] == tr.node
    ensures Whole(Compose(cr, Step(c, R, t.node, t.color, t.left)), tr) == a + [t.node] + b
  {
    var base := Step(c, R, t.node, t.color, t.left);
    ComposeOrder(cr, base);
    var r, d := InOrder(tr.right), After(cr) + After(c);
    a, b := Before(c) + InOrder(t.left), [tr.node] + r + d;
    assert Before(Compose(cr, base)) == a + [t.node] && After(Compose(cr, base)) == d;
    assert InOrder(tr) == [tr.node] + r;
    SuccessorCats(a, [t.node], [tr.node], r, d);
  }

  lemma NextUp(c: Path, t: Tree, order: seq<Node>)
    requires Whole(c, t) == order && Sorted(order) && t.Bin? && t.right.Leaf?
    ensures Follows(order, t.node, if After(c) == [] then null else After(c)[0])
  {
    var a := Before(c) + InOrder(t.left);
    assert InOrder(t) == InOrder(t.left) + [t.node];
    assert order == a + [t.node] + After(c);
    OnceInOrder(order, a, t.node, After(c));
  }

  lemma ClimbReads(c: Path, t: Tree, m: Links, root: Node?)
    requires Here(c, t, m, root) && t.Bin?
    ensures t.node in m && m[t.node].parent == (if c.Top? then null else c.node)
    ensures c.Step? ==> c.node in m && (m[c.node].right == t.node <==> c.side == R)
    ensures c.Top? ==> After(c) == []
    ensures c.Step? && c.side == L ==> After(c) != [] && After(c)[0] == c.node
  {
  }

  lemma Climb(c: Path, t: Tree, m: Links, root: Node?) returns (c': Path, t': Tree)
    requires Here(c, t, m, root) && c.Step? && c.side == R
    ensures Here(c', t', m, root) && c' == c.up && t'.Bin? && t'.node == c.node && After(c') == After(c)
  {
    HereUp(c, t, m, root);
    c', t' := c.up, Up(c, t);
  }

  lemma MinOfEmpty(t: Tree, order: seq<Node>)
    requires order == Whole(Top, t)
    ensures t.Leaf? <==> order == []
  {
  }

  lemma TopSearch(t: Tree, h: nat, m: Links, root: Node?, order: seq<Node>, key: int)
    requires Search(Top, t, h, m, root, order, key)
    ensures Here(Top, t, m, root) && Fit(Top, t, h)
  {
  }

  lemma MinIsFirst(c: Path, t: Tree, whole: Tree, order: seq<Node>)
    requires order == Whole(Top, whole)
    requires Whole(Compose(c, Top), t) == Whole(Top, whole) && Before(c) == [] && t.Bin? && t.left.Leaf?
    ensures order != [] && order[0] == t.node
  {
    hide Compose;
    ComposeTop(c);
    assert InOrder(t) == [t.node] + InOrder(t.right);
    assert Whole(c, t) == InOrder(t) + After(c) && Whole(Top, whole) == InOrder(whole);
  }

  lemma InElements(s: seq<Node>, x: Node)
    requires x in s
    ensures x in Elements(s)
  {
  }

  /** The `RB_HEAD`. */
  class Head {
    var root: Node?
    ghost var repr: set<Node>
    ghost var links: Links
    ghost var tree: Tree
    ghost var height: nat

    ghost predicate Fields()
      reads this`links, this`repr, repr
    {
      links.Keys == repr && forall n :: n in repr ==> Link(n.left, n.right, n.parent, n.color) == links[n]
    }

    /** The nodes of the tree, in order. */
    ghost function Order(): seq<Node>
      reads this`tree
    {
      InOrder(tree)
    }

    /** The heap holds exactly `Plug(c, t)`. */
    ghost predicate At(c: Path, t: Tree)
      reads this`links, this`root, this`repr, repr
    {
      Fields() && Here(c, t, links, root)
    }

    /** The heap holds the red-black search tree `tree`, of black height `height`. */
    ghost predicate Valid()
      reads this, repr
    {
      At(Top, tree) && repr == Nodes(tree) && Sorted(InOrder(tree)) && Fit(Top, tree, height)
    }

    constructor ()
      ensures Valid() && tree == Leaf
    {
      root, repr, links, tree, height := null, {}, map[], Leaf, 0;
    }

    lemma Keys()
      requires Fields()
      ensures links.Keys == repr
    {
    }

    lemma FieldsOf(n: Node)
      requires Fields() && n in repr
      ensures n in links && Link(n.left, n.right, n.parent, n.color) == links[n]
    {
    }

    // ----- `RB_LEFT(n) = v` and its siblings, keeping the snapshot up to date -----

    method SetLeft(n: Node, v: Node?)
      requires Fields() && n in repr
      modifies this`links, n`left
      ensures Fields() && links == old(links)[n := old(links)[n].(left := v)]
    {
      n.left := v;
      links := links[n := links[n].(left := v)];
    }

    method SetRight(n: Node, v: Node?)
      requires Fields() && n in repr
      modifies this`links, n`right
      ensures Fields() && links == old(links)[n := old(links)[n].(right := v)]
    {
      n.right := v;
      links := links[n := links[n].(right := v)];
    }

    method SetParent(n: Node, v: Node?)
      requires Fields() && n in repr
      modifies this`links, n`parent
      ensures Fields() && links == old(links)[n := old(links)[n].(parent := v)]
    {
      n.parent := v;
      links := links[n := links[n].(parent := v)];
    }

    method SetColor(n: Node, col: Color)
      requires Fields() && n in repr
      modifies this`links, n`color
      ensures Fields() && links == Painted(old(links), n, col)
    {
      n.color := col;
      links := Painted(links, n, col);
    }

    /** All fields of a node that joins the snapshot. */
    method Assign(n: Node, left: Node?, right: Node?, parent: Node?, color: Color)
      requires Fields() && n !in repr
      modifies this`links, this`repr, n
      ensures Fields() && links == old(links)[n := Link(left, right, parent, color)] && repr == old(repr) + {n}
    {
      n.left, n.right, n.parent, n.color := left, right, parent, color;
      links := links[n := Link(left, right, parent, color)];
      repr := repr + {n};
    }

    // ----- rotations -----

    /** The block that makes the child field (or the head) holding `elm` hold `tmp` instead. */
    method Relink(parent: Node?, elm: Node, tmp: Node?)
      requires Fields() && (parent == null || parent in repr)
      modifies this`root, this`links, {parent}
      ensures Fields() && links == Relinked(old(links), parent, elm, tmp)
      ensures root == if parent == null then tmp else old(root)
    {
      if parent != null {
        if parent.left == elm {
          SetLeft(parent, tmp);
        } else {
          SetRight(parent, tmp);
        }
      } else {
        root := tmp;
      }
    }

    /** The assignments of `RB_ROTATE_LEFT` before the relinking. */
    method DetachLeft(elm: Node) returns (tmp: Node)
      requires Fields() && CanRotate(links, elm, L)
      modifies this`links, repr
      ensures Fields() && links == Detached(old(links), elm, L) && tmp == old(links)[elm].right
    {
      hide *;
      DetachedLeft(links, elm);
      Keys();
      FieldsOf(elm);
      tmp := elm.right;
      FieldsOf(tmp);
      var inner := tmp.left;
      SetRight(elm, inner);
      if inner != null {
        SetParent(inner, elm);
      }
      SetParent(tmp, elm.parent);
    }

    /** `RB_ROTATE_LEFT`. */
    method RotateLeft(elm: Node) returns (tmp: Node)
      requires Fields() && CanRotate(links, elm, L)
      modifies this`root, this`links, repr
      ensures Fields() && links == Rotated(old(links), elm, L) && tmp == old(links)[elm].right
      ensures root == if old(links)[elm].parent == null then tmp else old(root)
    {
      hide *;
      AttachedLeft(links, elm);
      Keys();
      FieldsOf(elm);
      var parent := elm.parent;
      tmp := DetachLeft(elm);
      Keys();
      Relink(parent, elm, tmp);
      Keys();
      SetLeft(tmp, elm);
      SetParent(elm, tmp);
    }

    /** The assignments of `RB_ROTATE_RIGHT` before the relinking. */
    method DetachRight(elm: Node) returns (tmp: Node)
      requires Fields() && CanRotate(links, elm, R)
      modifies this`links, repr
      ensures Fields() && links == Detached(old(links), elm, R) && tmp == old(links)[elm].left
    {
      hide *;
      DetachedRight(links, elm);
      Keys();
      FieldsOf(elm);
      tmp := elm.left;
      FieldsOf(tmp);
      var inner := tmp.right;
      SetLeft(elm, inner);
      if inner != null {
        SetParent(inner, elm);
      }
      SetParent(tmp, elm.parent);
    }

    /** `RB_ROTATE_RIGHT`. */
    method RotateRight(elm: Node) returns (tmp: Node)
      requires Fields() && CanRotate(links, elm, R)
      modifies this`root, this`links, repr
      ensures Fields() && links == Rotated(old(links), elm, R) && tmp == old(links)[elm].left
      ensures root == if old(links)[elm].parent == null then tmp else old(root)
    {
      hide *;
      AttachedRight(links, elm);
      Keys();
      FieldsOf(elm);
      var parent := elm.parent;
      tmp := DetachRight(elm);
      Keys();
      Relink(parent, elm, tmp);
      Keys();
      SetRight(tmp, elm);
      SetParent(elm, tmp);
    }

    // ----- RB_INSERT_COLOR -----

    /** A turn that meets a red uncle `tmp`. */
    method RecolorUp(tmp: Node, parent: Node, gparent: Node, ghost c: Path, ghost t: Tree, ghost h: nat)
      returns (ghost c': Path, ghost t': Tree)
      requires Fields() && Here(c, t, links, root) && Loose(c, t, h) && c.Step? && c.color == Red && c.up.Step?
      requires parent == c.node && gparent == c.up.node
      requires c.up.other.Bin? && c.up.other.color == Red && tmp == c.up.other.node
      modifies this`links, repr
      ensures Fields() && Here(c', t', links, root) && Loose(c', t', h + 1) && t'.Bin? && t'.node == gparent
      ensures Whole(c', t') == Whole(c, t) && Length(c') < Length(c)
    {
      hide *;
      Keys();
      c', t' := UncleRed(c, t, h, links, root);
      SetColor(tmp, Black);
      SetColor(parent, Black);
      SetColor(gparent, Red);
    }

    /** The last rotation for a left-child parent: black uncle, outer grandchild. */
    method RaiseLeft(parent: Node, gparent: Node, ghost c: Path, ghost t: Tree, ghost h: nat)
      returns (ghost c': Path)
      requires Fields() && Here(c, t, links, root) && Loose(c, t, h) && c.Step? && c.color == Red && c.up.Step?
      requires parent == c.node && gparent == c.up.node && c.up.side == c.side == L && IsBlack(c.up.other)
      modifies this`root, this`links, repr
      ensures Fields() && Here(c', t, links, root) && Loose(c', t, h)
      ensures Whole(c', t) == Whole(c, t) && Length(c') < Length(c)
    {
      hide *;
      Keys();
      c' := UncleBlackOuter(c, t, h, R, links, root);
      SetColor(parent, Black);
      SetColor(gparent, Red);
      var _ := RotateRight(gparent);
    }

    /** One turn of the loop when the parent is a left child. */
    method InsertTurnLeft(elm0: Node, parent0: Node, gparent: Node, ghost c: Path, ghost t: Tree, ghost h: nat)
      returns (elm: Node, ghost c': Path, ghost t': Tree, ghost h': nat)
      requires Fields() && Here(c, t, links, root) && Loose(c, t, h) && c.Step? && c.color == Red && c.up.Step?
      requires t.Bin? && t.node == elm0 && parent0 == c.node && gparent == c.up.node && c.up.side == L
      modifies this`root, this`links, repr
      ensures Fields() && Here(c', t', links, root) && Loose(c', t', h') && t'.Bin? && t'.node == elm
      ensures Whole(c', t') == Whole(c, t) && Length(c') < Length(c)
    {
      hide *;
      Keys();
      InsertReads(c, t, h, links, root);
      FieldsOf(parent0);
      FieldsOf(gparent);
      elm, c', t', h' := elm0, c, t, h;
      var parent := parent0;
      var tmp := gparent.right;
      if tmp != null { FieldsOf(tmp); }
      if tmp != null && tmp.color == Red {
        c', t' := RecolorUp(tmp, parent, gparent, c, t, h);
        elm, h' := gparent, h + 1;
      } else {
        if parent.right == elm {
          c', t' := UncleBlackInner(c, t, h, links, root);
          tmp := RotateLeft(parent);
          tmp := parent;
          parent := elm;
          elm := tmp;
        }
        c' := RaiseLeft(parent, gparent, c', t', h);
      }
    }

    /** The last rotation for a right-child parent. */
    method RaiseRight(parent: Node, gparent: Node, ghost c: Path, ghost t: Tree, ghost h: nat)
      returns (ghost c': Path)
      requires Fields() && Here(c, t, links, root) && Loose(c, t, h) && c.Step? && c.color == Red && c.up.Step?
      requires parent == c.node && gparent == c.up.node && c.up.side == c.side == R && IsBlack(c.up.other)
      modifies this`root, this`links, repr
      ensures Fields() && Here(c', t, links, root) && Loose(c', t, h)
      ensures Whole(c', t) == Whole(c, t) && Length(c') < Length(c)
    {
      hide *;
      Keys();
      c' := UncleBlackOuter(c, t, h, L, links, root);
      SetColor(parent, Black);
      SetColor(gparent, Red);
      var _ := RotateLeft(gparent);
    }

    /** One turn of the loop when the parent is a right child. */
    method InsertTurnRight(elm0: Node, parent0: Node, gparent: Node, ghost c: Path, ghost t: Tree, ghost h: nat)
      returns (elm: Node, ghost c': Path, ghost t': Tree, ghost h': nat)
      requires Fields() && Here(c, t, links, root) && Loose(c, t, h) && c.Step? && c.color == Red && c.up.Step?
      requires t.Bin? && t.node == elm0 && parent0 == c.node && gparent == c.up.node && c.up.side == R
      modifies this`root, this`links, repr
      ensures Fields() && Here(c', t', links, root) && Loose(c', t', h') && t'.Bin? && t'.node == elm
      ensures Whole(c', t') == Whole(c, t) && Length(c') < Length(c)
    {
      hide *;
      Keys();
      InsertReads(c, t, h, links, root);
      FieldsOf(parent0);
      FieldsOf(gparent);
      elm, c', t', h' := elm0, c, t, h;
      var parent := parent0;
      var tmp := gparent.left;
      if tmp != null { FieldsOf(tmp); }
      if tmp != null && tmp.color == Red {
        c', t' := RecolorUp(tmp, parent, gparent, c, t, h);
        elm, h' := gparent, h + 1;
      } else {
        if parent.left == elm {
          c', t' := UncleBlackInner(c, t, h, links, root);
          tmp := RotateRight(parent);
          tmp := parent;
          parent := elm;
          elm := tmp;
        }
        c' := RaiseRight(parent, gparent, c', t', h);
      }
    }

    /** `RB_INSERT_COLOR`: restores the balance after `elm` has been hung in red. */
    method InsertColor(elm0: Node, ghost c0: Path, ghost t0: Tree, ghost h0: nat)
      returns (ghost t': Tree, ghost top: nat)
      requires Fields() && Here(c0, t0, links, root) && Loose(c0, t0, h0) && t0.Bin? && t0.node == elm0
      modifies this`root, this`links, repr
      ensures Fields() && Here(Top, t', links, root) && Fit(Top, t', top) && Whole(Top, t') == Whole(c0, t0)
    {
      hide *;
      Keys();
      var elm := elm0;
      ghost var c, t, h := c0, t0, h0;
      InsertReads(c, t, h, links, root);
      FieldsOf(elm);
      var parent := elm.parent;
      if parent != null { FieldsOf(parent); }
      while parent != null && parent.color == Red
        invariant Fields() && Here(c, t, links, root) && Loose(c, t, h) && t.Bin? && t.node == elm
        invariant Whole(c, t) == Whole(c0, t0)
        invariant if c.Step? then parent == c.node && parent in repr && parent.color == c.color else parent == null
        decreases Length(c)
      {
        Keys();
        InsertReads(c, t, h, links, root);
        FieldsOf(parent);
        var gparent := parent.parent;
        FieldsOf(gparent);
        if parent == gparent.left {
          elm, c, t, h := InsertTurnLeft(elm, parent, gparent, c, t, h);
        } else {
          elm, c, t, h := InsertTurnRight(elm, parent, gparent, c, t, h);
        }
        Keys();
        InsertReads(c, t, h, links, root);
        FieldsOf(elm);
        parent := elm.parent;
        if parent != null { FieldsOf(parent); }
      }
      t', top := InsertDone(c, t, h, links, root);
      Keys();
      SetColor(root, Black);
    }

    // ----- RB_INSERT -----

    /** The tree as a search for `key` finds it. */
    lemma Begin(key: int)
      requires Valid()
      ensures Fields() && if tree.Leaf? then root == null else root == tree.node
      ensures Search(Top, tree, height, links, root, Order(), key)
    {
    }

    lemma Settle()
      requires Fields() && Here(Top, tree, links, root) && Fit(Top, tree, height)
      requires Sorted(Whole(Top, tree)) && repr == Elements(Whole(Top, tree))
      ensures Valid() && Order() == Whole(Top, tree)
    {
      WholeTop(tree);
    }

    /** `RB_SET` and the assignment of the child field that finds `elm` its place. */
    method Hang(elm: Node, parent: Node?, comp: int, ghost c: Path, ghost h: nat,
                ghost order: seq<Node>)
      returns (ghost t: Tree)
      requires Fields() && Search(c, Leaf, h, links, root, order, elm.key)
      requires if c.Top? then parent == null else parent == c.node && (comp < 0 <==> c.side == L)
      modifies this`root, this`links, this`repr, repr, elm
      ensures Fields() && Here(c, t, links, root) && Loose(c, t, 0) && t.Bin? && t.node == elm
      ensures Inserted(order, elm, Whole(c, t)) && Sorted(Whole(c, t)) && repr == old(repr) + {elm}
      ensures repr == Nodes(t) + PathNodes(c)
    {
      hide *;
      t := Bin(Leaf, elm, Red, Leaf);
      HungLinks(c, h, links, root, order, elm);
      HungOrder(c, h, links, root, order, elm);
      Keys();
      Assign(elm, null, null, parent, Red);
      if parent != null {
        if comp < 0 {
          SetLeft(parent, elm);
        } else {
          SetRight(parent, elm);
        }
      } else {
        root := elm;
      }
    }

    /**
      Inserts `elm` unless an equal key is present.  Either the equal node comes back and
      nothing was written, or `elm` now stands in the in-order sequence, which is sorted again.
     */
    method Insert(elm: Node) returns (found: Node?)
      requires Valid()
      modifies this, repr, elm
      ensures Valid()
      ensures found != null ==>
        && found in repr && found.key == elm.key
        && unchanged(this) && unchanged(repr) && unchanged(elm)
      ensures found == null ==>
        && Inserted(old(Order()), elm, Order())
        && repr == old(repr) + {elm} && forall n :: n in old(repr) ==> n.key != elm.key
    {
      hide *;
      Begin(elm.key);
      ghost var order := Order();
      ghost var c, t, h := Top, tree, height;
      var tmp := root;
      var parent: Node? := null;
      var comp := 0;
      while tmp != null
        invariant Fields() && Search(c, t, h, links, root, order, elm.key)
        invariant if t.Leaf? then tmp == null else tmp == t.node
        invariant if c.Top? then parent == null else parent == c.node && (comp < 0 <==> c.side == L)
        modifies {}
        decreases t
      {
        Keys();
        SearchDown(c, t, h, links, root, order, elm.key);
        FieldsOf(tmp);
        parent := tmp;
        comp := Cmp(elm.key, parent.key);
        if comp < 0 {
          tmp := tmp.left;
          c, t, h := Step(c, L, t.node, t.color, t.right), t.left, Below(t, h);
        } else if comp > 0 {
          tmp := tmp.right;
          c, t, h := Step(c, R, t.node, t.color, t.left), t.right, Below(t, h);
        } else {
          return tmp;
        }
      }
      assert t == Leaf;
      SearchMissed(c, h, links, root, order, elm.key);
      t := Hang(elm, parent, comp, c, h, order);
      ghost var top;
      NodesOfWhole(c, t);
      t, top := InsertColor(elm, c, t, 0);
      tree, height := t, top;
      Settle();
      return null;
    }

    // ----- RB_REMOVE_COLOR -----

    /** Red sibling of a left child: it is rotated above the parent. */
    method SinkRedLeft(tmp: Node, parent: Node, ghost c: Path, ghost t: Tree, ghost h: nat)
      returns (ghost c': Path)
      requires Fields() && Here(c, t, links, root) && Short(c, t, h) && c.Step? && c.side == L && parent == c.node
      requires c.other.Bin? && c.other.color == Red && tmp == c.other.node
      modifies this`root, this`links, repr
      ensures Fields() && Here(c', t, links, root) && Short(c', t, h) && Whole(c', t) == Whole(c, t)
      ensures c'.Step? && c'.side == L && c'.color == Red && c'.node == parent && IsBlack(c'.other)
    {
      hide *;
      Keys();
      c' := SiblingRed(c, t, h, links, root);
      SetColor(tmp, Black);
      SetColor(parent, Red);
      var _ := RotateLeft(parent);
    }

    /** Black far nephew of a left child: the red near one is rotated above the sibling. */
    method LiftNearLeft(tmp: Node, ghost c: Path, ghost t: Tree, ghost h: nat)
      returns (ghost c': Path)
      requires Fields() && Here(c, t, links, root) && Short(c, t, h) && c.Step? && c.side == L
      requires c.other.Bin? && IsBlack(c.other) && tmp == c.other.node
      requires !IsBlack(c.other.left) && IsBlack(c.other.right)
      modifies this`root, this`links, repr
      ensures Fields() && Here(c', t, links, root) && Short(c', t, h) && Whole(c', t) == Whole(c, t)
      ensures c'.Step? && c'.up == c.up && c'.side == L && c'.node == c.node && c'.color == c.color
      ensures c'.other.Bin? && IsBlack(c'.other) && !IsBlack(c'.other.right)
    {
      hide *;
      Keys();
      NephewReads(c, t, links, root);
      FieldsOf(tmp);
      c' := FarNephewBlack(c, t, h, R, links, root);
      var oleft := tmp.left;
      if oleft != null {
        SetColor(oleft, Black);
      }
      SetColor(tmp, Red);
      oleft := RotateRight(tmp);
    }

    /** The three colours that change before the last rotation. */
    method PaintThree(tmp: Node, parent: Node, far: Node?)
      requires Fields() && tmp in links && parent in links && (far != null ==> far in links)
      modifies this`links, repr
      ensures Fields()
      ensures var m := old(links); var m1 := Painted(Painted(m, tmp, m[parent].color), parent, Black);
        links == if far == null then m1 else Painted(m1, far, Black)
    {
      SetColor(tmp, parent.color);
      SetColor(parent, Black);
      if far != null { SetColor(far, Black); }
    }

    /** Red far nephew of a left child: a rotation of the parent ends the loop. */
    method MendLeft(tmp: Node, parent: Node, ghost c: Path, ghost t: Tree, ghost h: nat)
      returns (ghost t': Tree, ghost top: nat)
      requires Fields() && Here(c, t, links, root) && Short(c, t, h) && IsBlack(t) && c.Step? && c.side == L
      requires parent == c.node && c.other.Bin? && IsBlack(c.other) && tmp == c.other.node
      requires !IsBlack(c.other.right)
      modifies this`root, this`links, repr
      ensures Fields() && Here(Top, t', links, root) && Fit(Top, t', top) && Whole(Top, t') == Whole(c, t)
      ensures root == if t'.Leaf? then null else t'.node
    {
      hide *;
      Keys();
      NephewReads(c, t, links, root);
      FieldsOf(parent);
      FieldsOf(tmp);
      ghost var h';
      t', h' := FarNephewRed(c, t, h, links, root);
      PaintThree(tmp, parent, tmp.right);
      var _ := RotateLeft(parent);
      t', top := ToTop(c.up, t', h', links, root);
    }

    /** The sibling of a left child, once it is black. */
    method BlackSiblingLeft(parent: Node, ghost c0: Path, ghost t: Tree, ghost h: nat)
      returns (tmp: Node, ghost c: Path)
      requires Fields() && Here(c0, t, links, root) && Short(c0, t, h) && IsBlack(t)
      requires c0.Step? && c0.side == L && parent == c0.node
      modifies this`root, this`links, repr
      ensures Fields() && Here(c, t, links, root) && Short(c, t, h) && Whole(c, t) == Whole(c0, t)
      ensures c.Step? && c.side == L && parent == c.node && c.other.Bin? && IsBlack(c.other) && tmp == c.other.node
      ensures c == c0 || c.color == Red
    {
      hide *;
      Keys();
      c := c0;
      RemoveReads(c, t, h, links, root);
      NephewReads(c, t, links, root);
      FieldsOf(parent);
      tmp := parent.right;
      FieldsOf(tmp);
      if tmp.color == Red {
        c := SinkRedLeft(tmp, parent, c, t, h);
        Keys();
        RemoveReads(c, t, h, links, root);
        NephewReads(c, t, links, root);
        FieldsOf(parent);
        tmp := parent.right;
      }
    }

    /** One turn of the loop when the short subtree is a left child. */
    method RemoveTurnLeft(parent0: Node, ghost c0: Path, ghost t0: Tree, ghost h0: nat)
      returns (elm: Node?, parent: Node?, ghost c: Path, ghost t: Tree, ghost h: nat)
      requires Fields() && Here(c0, t0, links, root) && Short(c0, t0, h0) && IsBlack(t0)
      requires c0.Step? && c0.side == L && parent0 == c0.node
      modifies this`root, this`links, repr
      ensures Fields() && Here(c, t, links, root) && Whole(c, t) == Whole(c0, t0)
      ensures Short(c, t, h) || (c.Top? && Fit(c, t, h))
      ensures c.Top? || !IsBlack(t) || Length(c) < Length(c0)
      ensures (if t.Leaf? then elm == null else elm == t.node) && (c.Step? ==> parent == c.node)
    {
      hide *;
      Keys();
      c, t, h, parent := c0, t0, h0, parent0;
      var tmp;
      tmp, c := BlackSiblingLeft(parent, c, t, h);
      Keys();
      NephewReads(c, t, links, root);
      FieldsOf(parent);
      FieldsOf(tmp);
      if tmp.left != null { FieldsOf(tmp.left); }
      if tmp.right != null { FieldsOf(tmp.right); }
      if (tmp.left == null || tmp.left.color == Black) && (tmp.right == null || tmp.right.color == Black) {
        t, h := NephewsBlack(c, t, h, links, root);
        SetColor(tmp, Red);
        elm := parent;
        FieldsOf(elm);
        parent := elm.parent;
        c := c.up;
      } else {
        if tmp.right == null || tmp.right.color == Black {
          c := LiftNearLeft(tmp, c, t, h);
          Keys();
          NephewReads(c, t, links, root);
          FieldsOf(parent);
          tmp := parent.right;
        }
        t, h := MendLeft(tmp, parent, c, t, h);
        c := Top;
        elm := root;
      }
    }

    /** Red sibling of a right child: it is rotated above the parent. */
    method SinkRedRight(tmp: Node, parent: Node, ghost c: Path, ghost t: Tree, ghost h: nat)
      returns (ghost c': Path)
      requires Fields() && Here(c, t, links, root) && Short(c, t, h) && c.Step? && c.side == R && parent == c.node
      requires c.other.Bin? && c.other.color == Red && tmp == c.other.node
      modifies this`root, this`links, repr
      ensures Fields() && Here(c', t, links, root) && Short(c', t, h) && Whole(c', t) == Whole(c, t)
      ensures c'.Step? && c'.side == R && c'.color == Red && c'.node == parent && IsBlack(c'.other)
    {
      hide *;
      Keys();
      c' := SiblingRed(c, t, h, links, root);
      SetColor(tmp, Black);
      SetColor(parent, Red);
      var _ := RotateRight(parent);
    }

    /** Black far nephew of a right child: the red near one is rotated above the sibling. */
    method LiftNearRight(tmp: Node, ghost c: Path, ghost t: Tree, ghost h: nat)
      returns (ghost c': Path)
      requires Fields() && Here(c, t, links, root) && Short(c, t, h) && c.Step? && c.side == R
      requires c.other.Bin? && IsBlack(c.other) && tmp == c.other.node
      requires !IsBlack(c.other.right) && IsBlack(c.other.left)
      modifies this`root, this`links, repr
      ensures Fields() && Here(c', t, links, root) && Short(c', t, h) && Whole(c', t) == Whole(c, t)
      ensures c'.Step? && c'.up == c.up && c'.side == R && c'.node == c.node && c'.color == c.color
      ensures c'.other.Bin? && IsBlack(c'.other) && !IsBlack(c'.other.left)
    {
      hide *;
      Keys();
      NephewReads(c, t, links, root);
      FieldsOf(tmp);
      c' := FarNephewBlack(c, t, h, L, links, root);
      var oright := tmp.right;
      if oright != null {
        SetColor(oright, Black);
      }
      SetColor(tmp, Red);
      oright := RotateLeft(tmp);
    }

    /** Red far nephew of a right child: a rotation of the parent ends the loop. */
    method MendRight(tmp: Node, parent: Node, ghost c: Path, ghost t: Tree, ghost h: nat)
      returns (ghost t': Tree, ghost top: nat)
      requires Fields() && Here(c, t, links, root) && Short(c, t, h) && IsBlack(t) && c.Step? && c.side == R
      requires parent == c.node && c.other.Bin? && IsBlack(c.other) && tmp == c.other.node
      requires !IsBlack(c.other.left)
      modifies this`root, this`links, repr
      ensures Fields() && Here(Top, t', links, root) && Fit(Top, t', top) && Whole(Top, t') == Whole(c, t)
      ensures root == if t'.Leaf? then null else t'.node
    {
      hide *;
      Keys();
      NephewReads(c, t, links, root);
      FieldsOf(parent);
      FieldsOf(tmp);
      ghost var h';
      t', h' := FarNephewRed(c, t, h, links, root);
      PaintThree(tmp, parent, tmp.left);
      var _ := RotateRight(parent);
      t', top := ToTop(c.up, t', h', links, root);
    }

    /** The sibling of a right child, once it is black. */
    method BlackSiblingRight(parent: Node, ghost c0: Path, ghost t: Tree, ghost h: nat)
      returns (tmp: Node, ghost c: Path)
      requires Fields() && Here(c0, t, links, root) && Short(c0, t, h) && IsBlack(t)
      requires c0.Step? && c0.side == R && parent == c0.node
      modifies this`root, this`links, repr
      ensures Fields() && Here(c, t, links, root) && Short(c, t, h) && Whole(c, t) == Whole(c0, t)
      ensures c.Step? && c.side == R && parent == c.node && c.other.Bin? && IsBlack(c.other) && tmp == c.other.node
      ensures c == c0 || c.color == Red
    {
      hide *;
      Keys();
      c := c0;
      RemoveReads(c, t, h, links, root);
      NephewReads(c, t, links, root);
      FieldsOf(parent);
      tmp := parent.left;
      FieldsOf(tmp);
      if tmp.color == Red {
        c := SinkRedRight(tmp, parent, c, t, h);
        Keys();
        RemoveReads(c, t, h, links, root);
        NephewReads(c, t, links, root);
        FieldsOf(parent);
        tmp := parent.left;
      }
    }

    /** One turn of the loop when the short subtree is a right child. */
    method RemoveTurnRight(parent0: Node, ghost c0: Path, ghost t0: Tree, ghost h0: nat)
      returns (elm: Node?, parent: Node?, ghost c: Path, ghost t: Tree, ghost h: nat)
      requires Fields() && Here(c0, t0, links, root) && Short(c0, t0, h0) && IsBlack(t0)
      requires c0.Step? && c0.side == R && parent0 == c0.node
      modifies this`root, this`links, repr
      ensures Fields() && Here(c, t, links, root) && Whole(c, t) == Whole(c0, t0)
      ensures Short(c, t, h) || (c.Top? && Fit(c, t, h))
      ensures c.Top? || !IsBlack(t) || Length(c) < Length(c0)
      ensures (if t.Leaf? then elm == null else elm == t.node) && (c.Step? ==> parent == c.node)
    {
      hide *;
      Keys();
      c, t, h, parent := c0, t0, h0, parent0;
      var tmp;
      tmp, c := BlackSiblingRight(parent, c, t, h);
      Keys();
      NephewReads(c, t, links, root);
      FieldsOf(parent);
      FieldsOf(tmp);
      if tmp.left != null { FieldsOf(tmp.left); }
      if tmp.right != null { FieldsOf(tmp.right); }
      if (tmp.left == null || tmp.left.color == Black) && (tmp.right == null || tmp.right.color == Black) {
        t, h := NephewsBlack(c, t, h, links, root);
        SetColor(tmp, Red);
        elm := parent;
        FieldsOf(elm);
        parent := elm.parent;
        c := c.up;
      } else {
        if tmp.left == null || tmp.left.color == Black {
          c := LiftNearRight(tmp, c, t, h);
          Keys();
          NephewReads(c, t, links, root);
          FieldsOf(parent);
          tmp := parent.left;
        }
        t, h := MendRight(tmp, parent, c, t, h);
        c := Top;
        elm := root;
      }
    }

    /** `RB_REMOVE_COLOR`: restores the balance where a black node is missing. */
    method RemoveColor(parent0: Node?, elm0: Node?, ghost c0: Path, ghost t0: Tree, ghost h0: nat)
      returns (ghost t': Tree, ghost top: nat)
      requires Fields() && Here(c0, t0, links, root) && Short(c0, t0, h0)
      requires (if t0.Leaf? then elm0 == null else elm0 == t0.node) && (c0.Step? ==> parent0 == c0.node)
      modifies this`root, this`links, repr
      ensures Fields() && Here(Top, t', links, root) && Fit(Top, t', top) && Whole(Top, t') == Whole(c0, t0)
    {
      hide *;
      var elm, parent := elm0, parent0;
      ghost var c, t, h := c0, t0, h0;
      Keys();
      RemoveReads(c, t, h, links, root);
      if elm != null { FieldsOf(elm); }
      while (elm == null || elm.color == Black) && elm != root
        invariant Fields() && Here(c, t, links, root) && Whole(c, t) == Whole(c0, t0)
        invariant Short(c, t, h) || (c.Top? && Fit(c, t, h))
        invariant if t.Leaf? then elm == null else elm == t.node && elm in repr && elm.color == t.color
        invariant (c.Step? ==> parent == c.node) && (c.Top? <==> elm == root)
        invariant IsBlack(t) <==> t.Leaf? || t.color == Black
        decreases if c.Top? || !IsBlack(t) then 0 else Length(c) + 1
      {
        Keys();
        RemoveReads(c, t, h, links, root);
        FieldsOf(parent);
        if parent.left == elm {
          elm, parent, c, t, h := RemoveTurnLeft(parent, c, t, h);
        } else {
          elm, parent, c, t, h := RemoveTurnRight(parent, c, t, h);
        }
        Keys();
        FocusReads(c, t, links, root);
        if elm != null { FieldsOf(elm); }
      }
      t', top := RemoveDone(c, t, h, links, root);
      Keys();
      if elm != null {
        SetColor(elm, Black);
      }
    }

    // ----- RB_REMOVE -----

    /** The block that takes out `elm`, which has at most the one child `child`. */
    method SpliceOut(elm: Node, child: Node?, ghost c: Path, ghost t: Tree)
      returns (parent: Node?, color: Color)
      requires Fields() && Here(c, t, links, root) && t.Bin? && t.node == elm && (t.left.Leaf? || t.right.Leaf?)
      requires var k := Single(t); if k.Leaf? then child == null else child == k.node
      modifies this`root, this`links, this`repr, repr
      ensures Fields() && Here(c, Single(t), links, root) && repr == old(repr) - {elm}
      ensures parent == (if c.Top? then null else c.node) && color == t.color && elm.parent == parent
    {
      hide *;
      SpliceLinks(c, t, links, root);
      Keys();
      FieldsOf(elm);
      parent := elm.parent;
      color := elm.color;
      if child != null {
        SetParent(child, parent);
      }
      Relink(parent, elm, child);
      Forget(elm);
    }

    /** Dropping a node from the snapshot. */
    ghost method Forget(n: Node)
      requires Fields()
      modifies this`links, this`repr
      ensures Fields() && links == old(links) - {n} && repr == old(repr) - {n}
    {
      links, repr := links - {n}, repr - {n};
    }

    /** The block that puts `elm` in the place of `gone`, which has two children. */
    method TakeOver(gone: Node, elm: Node, ghost c: Path, ghost t: Tree)
      requires Fields() && Here(c, t, links, root) && t.Bin? && t.node == gone && t.left.Bin? && elm !in repr
      requires elm !in Nodes(t) && elm !in PathNodes(c)
      modifies this`root, this`links, this`repr, repr, elm
      ensures Fields() && Here(c, t.(node := elm), links, root) && repr == old(repr) + {elm} - {gone}
    {
      hide *;
      Keys();
      TakeOverLinks(c, t, elm, links, root);
      TakenOverSteps(links, gone, elm);
      FieldsOf(gone);
      var left, right := gone.left, gone.right;
      TakePlace(gone, elm);
      Adopt(elm, left, right);
      Forget(gone);
    }

    /** The fields of `gone` go to `elm`, and the pointer to `gone` too. */
    method TakePlace(gone: Node, elm: Node)
      requires Fields() && gone in links && elm !in repr && (links[gone].parent != null ==> links[gone].parent in links)
      modifies this`root, this`links, this`repr, repr, elm
      ensures Fields() && repr == old(repr) + {elm}
      ensures var m := old(links); links == Relinked(m[elm := m[gone]], m[gone].parent, gone, elm)
      ensures root == if old(links)[gone].parent == null then elm else old(root)
    {
      hide *;
      Keys();
      FieldsOf(gone);
      Assign(elm, gone.left, gone.right, gone.parent, gone.color);
      Keys();
      FieldsOf(gone);
      Relink(gone.parent, gone, elm);
    }

    /** The children get `elm` as their parent. */
    method Adopt(elm: Node, left: Node, right: Node?)
      requires Fields() && left in links && (right != null ==> right in links)
      modifies this`links, repr
      ensures Fields()
      ensures var m2 := old(links)[left := old(links)[left].(parent := elm)];
        (right != null ==> right in m2) && links == if right == null then m2 else m2[right := m2[right].(parent := elm)]
    {
      SetParent(left, elm);
      if right != null { SetParent(right, elm); }
    }

    /** The walk to the leftmost node of the subtree `right`. */
    method Leftmost(right: Node, ghost base: Path, ghost t0: Tree, ghost h0: nat)
      returns (elm: Node, ghost c: Path, ghost t: Tree, ghost h: nat)
      requires Fields() && Here(base, t0, links, root) && Fit(base, t0, h0) && t0.Bin? && t0.node == right
      ensures Here(Compose(c, base), t, links, root) && Fit(Compose(c, base), t, h) && Before(c) == []
      ensures t.Bin? && t.node == elm && t.left.Leaf? && Whole(Compose(c, base), t) == Whole(base, t0)
    {
      hide *;
      elm := right;
      c, t, h := Top, t0, h0;
      LeftmostBegins(base);
      Keys();
      KidReads(base, t, links, root);
      FieldsOf(elm);
      var left := elm.left;
      while left != null
        invariant Fields() && Here(Compose(c, base), t, links, root) && Fit(Compose(c, base), t, h) && Before(c) == []
        invariant t.Bin? && t.node == elm && Whole(Compose(c, base), t) == Whole(base, t0)
        invariant if t.left.Leaf? then left == null else left == t.left.node
        decreases t
      {
        c, t, h := LeftmostDown(c, base, t, h, links, root);
        elm := left;
        Keys();
        KidReads(Compose(c, base), t, links, root);
        FieldsOf(elm);
        left := elm.left;
      }
    }

    /** The removal of `gone` when it has two children: its successor takes its place. */
    method RemoveInner(gone: Node, ghost c0: Path, ghost t0: Tree, ghost h0: nat)
      returns (child: Node?, parent: Node?, color: Color, ghost c: Path, ghost t: Tree, ghost h: nat)
      requires Fields() && Here(c0, t0, links, root) && Fit(c0, t0, h0)
      requires t0.Bin? && t0.node == gone && t0.left.Bin? && t0.right.Bin?
      modifies this`root, this`links, this`repr, repr
      ensures Fields() && Here(c, t, links, root) && repr == old(repr) - {gone}
      ensures (if t.Leaf? then child == null else child == t.node) && (c.Step? ==> parent == c.node)
      ensures if color == Red then Fit(c, t, h) else Short(c, t, h)
      ensures Removed(Whole(c0, t0), gone, Whole(c, t))
    {
      hide *;
      Keys();
      KidReads(c0, t0, links, root);
      FieldsOf(gone);
      ghost var base := Step(c0, R, gone, t0.color, t0.left);
      ghost var h1 := InnerBegins(c0, t0, h0, links, root);
      ghost var cr, ts, hs;
      var elm;
      elm, cr, ts, hs := Leftmost(gone.right, base, t0.right, h1);
      ghost var cs := Compose(cr, base);
      KidReads(cs, ts, links, root);
      InnerReads(cr, base, ts, links, root);
      FieldsOf(elm);
      child := elm.right;
      ghost var k := InnerSplice(cr, base, ts, hs);
      parent, color := SpliceOut(elm, child, cs, ts);
      Keys();
      if elm.parent == gone {
        parent := elm;
      }
      ghost var u := Gather(cr, base, k, elm, links, root);
      TakeOver(gone, elm, c0, u);
      Scatter(cr, base, k, elm, links, root);
      c, t, h := Compose(cr, base.(node := elm)), k, if color == Red then hs else hs - 1;
    }

    /** `RB_REMOVE`: takes `elm` out of the tree; everything else keeps its place in the order. */
    method Remove(elm: Node) returns (gone: Node)
      requires Valid() && elm in repr
      modifies this, repr
      ensures Valid() && gone == elm && repr == old(repr) - {elm}
      ensures Removed(old(Order()), elm, Order())
    {
      hide *;
      gone := elm;
      ghost var order := Order();
      ghost var c, t, h := Locate(elm);
      Keys();
      KidReads(c, t, links, root);
      FieldsOf(elm);
      var child: Node?, parent: Node?, color;
      if elm.left != null && elm.right != null {
        child, parent, color, c, t, h := RemoveInner(elm, c, t, h);
      } else {
        child := if elm.left == null then elm.right else elm.left;
        OuterSplice(c, t, h);
        parent, color := SpliceOut(elm, child, c, t);
        t, h := Single(t), if color == Red then h else h - 1;
      }
      ghost var t', top;
      if color == Black {
        t', top := RemoveColor(parent, child, c, t, h);
      } else {
        t', top := ToTop(c, t, h, links, root);
      }
      RemovedKeeps(order, elm, Whole(Top, t'));
      tree, height := t', top;
      Settle();
    }

    /** Where a node of the tree stands. */
    lemma Locate(n: Node) returns (c: Path, t: Tree, h: nat)
      requires Valid() && n in repr
      ensures Fields() && Here(c, t, links, root) && Fit(c, t, h) && t.Bin? && t.node == n
      ensures Whole(c, t) == Order() && Sorted(Order()) && repr == Elements(Order())
    {
      NodesInOrder(tree);
      c, t, h := LocateFrom(Top, tree, height, links, root, n);
    }

    // ----- RB_FIND, RB_NFIND -----

    /** `RB_FIND`: the node with the given key, if there is one. */
    method Find(key: int) returns (found: Node?)
      requires Valid()
      ensures found != null ==> found in repr && found.key == key
      ensures found == null ==> forall n :: n in repr ==> n.key != key
    {
      hide *;
      Begin(key);
      ghost var c, t, h := Top, tree, height;
      found := root;
      while found != null
        invariant Search(c, t, h, links, root, Order(), key)
        invariant if t.Leaf? then found == null else found == t.node
        decreases t
      {
        Keys();
        SearchDown(c, t, h, links, root, Order(), key);
        FieldsOf(found);
        var comp := Cmp(key, found.key);
        if comp < 0 {
          found := found.left;
          c, t, h := Step(c, L, t.node, t.color, t.right), t.left, Below(t, h);
        } else if comp > 0 {
          found := found.right;
          c, t, h := Step(c, R, t.node, t.color, t.left), t.right, Below(t, h);
        } else {
          return;
        }
      }
      SearchMissed(c, h, links, root, Order(), key);
      Keys();
    }

    /** `RB_NFIND`: the node with the least key that is not below the given one. */
    method NFind(key: int) returns (res: Node?)
      requires Valid()
      ensures res == null ==> forall n :: n in repr ==> n.key < key
      ensures res != null ==> res in repr && key <= res.key
      ensures res != null ==> forall n :: n in repr && key <= n.key ==> res.key <= n.key
    {
      hide *;
      Begin(key);
      ghost var c, t, h := Top, tree, height;
      var tmp := root;
      res := null;
      AfterTop();
      while tmp != null
        invariant Search(c, t, h, links, root, Order(), key)
        invariant if t.Leaf? then tmp == null else tmp == t.node
        invariant res == if After(c) == [] then null else After(c)[0]
        decreases t
      {
        Keys();
        SearchDown(c, t, h, links, root, Order(), key);
        AfterDown(c, t);
        FieldsOf(tmp);
        var comp := Cmp(key, tmp.key);
        if comp < 0 {
          res := tmp;
          tmp := tmp.left;
          c, t, h := Step(c, L, t.node, t.color, t.right), t.left, Below(t, h);
        } else if comp > 0 {
          tmp := tmp.right;
          c, t, h := Step(c, R, t.node, t.color, t.left), t.right, Below(t, h);
        } else {
          res := tmp;
          return;
        }
      }
      NextAbove(c, h, links, root, Order(), key);
      Keys();
    }

    // ----- RB_NEXT, RB_MINMAX, RB_FOREACH -----

    /** `RB_NEXT`: the node that follows `elm0` in the order. */
    method Next(elm0: Node) returns (elm: Node?)
      requires Valid() && elm0 in repr
      ensures Follows(Order(), elm0, elm)
    {
      hide *;
      ghost var c, t, h := Locate(elm0);
      Keys();
      KidReads(c, t, links, root);
      FieldsOf(elm0);
      if elm0.right != null {
        ghost var base := Step(c, R, t.node, t.color, t.left);
        ghost var h1 := InnerBegins(c, t, h, links, root);
        ghost var cr, tr, hr;
        elm, cr, tr, hr := Leftmost(elm0.right, base, t.right, h1);
        NextBelow(c, t, cr, tr, Order());
      } else {
        NextUp(c, t, Order());
        ghost var after := After(c);
        var cur: Node := elm0;
        ClimbReads(c, t, links, root);
        var parent := cur.parent;
        while parent != null && cur == parent.right
          invariant Here(c, t, links, root) && t.Bin? && t.node == cur && cur in repr && After(c) == after
          invariant if c.Top? then parent == null else parent == c.node
          decreases c
        {
          Keys();
          ClimbReads(c, t, links, root);
          FieldsOf(parent);
          c, t := Climb(c, t, links, root);
          cur := parent;
          Keys();
          ClimbReads(c, t, links, root);
          FieldsOf(cur);
          parent := cur.parent;
        }
        Keys();
        ClimbReads(c, t, links, root);
        if parent != null { FieldsOf(parent); }
        elm := parent;
      }
    }

    /** `RB_MINMAX` downwards on the left: the least node. */
    method Min() returns (parent: Node?)
      requires Valid()
      ensures parent == if Order() == [] then null else Order()[0]
    {
      hide *;
      Begin(0);
      LeftmostBegins(Top);
      OrderFacts();
      MinOfEmpty(tree, Order());
      parent := null;
      if root != null {
        ghost var c, t, h;
        TopSearch(tree, height, links, root, Order(), 0);
        parent, c, t, h := Leftmost(root, Top, tree, height);
        MinIsFirst(c, t, tree, Order());
      }
    }

    /** `RB_FOREACH` visits every node once, in ascending order. */
    method Foreach() returns (visited: seq<Node>)
      requires Valid()
      ensures visited == Order() && Sorted(visited) && Elements(visited) == repr
    {
      hide *;
      visited := [];
      ghost var order := Order();
      OrderFacts();
      var x := Min();
      while x != null
        invariant Valid() && Order() == order
        invariant |visited| <= |order| && visited == order[..|visited|]
        invariant x == if |visited| < |order| then order[|visited|] else null
        decreases |order| - |visited|
      {
        ghost var k := |visited|;
        InElements(order, x);
        visited := visited + [x];
        var y := Next(x);
        FollowsAt(order, k, y);
        x := y;
      }
    }

    lemma OrderFacts()
      requires Valid()
      ensures repr == Elements(Order()) && Sorted(Order()) && Order() == Whole(Top, tree)
    {
      WholeTop(tree);
    }
  }
}
