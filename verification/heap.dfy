/**
  The pointer-linked binary heap of `libuv/src/heap-inl.h`.  The ghost `slots` list the nodes
  row by row: slot 1 is the root, and slots 2i and 2i + 1 hang below slot i.
 */
module BinaryHeap {
  import opened Bytes
  import opened Sequences

  /** A `struct heap_node` with the structure it is embedded in. */
  class Node<D> {
    var data: D
    var left: Node?<D>
    var right: Node?<D>
    var parent: Node?<D>

    constructor (data: D)
      ensures this.data == data
    {
      this.data := data;
      left, right, parent := null, null, null;
    }
  }

  /** What the fields of one node hold. */
  datatype Link<D> = Link(left: Node?<D>, right: Node?<D>, parent: Node?<D>, data: D)

  type Links<D> = map<Node<D>, Link<D>>

  // ----- slots -----

  ghost function At<D>(s: seq<Node<D>>, i: nat): Node?<D> {
    if 1 <= i <= |s| then s[i - 1] else null
  }

  /** Slot `i` is linked to the slots around it. */
  ghost predicate Slot<D>(s: seq<Node<D>>, m: Links<D>, i: nat)
    requires 1 <= i <= |s|
  {
    var n := s[i - 1];
    n in m && m[n].left == At(s, 2 * i) && m[n].right == At(s, 2 * i + 1) && m[n].parent == At(s, i / 2)
  }

  ghost predicate Linked<D>(s: seq<Node<D>>, m: Links<D>) {
    forall i :: 1 <= i <= |s| ==> Slot(s, m, i)
  }

  /** The root pointer and the nodes form the complete tree `s`. */
  ghost predicate Tree<D>(s: seq<Node<D>>, m: Links<D>, min: Node?<D>) {
    Distinct(s) && Linked(s, m) && min == At(s, 1)
  }

  /** The data is what it was. */
  ghost predicate SameData<D>(m: Links<D>, m': Links<D>) {
    m'.Keys == m.Keys && forall n :: n in m ==> m'[n].data == m[n].data
  }

  // ----- heap_node_swap -----

  ghost function Swapped<D>(s: seq<Node<D>>, i: nat): (s': seq<Node<D>>)
    requires 2 <= i <= |s|
    ensures |s'| == |s|
  {
    s[i / 2 - 1 := s[i - 1]][i - 1 := s[i / 2 - 1]]
  }

  ghost function WithLeft<D>(m: Links<D>, n: Node?<D>, v: Node?<D>): Links<D> {
    if n != null && n in m then m[n := m[n].(left := v)] else m
  }

  ghost function WithRight<D>(m: Links<D>, n: Node?<D>, v: Node?<D>): Links<D> {
    if n != null && n in m then m[n := m[n].(right := v)] else m
  }

  ghost function WithParent<D>(m: Links<D>, n: Node?<D>, v: Node?<D>): Links<D> {
    if n != null && n in m then m[n := m[n].(parent := v)] else m
  }

  /** The two structures exchanged, and the links between them set right. */
  ghost function Exchanged<D>(m: Links<D>, p: Node<D>, c: Node<D>): Links<D>
    requires p in m && c in m
  {
    var a, b := m[p], m[c];
    m[p := b.(data := a.data, parent := c)]
     [c := a.(data := b.data, left := if a.left == c then p else a.left, right := if a.left == c then a.right else p)]
  }

  /** What `heap_node_swap` leaves in the nodes. */
  ghost function SwapLinks<D>(m: Links<D>, p: Node<D>, c: Node<D>): Links<D>
    requires p in m && c in m
  {
    var m3 := Adopted(Exchanged(m, p, c), Sibling(m, p, c), p, c);
    Relinked(m3, p, c, m3[c].parent)
  }

  /** The parent fields of the children of both nodes set right. */
  ghost function Adopted<D>(m: Links<D>, sib: Node?<D>, p: Node<D>, c: Node<D>): (m': Links<D>)
    requires p in m
    ensures m'.Keys == m.Keys
  {
    var m1 := WithParent(m, sib, c);
    var m2 := WithParent(m1, m1[p].left, p);
    WithParent(m2, m2[p].right, p)
  }

  /** The child field of `g` that held `p` made to hold `c`. */
  ghost function Relinked<D>(m: Links<D>, p: Node<D>, c: Node<D>, g: Node?<D>): Links<D> {
    if g != null && g in m && m[g].left == p then WithLeft(m, g, c) else WithRight(m, g, c)
  }

  ghost function Sibling<D>(m: Links<D>, p: Node<D>, c: Node<D>): Node?<D>
    requires p in m
  {
    if m[p].left == c then m[p].right else m[p].left
  }

  /** The root pointer after the exchange. */
  ghost function SwapMin<D>(m: Links<D>, p: Node<D>, c: Node<D>, min: Node?<D>): Node?<D>
    requires p in m
  {
    if m[p].parent == null then c else min
  }

  /** What the swap leaves in a node, the neighbours of `p` and `c` being different nodes. */
  lemma SwapValue<D>(m: Links<D>, p: Node<D>, c: Node<D>, x: Node<D>)
    requires p in m && c in m && p != c && x in m && (m[p].left == c || m[p].right == c)
    requires var sib, g, l, r := Sibling(m, p, c), m[p].parent, m[c].left, m[c].right;
      && sib != p && sib != c && g != p && g != c && l != p && l != c && r != p && r != c
      && (g == null || (g != sib && g != l && g != r)) && (sib == null || (sib != l && sib != r))
      && (l == null || l != r)
      && (g != null ==> g in m && (m[g].left == p || m[g].right == p))
    ensures var sib, g, l, r, m' := Sibling(m, p, c), m[p].parent, m[c].left, m[c].right, SwapLinks(m, p, c);
      && x in m' && m'[x].data == m[x].data
      && m'[x].left == (if x == p then l else if x == c then (if m[p].left == c then p else sib)
                        else if x == g && m[g].left == p then c else m[x].left)
      && m'[x].right == (if x == p then r else if x == c then (if m[p].left == c then sib else p)
                         else if x == g && m[g].left != p then c else m[x].right)
      && m'[x].parent == (if x == p || x == sib then c else if x == c then g else if x == l || x == r then p
                          else m[x].parent)
  {
    var m0, sib, x0 := Exchanged(m, p, c), Sibling(m, p, c), m[x];
    var m3 := Adopted(m0, sib, p, c);
    assert m0[p].left == m[c].left && m0[p].right == m[c].right && m0[c].parent == m[p].parent;
    AdoptedValue(m0, sib, p, c, x);
    AdoptedValue(m0, sib, p, c, c);
    if m[p].parent != null { AdoptedValue(m0, sib, p, c, m[p].parent); }
    hide Adopted;
  }

  lemma AdoptedValue<D>(m: Links<D>, sib: Node?<D>, p: Node<D>, c: Node<D>, x: Node<D>)
    requires p in m && x in m && sib != p && m[p].left != p && m[p].right != p
    requires (sib == null || (sib != m[p].left && sib != m[p].right))
    ensures var m' := Adopted(m, sib, p, c);
      m'[x] == m[x].(parent := if x == sib then c else if x == m[p].left || x == m[p].right then p else m[x].parent)
  {
  }

  /** The neighbours of slots i / 2 and i are different nodes. */
  lemma SwapApart<D>(s: seq<Node<D>>, m: Links<D>, i: nat)
    requires Distinct(s) && Linked(s, m) && 2 <= i <= |s|
    ensures var p, c := s[i / 2 - 1], s[i - 1];
      && p in m && c in m && p != c && (m[p].left == c || m[p].right == c)
      && var sib, g, l, r := Sibling(m, p, c), m[p].parent, m[c].left, m[c].right;
      && sib == At(s, if i % 2 == 0 then i + 1 else i - 1) && g == At(s, i / 2 / 2) && l == At(s, 2 * i) && r == At(s, 2 * i + 1)
      && sib != p && sib != c && g != p && g != c && l != p && l != c && r != p && r != c
      && (g == null || (g != sib && g != l && g != r)) && (sib == null || (sib != l && sib != r))
      && (l == null || l != r)
      && (g != null ==> g in m && (m[g].left == p || m[g].right == p))
  {
    assert Slot(s, m, i) && Slot(s, m, i / 2);
    if i / 2 > 1 { assert Slot(s, m, i / 2 / 2); }
  }

  lemma LinkedAt<D>(s: seq<Node<D>>, m: Links<D>, i: nat)
    requires Linked(s, m) && 1 <= i <= |s|
    ensures Slot(s, m, i)
  {
  }

  /** The node at a slot after the swap. */
  lemma SwapAt<D>(s: seq<Node<D>>, i: nat, k: nat)
    requires 2 <= i <= |s|
    ensures At(Swapped(s, i), k) == if k == i then s[i / 2 - 1] else if k == i / 2 then s[i - 1] else At(s, k)
    ensures 1 <= k <= |s| ==> |Swapped(s, i)| == |s| && Swapped(s, i)[k - 1] == At(Swapped(s, i), k) && s[k - 1] == At(s, k)
  {
  }

  lemma SameSlot<D>(s: seq<Node<D>>, j: nat, k: nat)
    requires Distinct(s) && 1 <= j <= |s|
    ensures At(s, j) == At(s, k) <==> j == k
  {
  }

  /** The slots around the swap are told apart by their nodes. */
  lemma AroundSwap<D>(s: seq<Node<D>>, i: nat, j: nat)
    requires Distinct(s) && 2 <= i <= |s| && 1 <= j <= |s|
    ensures At(s, i) == s[i - 1] && At(s, i / 2) == s[i / 2 - 1]
    ensures forall k :: k in [i / 2, i, if i % 2 == 0 then i + 1 else i - 1, i / 2 / 2, 2 * i, 2 * i + 1] ==> (At(s, j) == At(s, k) <==> j == k)
  {
    forall k | k in [i / 2, i, if i % 2 == 0 then i + 1 else i - 1, i / 2 / 2, 2 * i, 2 * i + 1] ensures At(s, j) == At(s, k) <==> j == k {
      SameSlot(s, j, k);
    }
  }

  lemma SwapReadsSlots<D>(s: seq<Node<D>>, m: Links<D>, i: nat)
    requires Linked(s, m) && 2 <= i <= |s|
    ensures Slot(s, m, i) && Slot(s, m, i / 2)
  {
  }

  lemma SwapLeft<D>(s: seq<Node<D>>, m: Links<D>, i: nat, j: nat)
    requires Distinct(s) && Linked(s, m) && 2 <= i <= |s| && 1 <= j <= |s|
    ensures var p, c, s' := s[i / 2 - 1], s[i - 1], Swapped(s, i);
      && p in m && c in m && s'[j - 1] in m && s'[j - 1] in SwapLinks(m, p, c)
      && SwapLinks(m, p, c)[s'[j - 1]].left == At(s', 2 * j)
  {
    SwapApart(s, m, i);
    LinkedAt(s, m, j);
    SwapAt(s, i, j);
    SwapAt(s, i, 2 * j);
    AroundSwap(s, i, j);
    SwapReadsSlots(s, m, i);
    hide SwapLinks, Sibling, Linked, Swapped, At, Distinct;
    SwapValue(m, s[i / 2 - 1], s[i - 1], Swapped(s, i)[j - 1]);
  }

  lemma SwapRight<D>(s: seq<Node<D>>, m: Links<D>, i: nat, j: nat)
    requires Distinct(s) && Linked(s, m) && 2 <= i <= |s| && 1 <= j <= |s|
    ensures var p, c, s' := s[i / 2 - 1], s[i - 1], Swapped(s, i);
      && p in m && c in m && s'[j - 1] in m && s'[j - 1] in SwapLinks(m, p, c)
      && SwapLinks(m, p, c)[s'[j - 1]].right == At(s', 2 * j + 1)
  {
    SwapApart(s, m, i);
    LinkedAt(s, m, j);
    SwapAt(s, i, j);
    SwapAt(s, i, 2 * j + 1);
    AroundSwap(s, i, j);
    SwapReadsSlots(s, m, i);
    hide SwapLinks, Sibling, Linked, Swapped, At, Distinct;
    SwapValue(m, s[i / 2 - 1], s[i - 1], Swapped(s, i)[j - 1]);
  }

  lemma SwapUp<D>(s: seq<Node<D>>, m: Links<D>, i: nat, j: nat)
    requires Distinct(s) && Linked(s, m) && 2 <= i <= |s| && 1 <= j <= |s|
    ensures var p, c, s' := s[i / 2 - 1], s[i - 1], Swapped(s, i);
      && p in m && c in m && s'[j - 1] in m && s'[j - 1] in SwapLinks(m, p, c)
      && SwapLinks(m, p, c)[s'[j - 1]].parent == At(s', j / 2)
  {
    hide SwapLinks, Sibling, Linked, Swapped, At, Distinct;
    SwapApart(s, m, i);
    LinkedAt(s, m, j);
    SwapAt(s, i, j);
    SwapAt(s, i, j / 2);
    AroundSwap(s, i, j);
    SwapReadsSlots(s, m, i);
    SwapValue(m, s[i / 2 - 1], s[i - 1], Swapped(s, i)[j - 1]);
  }

  lemma SwapSlot<D>(s: seq<Node<D>>, m: Links<D>, i: nat, j: nat)
    requires Distinct(s) && Linked(s, m) && 2 <= i <= |s| && 1 <= j <= |s|
    ensures s[i / 2 - 1] in m && s[i - 1] in m
    ensures Slot(Swapped(s, i), SwapLinks(m, s[i / 2 - 1], s[i - 1]), j)
  {
    hide SwapLinks, Linked, Distinct, Swapped, At;
    SwapLeft(s, m, i, j);
    SwapRight(s, m, i, j);
    SwapUp(s, m, i, j);
  }

  lemma WithParentData<D>(m: Links<D>, n: Node?<D>, v: Node?<D>)
    ensures SameData(m, WithParent(m, n, v))
  {
  }

  lemma SwapData<D>(m: Links<D>, p: Node<D>, c: Node<D>)
    requires p in m && c in m
    ensures SameData(m, SwapLinks(m, p, c))
  {
    hide WithParent, Sibling, Relinked;
    AdoptedData(Exchanged(m, p, c), Sibling(m, p, c), p, c);
    var m3 := Adopted(Exchanged(m, p, c), Sibling(m, p, c), p, c);
    RelinkedData(m3, p, c, m3[c].parent);
  }

  lemma AdoptedData<D>(m: Links<D>, sib: Node?<D>, p: Node<D>, c: Node<D>)
    requires p in m
    ensures SameData(m, Adopted(m, sib, p, c))
  {
    hide WithParent;
    WithParentData(m, sib, c);
    var m1 := WithParent(m, sib, c);
    WithParentData(m1, m1[p].left, p);
    var m2 := WithParent(m1, m1[p].left, p);
    WithParentData(m2, m2[p].right, p);
  }

  lemma RelinkedData<D>(m: Links<D>, p: Node<D>, c: Node<D>, g: Node?<D>)
    ensures SameData(m, Relinked(m, p, c, g))
  {
  }

  lemma SwapTree<D>(s: seq<Node<D>>, m: Links<D>, min: Node?<D>, i: nat)
    requires Tree(s, m, min) && 2 <= i <= |s|
    ensures s[i / 2 - 1] in m && s[i - 1] in m
    ensures var p, c := s[i / 2 - 1], s[i - 1];
      var m' := SwapLinks(m, p, c);
      && Tree(Swapped(s, i), m', SwapMin(m, p, c, min)) && SameData(m, m')
  {
    assert Slot(s, m, i) && Slot(s, m, i / 2);
    var s', m' := Swapped(s, i), SwapLinks(m, s[i / 2 - 1], s[i - 1]);
    SwapData(m, s[i / 2 - 1], s[i - 1]);
    forall j | 1 <= j <= |s| ensures Slot(s', m', j) { SwapSlot(s, m, i, j); }
    hide SwapLinks, Slot;
    assert At(s', 1) == if i / 2 == 1 then s[i - 1] else At(s, 1);
  }

  ghost predicate Known<D>(m: Links<D>, n: Node?<D>) {
    n == null || n in m
  }

  /** The nodes the swap looks at are nodes of the heap. */
  lemma SwapReads<D>(s: seq<Node<D>>, m: Links<D>, min: Node?<D>, i: nat)
    requires Tree(s, m, min) && 2 <= i <= |s|
    ensures var p, c := s[i / 2 - 1], s[i - 1];
      && p in m && c in m && p != c
      && var m0, sib := Exchanged(m, p, c), Sibling(m, p, c);
      && p in m0 && Known(m0, sib) && Known(m0, m0[p].left) && Known(m0, m0[p].right)
      && var m3 := Adopted(m0, sib, p, c);
      && c in m3 && (m3[c].parent == null || m3[c].parent in m3)
      && SwapLinks(m, p, c) == Relinked(m3, p, c, m3[c].parent)
      && SwapMin(m, p, c, min) == if m3[c].parent == null then c else min
  {
    SwapApart(s, m, i);
    SwapReadsSlots(s, m, i);
    var p, c := s[i / 2 - 1], s[i - 1];
    AtKnown(s, m, i / 2 / 2);
    AtKnown(s, m, 2 * i);
    AtKnown(s, m, 2 * i + 1);
    AtKnown(s, m, if i % 2 == 0 then i + 1 else i - 1);
    hide Linked, Distinct, At;
    AdoptedValue(Exchanged(m, p, c), Sibling(m, p, c), p, c, c);
  }

  lemma AtKnown<D>(s: seq<Node<D>>, m: Links<D>, k: nat)
    requires Linked(s, m)
    ensures Known(m, At(s, k))
  {
    if 1 <= k <= |s| { LinkedAt(s, m, k); }
  }

  // ----- the path to a slot -----

  /** Where the lowest `k` bits of `path`, the lowest first, lead from slot `pos`. */
  ghost function Follow(pos: nat, path: nat, k: nat): nat
    decreases k
  {
    if k == 0 then pos else Follow(2 * pos + path % 2, path / 2, k - 1)
  }

  lemma {:induction false} FollowGrows(pos: nat, path: nat, k: nat)
    ensures Follow(pos, path, k) >= pos && (k > 0 ==> Follow(pos, path, k) >= 2 * pos)
    decreases k
  {
    if k > 0 { FollowGrows(2 * pos + path % 2, path / 2, k - 1); }
  }

  /** The largest `unsigned`. */
  const UINT_MAX := 0xFFFF_FFFF

  /** The loop that turns the number of a slot into a path from the root. */
  method PathTo(target: u32) returns (path: u32, k: u32)
    requires target >= 1
    ensures Follow(1, path, k) == target
  {
    hide Fits;
    var n: u32 := target;
    path, k := 0, 0;
    ghost var width: nat := 1;
    FitsStart(target);
    while n >= 2
      invariant n >= 1 && Follow(n, path, k) == target && Fits(n, path, k, width, target)
      decreases n
    {
      FitsStep(n, path, k, width, target);
      path, k, n := 2 * path + n % 2, k + 1, n / 2;
      width := 2 * width;
    }
  }

  /** The bits taken off `target` so far fit below `width`, a power of two that `target` exceeds. */
  ghost predicate Fits(n: nat, path: nat, k: nat, width: nat, target: nat) {
    path < width && k < width && n * width <= target
  }

  lemma FitsStart(target: nat)
    ensures Fits(target, 0, 0, 1, target)
  {
  }

  lemma FitsStep(n: nat, path: nat, k: nat, width: nat, target: nat)
    requires n >= 2 && Fits(n, path, k, width, target)
    ensures Fits(n / 2, 2 * path + n % 2, k + 1, 2 * width, target) && 2 * path + n % 2 < target && k + 1 < target
  {
    assert n / 2 * (2 * width) == 2 * (n / 2) * width;
    assert 2 * (n / 2) * width <= n * width && 2 * width <= n * width;
  }

  /** A place that holds a pointer to a node: `&heap->min` or a child field. */
  datatype Place<D> = Min | LeftOf(n: Node<D>) | RightOf(n: Node<D>)

  /** The place of the pointer to slot `i`. */
  ghost predicate IsPlace<D>(s: seq<Node<D>>, i: nat, p: Place<D>) {
    if i <= 1 then i == 1 && p.Min?
    else i / 2 <= |s| && p == if i % 2 == 0 then LeftOf(s[i / 2 - 1]) else RightOf(s[i / 2 - 1])
  }

  // ----- order -----

  /** A strict weak order, which any strict total order is. */
  ghost predicate Strict<D(!new)>(lt: (D, D) -> bool) {
    && (forall a, b :: lt(a, b) ==> !lt(b, a))
    && (forall a, b, c :: !lt(b, a) && !lt(c, b) ==> !lt(c, a))
  }

  /** The node in slot `i` is not less than its parent. */
  ghost predicate Above<D(!new)>(s: seq<Node<D>>, m: Links<D>, lt: (D, D) -> bool, i: nat)
    requires 2 <= i <= |s|
  {
    s[i - 1] in m && s[i / 2 - 1] in m && !lt(m[s[i - 1]].data, m[s[i / 2 - 1]].data)
  }

  ghost predicate Ordered<D(!new)>(s: seq<Node<D>>, m: Links<D>, lt: (D, D) -> bool) {
    forall i :: 2 <= i <= |s| ==> Above(s, m, lt, i)
  }

  /** Slot `j` may be out of order with its parent; its children are in order with both. */
  ghost predicate OrderedBut<D(!new)>(s: seq<Node<D>>, m: Links<D>, lt: (D, D) -> bool, j: nat) {
    && (forall i :: 2 <= i <= |s| && i != j ==> Above(s, m, lt, i))
    && Bridged(s, m, lt, j)
  }

  /** The children of slot `j` are not less than its parent. */
  ghost predicate Bridged<D(!new)>(s: seq<Node<D>>, m: Links<D>, lt: (D, D) -> bool, j: nat) {
    forall i :: 2 <= i <= |s| && i / 2 == j && j >= 2 ==>
      s[i - 1] in m && s[j / 2 - 1] in m && !lt(m[s[i - 1]].data, m[s[j / 2 - 1]].data)
  }

  /** Slot `j` may be out of order with its parent and with its children. */
  ghost predicate OrderedAround<D(!new)>(s: seq<Node<D>>, m: Links<D>, lt: (D, D) -> bool, j: nat) {
    && (forall i :: 2 <= i <= |s| && i != j && i / 2 != j ==> Above(s, m, lt, i))
    && Bridged(s, m, lt, j)
  }

  /** Moving a small node up. */
  lemma UpStep<D(!new)>(s: seq<Node<D>>, m: Links<D>, m': Links<D>, lt: (D, D) -> bool, j: nat)
    requires Strict(lt) && OrderedBut(s, m, lt, j) && SameData(m, m') && 2 <= j <= |s|
    requires s[j - 1] in m && s[j / 2 - 1] in m && lt(m[s[j - 1]].data, m[s[j / 2 - 1]].data)
    ensures OrderedBut(Swapped(s, j), m', lt, j / 2)
  {
    var s' := Swapped(s, j);
    forall i | 2 <= i <= |s| && i != j / 2 ensures Above(s', m', lt, i) {
      if i != j { assert Above(s, m, lt, i); }
      if i / 2 == j / 2 && i != j { assert Above(s, m, lt, i); }
    }
    forall i | 2 <= i <= |s| && i / 2 == j / 2 && j / 2 >= 2
      ensures s'[i - 1] in m' && s'[j / 2 / 2 - 1] in m' && !lt(m'[s'[i - 1]].data, m'[s'[j / 2 / 2 - 1]].data)
    {
      assert Above(s, m, lt, j / 2);
      if i != j { assert Above(s, m, lt, i); }
    }
  }

  /** Once the node is not less than its parent, everything is in order. */
  lemma UpEnd<D(!new)>(s: seq<Node<D>>, m: Links<D>, lt: (D, D) -> bool, j: nat)
    requires OrderedBut(s, m, lt, j) && (2 <= j <= |s| ==> Above(s, m, lt, j))
    ensures Ordered(s, m, lt)
  {
  }

  /** Slot `c` is the least child of slot `j`, and less than it. */
  /** The node at slot `j` is less than the one above. */
  ghost predicate RisesAt<D(!new)>(s: seq<Node<D>>, m: Links<D>, lt: (D, D) -> bool, j: nat)
    requires 1 <= j <= |s|
  {
    j >= 2 && s[j - 1] in m && s[j / 2 - 1] in m && lt(m[s[j - 1]].data, m[s[j / 2 - 1]].data)
  }

  lemma UpStop<D(!new)>(s: seq<Node<D>>, m: Links<D>, min: Node?<D>, lt: (D, D) -> bool, j: nat)
    requires Tree(s, m, min) && OrderedBut(s, m, lt, j) && 1 <= j <= |s| && !RisesAt(s, m, lt, j)
    ensures Ordered(s, m, lt)
  {
    LinkedAt(s, m, j);
    if j >= 2 { LinkedAt(s, m, j / 2); }
    UpEnd(s, m, lt, j);
  }

  ghost predicate LeastChild<D(!new)>(s: seq<Node<D>>, m: Links<D>, lt: (D, D) -> bool, j: nat, c: nat) {
    && 1 <= j && c / 2 == j && 2 <= c <= |s| && (forall k :: 0 <= k < |s| ==> s[k] in m)
    && lt(m[s[c - 1]].data, m[s[j - 1]].data)
    && (forall i :: 2 <= i <= |s| && i / 2 == j ==> !lt(m[s[i - 1]].data, m[s[c - 1]].data))
  }

  lemma LeastOf<D(!new)>(s: seq<Node<D>>, m: Links<D>, lt: (D, D) -> bool, j: nat, c: nat)
    requires 1 <= j && (c == 2 * j || c == 2 * j + 1) && c <= |s| && forall k :: 0 <= k < |s| ==> s[k] in m
    requires lt(m[s[c - 1]].data, m[s[j - 1]].data)
    requires 2 * j <= |s| ==> !lt(m[s[2 * j - 1]].data, m[s[c - 1]].data)
    requires 2 * j + 1 <= |s| ==> !lt(m[s[2 * j]].data, m[s[c - 1]].data)
    ensures LeastChild(s, m, lt, j, c)
  {
    assert forall i :: 2 <= i <= |s| && i / 2 == j ==> i == 2 * j || i == 2 * j + 1;
  }

  lemma TreeLinked<D>(s: seq<Node<D>>, m: Links<D>, min: Node?<D>)
    requires Tree(s, m, min)
    ensures Linked(s, m)
  {
  }

  /** Moving a large node down: `c` is the slot of its smallest child. */
  lemma DownStep<D(!new)>(s: seq<Node<D>>, m: Links<D>, m': Links<D>, lt: (D, D) -> bool, j: nat, c: nat)
    requires Strict(lt) && OrderedAround(s, m, lt, j) && SameData(m, m') && 1 <= j && c / 2 == j && 2 <= c <= |s|
    requires LeastChild(s, m, lt, j, c)
    ensures OrderedAround(Swapped(s, c), m', lt, c) && Above(Swapped(s, c), m', lt, c)
    ensures j >= 2 ==> Above(Swapped(s, c), m', lt, j)
  {
    var s' := Swapped(s, c);
    forall i | 2 <= i <= |s| && i != c && i / 2 != c ensures Above(s', m', lt, i) {
      if i != j && i / 2 != j { assert Above(s, m, lt, i); }
    }
    forall i | 2 <= i <= |s| && i / 2 == c
      ensures s'[i - 1] in m' && s'[c / 2 - 1] in m' && !lt(m'[s'[i - 1]].data, m'[s'[c / 2 - 1]].data)
    {
      assert Above(s, m, lt, i);
    }
  }

  lemma DownEnd<D(!new)>(s: seq<Node<D>>, m: Links<D>, lt: (D, D) -> bool, j: nat)
    requires OrderedAround(s, m, lt, j) && forall i :: 2 <= i <= |s| && i / 2 == j ==> Above(s, m, lt, i)
    ensures OrderedBut(s, m, lt, j)
  {
  }

  /** Another node in slot `j` disturbs the order around it only. */
  lemma Replaced<D(!new)>(s: seq<Node<D>>, m: Links<D>, m': Links<D>, lt: (D, D) -> bool, j: nat, n: Node<D>)
    requires Strict(lt) && Ordered(s, m, lt) && SameData(m, m') && 1 <= j <= |s| && n in m
    requires forall k :: 0 <= k < |s| ==> s[k] in m
    ensures OrderedAround(s[j - 1 := n], m', lt, j)
  {
    var s' := s[j - 1 := n];
    forall i | 2 <= i <= |s| && i != j && i / 2 != j ensures Above(s', m', lt, i) {
      assert Above(s, m, lt, i);
    }
    forall i | 2 <= i <= |s| && i / 2 == j && j >= 2
      ensures s'[i - 1] in m' && s'[j / 2 - 1] in m' && !lt(m'[s'[i - 1]].data, m'[s'[j / 2 - 1]].data)
    {
      assert Above(s, m, lt, i) && Above(s, m, lt, j);
    }
  }

  /** The root is a least element. */
  lemma {:induction false} RootLeast<D(!new)>(s: seq<Node<D>>, m: Links<D>, lt: (D, D) -> bool, i: nat)
    requires Strict(lt) && Ordered(s, m, lt) && 1 <= i <= |s| && s[0] in m && s[i - 1] in m
    ensures !lt(m[s[i - 1]].data, m[s[0]].data)
  {
    if i > 1 {
      assert Above(s, m, lt, i);
      RootLeast(s, m, lt, i / 2);
    }
  }

  // ----- adding, dropping and replacing a node -----

  /** The pointer at a place. */
  ghost function Load<D>(m: Links<D>, min: Node?<D>, p: Place<D>): Node?<D>
    requires p.Min? || p.n in m
  {
    match p case Min => min case LeftOf(n) => m[n].left case RightOf(n) => m[n].right
  }

  ghost function Store<D>(m: Links<D>, p: Place<D>, v: Node?<D>): Links<D> {
    match p case Min => m case LeftOf(n) => WithLeft(m, n, v) case RightOf(n) => WithRight(m, n, v)
  }

  lemma PlaceLoads<D>(s: seq<Node<D>>, m: Links<D>, min: Node?<D>, i: nat, p: Place<D>)
    requires Tree(s, m, min) && IsPlace(s, i, p)
    ensures (p.Min? || p.n in m) && Load(m, min, p) == At(s, i)
    ensures At(s, i) != null ==> At(s, i) in m
  {
    if i >= 2 { LinkedAt(s, m, i / 2); }
    if i <= |s| { LinkedAt(s, m, i); }
  }

  lemma HangPlaces<D>(s: seq<Node<D>>, m: Links<D>, min: Node?<D>, parent: Place<D>, child: Place<D>)
    requires Tree(s, m, min) && IsPlace(s, |s| + 1, child)
    requires if s == [] then parent.Min? else IsPlace(s, (|s| + 1) / 2, parent)
    ensures (parent.Min? || parent.n in m) && (child.Min? || child.n in m)
    ensures Load(m, min, parent) == At(s, (|s| + 1) / 2)
  {
    PlaceLoads(s, m, min, |s| + 1, child);
    if s != [] { PlaceLoads(s, m, min, (|s| + 1) / 2, parent); }
  }

  lemma LinkedTree<D>(s: seq<Node<D>>, m: Links<D>, min: Node?<D>)
    requires Tree(s, m, min)
    ensures Linked(s, m) && Distinct(s) && min == At(s, 1)
  {
  }

  /** A step down the path. */
  lemma PlaceBelow<D>(s: seq<Node<D>>, i: nat, right: bool)
    requires 1 <= i <= |s|
    ensures IsPlace(s, 2 * i + (if right then 1 else 0), if right then RightOf(s[i - 1]) else LeftOf(s[i - 1]))
  {
  }

  /** A new node at the end of the bottom row. */
  lemma InsertTree<D>(s: seq<Node<D>>, m: Links<D>, min: Node?<D>, n: Node<D>, parent: Node?<D>, child: Place<D>, data: D)
    requires Tree(s, m, min) && n !in s && IsPlace(s, |s| + 1, child) && parent == At(s, (|s| + 1) / 2)
    ensures var m' := Store(m[n := Link(null, null, parent, data)], child, n);
      Tree(s + [n], m', if child.Min? then n else min)
  {
    var s', m' := s + [n], Store(m[n := Link(null, null, parent, data)], child, n);
    forall i | 1 <= i <= |s'| ensures Slot(s', m', i) {
      if i <= |s| { LinkedAt(s, m, i); }
    }
  }

  /** The data of the nodes of `m` is what it was. */
  ghost predicate KeepsData<D>(m: Links<D>, m': Links<D>) {
    m.Keys <= m'.Keys && forall n :: n in m ==> m'[n].data == m[n].data
  }

  lemma InsertOrder<D(!new)>(s: seq<Node<D>>, m: Links<D>, m': Links<D>, lt: (D, D) -> bool, n: Node<D>)
    requires Ordered(s, m, lt) && Linked(s, m) && KeepsData(m, m') && n in m'
    ensures OrderedBut(s + [n], m', lt, |s| + 1)
  {
    AllLinked(s, m);
    forall i | 2 <= i <= |s| + 1 && i != |s| + 1 ensures Above(s + [n], m', lt, i) {
      assert Above(s, m, lt, i);
    }
  }

  lemma InsertData<D>(m: Links<D>, n: Node<D>, k: Link<D>, child: Place<D>)
    requires n !in m
    ensures var m' := Store(m[n := k], child, n);
      KeepsData(m, m') && n in m' && m'[n].data == k.data && m'.Keys == m.Keys + {n}
  {
  }

  lemma AppendElements<D>(s: seq<Node<D>>, n: Node<D>)
    ensures Elements(s + [n]) == Elements(s) + {n}
  {
    assert (s + [n])[|s|] == n;
    assert forall k :: 0 <= k < |s| ==> (s + [n])[k] == s[k];
  }

  /** Removing the last node keeps the order of the others. */
  lemma UnlinkOrder<D(!new)>(s: seq<Node<D>>, m: Links<D>, m': Links<D>, lt: (D, D) -> bool)
    requires Ordered(s, m, lt) && SameData(m, m') && |s| > 0
    ensures Ordered(s[..|s| - 1], m', lt)
  {
    var s' := s[..|s| - 1];
    forall i | 2 <= i <= |s'| ensures Above(s', m', lt, i) {
      assert Above(s, m, lt, i);
    }
  }

  /** The nodes that remain. */
  lemma UnlinkElements<D>(s: seq<Node<D>>)
    requires Distinct(s) && |s| > 0
    ensures var s', last := s[..|s| - 1], s[|s| - 1];
      Elements(s') == Elements(s) - {last} && last !in s' && last in Elements(s)
  {
    var s', last := s[..|s| - 1], s[|s| - 1];
    forall n ensures n in Elements(s') <==> n in Elements(s) - {last} {
      if n in Elements(s) && n != last {
        var k :| 0 <= k < |s| && s[k] == n;
        assert s'[k] == n;
      }
    }
  }

  lemma ReplaceElements<D>(s: seq<Node<D>>, j: nat, n: Node<D>)
    requires Distinct(s) && 1 <= j <= |s| && n !in s
    ensures Elements(s[j - 1 := n]) == Elements(s) - {s[j - 1]} + {n}
  {
    var s' := s[j - 1 := n];
    forall x ensures x in Elements(s') <==> x in Elements(s) - {s[j - 1]} + {n} {
      if x in Elements(s) && x != s[j - 1] {
        var k :| 0 <= k < |s| && s[k] == x;
        assert s'[k] == x;
      }
      assert s'[j - 1] == n;
    }
  }

  /** A node that is in no slot can be forgotten. */
  lemma DropTree<D(!new)>(s: seq<Node<D>>, m: Links<D>, min: Node?<D>, lt: (D, D) -> bool, n: Node<D>)
    requires Tree(s, m, min) && Ordered(s, m, lt) && n !in s
    ensures Tree(s, m - {n}, min) && Ordered(s, m - {n}, lt)
  {
    forall i | 1 <= i <= |s| ensures Slot(s, m - {n}, i) { LinkedAt(s, m, i); }
    forall i | 2 <= i <= |s| ensures Above(s, m - {n}, lt, i) { assert Above(s, m, lt, i); }
  }

  lemma SameDataAt<D>(m: Links<D>, m': Links<D>, n: Node<D>)
    requires SameData(m, m') && n in m
    ensures n in m' && m'[n].data == m[n].data
  {
  }

  lemma DropData<D>(m0: Links<D>, m: Links<D>, n: Node<D>)
    requires SameData(m0, m)
    ensures KeepsData(m - {n}, m0) && (m - {n}).Keys == m0.Keys - {n}
  {
  }

  lemma NotElement<D>(s: seq<Node<D>>, n: Node<D>)
    ensures n in s <==> n in Elements(s)
  {
  }

  /** The last node unlinked. */
  lemma UnlinkTree<D>(s: seq<Node<D>>, m: Links<D>, min: Node?<D>, max: Place<D>)
    requires Tree(s, m, min) && |s| > 0 && IsPlace(s, |s|, max)
    ensures Tree(s[..|s| - 1], Store(m, max, null), if max.Min? then null else min) && SameData(m, Store(m, max, null))
  {
    var s', m' := s[..|s| - 1], Store(m, max, null);
    forall i | 1 <= i <= |s'| ensures Slot(s', m', i) {
      LinkedAt(s, m, i);
    }
  }

  /** `child` with the links of `node`, and the neighbours' pointers to it. */
  ghost function ReplaceLinks<D>(m: Links<D>, node: Node<D>, child: Node<D>): Links<D>
    requires node in m && child in m
  {
    var k := m[node];
    var m1 := m[child := k.(data := m[child].data)];
    Relinked(WithParent(WithParent(m1, k.left, child), k.right, child), node, child, k.parent)
  }

  lemma ReplaceValue<D>(m: Links<D>, node: Node<D>, child: Node<D>, x: Node<D>)
    requires node in m && child in m && x in m && node != child
    requires var l, r, g := m[node].left, m[node].right, m[node].parent;
      && l != child && r != child && g != child && (g != null ==> g in m && g != l && g != r && g != node)
      && (l == null || l != r)
    ensures var l, r, g, m' := m[node].left, m[node].right, m[node].parent, ReplaceLinks(m, node, child);
      && x in m' && m'[x].data == m[x].data
      && m'[x].left == (if x == child then l else if x == g && m[g].left == node then child else m[x].left)
      && m'[x].right == (if x == child then r else if x == g && m[g].left != node then child else m[x].right)
      && m'[x].parent == (if x == child then g else if x == l || x == r then child else m[x].parent)
  {
    var k := m[node];
    var m1 := m[child := k.(data := m[child].data)];
    var m2 := WithParent(m1, k.left, child);
    assert k.parent != null ==> m2[k.parent] == m1[k.parent];
  }

  /** The nodes around slot `j` are different nodes. */
  lemma ReplaceApart<D>(s: seq<Node<D>>, m: Links<D>, j: nat, child: Node<D>)
    requires Distinct(s) && Linked(s, m) && 1 <= j <= |s| && child !in s
    ensures var node := s[j - 1];
      && node in m && node != child
      && var l, r, g := m[node].left, m[node].right, m[node].parent;
      && l == At(s, 2 * j) && r == At(s, 2 * j + 1) && g == At(s, j / 2)
      && l != child && r != child && g != child && (g != null ==> g in m && g != l && g != r && g != node)
      && (l == null || l != r) && Known(m, l) && Known(m, r) && l != node && r != node
  {
    LinkedAt(s, m, j);
    if j > 1 { LinkedAt(s, m, j / 2); }
    if 2 * j <= |s| { LinkedAt(s, m, 2 * j); }
    if 2 * j + 1 <= |s| { LinkedAt(s, m, 2 * j + 1); }
  }

  lemma ReplaceSlot<D>(s: seq<Node<D>>, m: Links<D>, j: nat, child: Node<D>, i: nat)
    requires Distinct(s) && Linked(s, m) && 1 <= j <= |s| && child in m && child !in s && 1 <= i <= |s|
    ensures s[j - 1] in m && Slot(s[j - 1 := child], ReplaceLinks(m, s[j - 1], child), i)
  {
    ReplaceApart(s, m, j, child);
    hide ReplaceLinks, Linked;
    LinkedAt(s, m, i);
    LinkedAt(s, m, j);
    if i == j / 2 { LinkedAt(s, m, j / 2); }
    ReplaceValue(m, s[j - 1], child, s[j - 1 := child][i - 1]);
  }

  lemma ReplaceTree<D>(s: seq<Node<D>>, m: Links<D>, min: Node?<D>, j: nat, child: Node<D>)
    requires Tree(s, m, min) && 1 <= j <= |s| && child in m && child !in s
    ensures s[j - 1] in m && s[j - 1] != child
    ensures var m' := ReplaceLinks(m, s[j - 1], child);
      Tree(s[j - 1 := child], m', SwapMin(m, s[j - 1], child, min)) && SameData(m, m')
  {
    ReplaceApart(s, m, j, child);
    var node := s[j - 1];
    var s', m' := s[j - 1 := child], ReplaceLinks(m, node, child);
    forall x | x in m ensures x in m' && m'[x].data == m[x].data { ReplaceValue(m, node, child, x); }
    forall i | 1 <= i <= |s| ensures Slot(s', m', i) { ReplaceSlot(s, m, j, child, i); }
    assert m'.Keys == m.Keys;
    hide ReplaceLinks, Slot;
    assert At(s', 1) == if j == 1 then child else At(s, 1);
  }

  lemma SameDataRefl<D>(m: Links<D>)
    ensures SameData(m, m)
  {
  }

  lemma SameDataTrans<D>(a: Links<D>, b: Links<D>, c: Links<D>)
    requires SameData(a, b) && SameData(b, c)
    ensures SameData(a, c)
  {
  }

  lemma AllLinked<D>(s: seq<Node<D>>, m: Links<D>)
    requires Linked(s, m)
    ensures forall k :: 0 <= k < |s| ==> s[k] in m
  {
    forall k | 0 <= k < |s| ensures s[k] in m { LinkedAt(s, m, k + 1); }
  }

  lemma {:induction false} SwappedElements<D>(s: seq<Node<D>>, i: nat)
    requires 2 <= i <= |s|
    ensures Elements(Swapped(s, i)) == Elements(s)
  {
    var s' := Swapped(s, i);
    forall n ensures n in Elements(s') <==> n in Elements(s) {
      if n in Elements(s) {
        var k :| 0 <= k < |s| && s[k] == n;
        assert s'[if k == i - 1 then i / 2 - 1 else if k == i / 2 - 1 then i - 1 else k] == n;
      }
    }
  }

  // ----- the heap -----

  ghost function Elements<D>(s: seq<Node<D>>): set<Node<D>> {
    set k | 0 <= k < |s| :: s[k]
  }

  class Heap<D(!new)> {
    var min: Node?<D>
    var nelts: u32
    ghost var repr: set<Node<D>>
    ghost var links: Links<D>
    ghost var slots: seq<Node<D>>

    /** `links` are the fields of the nodes. */
    ghost predicate Fields()
      reads this`links, this`repr, repr
    {
      links.Keys == repr && forall n :: n in repr ==> Link(n.left, n.right, n.parent, n.data) == links[n]
    }

    /** A complete tree of `nelts` nodes in which no node is less than its parent. */
    ghost predicate Valid(lt: (D, D) -> bool)
      reads this, repr
    {
      && Fields() && Tree(slots, links, min) && Ordered(slots, links, lt)
      && nelts == |slots| && repr == Elements(slots)
    }

    /** `heap_init` */
    constructor (ghost lt: (D, D) -> bool)
      ensures Valid(lt) && repr == {}
    {
      min, nelts := null, 0;
      repr, links, slots := {}, map[], [];
    }

    method SetLeft(n: Node<D>, v: Node?<D>)
      requires Fields() && n in repr
      modifies this`links, n`left
      ensures Fields() && links == old(links)[n := old(links)[n].(left := v)]
    {
      n.left := v;
      links := links[n := links[n].(left := v)];
    }

    method SetRight(n: Node<D>, v: Node?<D>)
      requires Fields() && n in repr
      modifies this`links, n`right
      ensures Fields() && links == old(links)[n := old(links)[n].(right := v)]
    {
      n.right := v;
      links := links[n := links[n].(right := v)];
    }

    method SetParent(n: Node<D>, v: Node?<D>)
      requires Fields() && n in repr
      modifies this`links, n`parent
      ensures Fields() && links == old(links)[n := old(links)[n].(parent := v)]
    {
      n.parent := v;
      links := links[n := links[n].(parent := v)];
    }

    /** `*to = *from` for the structures, whose fields are passed as values. */
    method Assign(to: Node<D>, left: Node?<D>, right: Node?<D>, parent: Node?<D>)
      requires Fields() && to in repr
      modifies this`links, to
      ensures Fields() && links == old(links)[to := Link(left, right, parent, old(links)[to].data)]
    {
      to.left, to.right, to.parent := left, right, parent;
      links := links[to := Link(left, right, parent, links[to].data)];
    }

    /** The first half of `heap_node_swap`: the structures and the links between them. */
    method Exchange(parent: Node<D>, child: Node<D>) returns (sibling: Node?<D>)
      requires Fields() && parent in repr && child in repr && parent != child
      modifies this`links, parent, child
      ensures Fields() && links == Exchanged(old(links), parent, child)
      ensures sibling == Sibling(old(links), parent, child)
    {
      CopyStructs(parent, child);
      SetParent(parent, child);
      if child.left == child {
        SetLeft(child, parent);
        sibling := child.right;
      } else {
        SetRight(child, parent);
        sibling := child.left;
      }
    }

    /** The two structures change places, but for the data. */
    method CopyStructs(parent: Node<D>, child: Node<D>)
      requires Fields() && parent in repr && child in repr && parent != child
      modifies this`links, parent, child
      ensures Fields() && parent in old(links) && child in old(links)
      ensures var a, b := old(links)[parent], old(links)[child];
        links == old(links)[parent := b.(data := a.data)][child := a.(data := b.data)]
    {
      var l, r, p := parent.left, parent.right, parent.parent;
      Assign(parent, child.left, child.right, child.parent);
      Assign(child, l, r, p);
    }

    /** The pointer that led to `gone`, whose parent is `holder`, made to lead to `child`. */
    method Relink(holder: Node?<D>, gone: Node<D>, child: Node<D>)
      requires Fields() && Known(links, holder)
      modifies this`links, this`min, repr
      ensures Fields() && links == Relinked(old(links), gone, child, holder)
      ensures min == if holder == null then child else old(min)
    {
      if holder == null {
        min := child;
      } else if holder.left == gone {
        SetLeft(holder, child);
      } else {
        SetRight(holder, child);
      }
    }

    /** `n->parent` */
    method Parent(n: Node<D>) returns (v: Node?<D>)
      requires Fields() && n in repr
      ensures n in links && v == links[n].parent
    {
      v := n.parent;
    }

    /** The ghost view follows the pointers. */
    ghost method Renumber(s: seq<Node<D>>)
      requires Fields()
      modifies this`slots
      ensures Fields() && slots == s
    {
      slots := s;
    }

    lemma DataOf(n: Node<D>)
      requires Fields() && n in repr
      ensures n in links && links[n].data == n.data
    {
    }

    lemma LinksAreRepr()
      requires Fields()
      ensures links.Keys == repr
    {
    }

    /** The three assignments to parent fields in the middle. */
    method AdoptAll(sibling: Node?<D>, parent: Node<D>, child: Node<D>)
      requires Fields() && parent in repr && parent in links
      requires Known(links, sibling) && Known(links, links[parent].left) && Known(links, links[parent].right)
      modifies this`links, repr
      ensures parent in old(links) && Fields() && links == Adopted(old(links), sibling, parent, child)
    {
      if sibling != null {
        SetParent(sibling, child);
      }
      if parent.left != null {
        SetParent(parent.left, parent);
      }
      if parent.right != null {
        SetParent(parent.right, parent);
      }
    }

    /** `heap_node_swap` */
    method Swap(parent: Node<D>, child: Node<D>, ghost i: nat)
      requires Fields() && Tree(slots, links, min) && 2 <= i <= |slots|
      requires parent == slots[i / 2 - 1] && child == slots[i - 1] && parent in repr && child in repr
      modifies this`links, this`min, this`slots, repr
      ensures Fields() && Tree(slots, links, min)
      ensures slots == Swapped(old(slots), i) && SameData(old(links), links)
    {
      hide *;
      LinksAreRepr();
      SwapTree(slots, links, min, i);
      SwapReads(slots, links, min, i);
      var sibling := Exchange(parent, child);
      AdoptAll(sibling, parent, child);
      LinksAreRepr();
      var holder := Parent(child);
      Relink(holder, parent, child);
      Renumber(Swapped(slots, i));
    }

    /** The loop that walks up. */
    method SiftUp(node: Node<D>, lt: (D, D) -> bool, ghost j0: nat)
      requires Fields() && Tree(slots, links, min) && Strict(lt) && OrderedBut(slots, links, lt, j0)
      requires 1 <= j0 <= |slots| && slots[j0 - 1] == node && Elements(slots) <= repr
      modifies this`links, this`min, this`slots, repr
      ensures Fields() && Tree(slots, links, min) && Ordered(slots, links, lt)
      ensures |slots| == |old(slots)| && Elements(slots) == old(Elements(slots)) && SameData(old(links), links)
    {
      hide Fields, Tree, Ordered, OrderedBut, Elements, SameData, Strict, Swapped;
      ghost var j: nat := j0;
      ghost var m0 := links;
      SameDataRefl(m0);
      var up := Rises(node, lt, j);
      while up
        invariant Fields() && Tree(slots, links, min) && OrderedBut(slots, links, lt, j)
        invariant 1 <= j <= |slots| && slots[j - 1] == node && RisesAt(slots, links, lt, j) == up
        invariant |slots| == |old(slots)| && Elements(slots) == old(Elements(slots)) && SameData(m0, links)
        decreases j
      {
        SwappedElements(slots, j);
        SwapAt(slots, j, j / 2);
        ghost var s, m := slots, links;
        Climb(node, j);
        UpStep(s, m, links, lt, j);
        SameDataTrans(m0, m, links);
        j := j / 2;
        up := Rises(node, lt, j);
      }
      UpStop(slots, links, min, lt, j);
    }

    /** `heap_node_swap(heap, node->parent, node)` */
    method Climb(node: Node<D>, ghost j: nat)
      requires Fields() && Tree(slots, links, min) && 2 <= j <= |slots| && slots[j - 1] == node && Elements(slots) <= repr
      modifies this`links, this`min, this`slots, repr
      ensures Fields() && Tree(slots, links, min)
      ensures slots == Swapped(old(slots), j) && SameData(old(links), links)
    {
      LinkedAt(slots, links, j);
      assert slots[j / 2 - 1] in Elements(slots) && slots[j - 1] in Elements(slots);
      Swap(node.parent, node, j);
    }

    /** The test of the loop that goes up. */
    method Rises(node: Node<D>, lt: (D, D) -> bool, ghost j: nat) returns (up: bool)
      requires Fields() && Tree(slots, links, min) && 1 <= j <= |slots| && slots[j - 1] == node
      ensures up == RisesAt(slots, links, lt, j)
      ensures up ==> j >= 2 && node in links && slots[j / 2 - 1] in links && lt(links[node].data, links[slots[j / 2 - 1]].data)
    {
      LinkedAt(slots, links, j);
      if j >= 2 { LinkedAt(slots, links, j / 2); }
      up := node.parent != null && lt(node.data, node.parent.data);
    }

    /** The comparisons with the children. */
    method Smallest(node: Node<D>, lt: (D, D) -> bool, ghost j: nat) returns (smallest: Node<D>, ghost c: nat)
      requires Fields() && Tree(slots, links, min) && Strict(lt) && OrderedAround(slots, links, lt, j)
      requires 1 <= j <= |slots| && slots[j - 1] == node
      ensures smallest == node ==> OrderedBut(slots, links, lt, j)
      ensures smallest != node ==> 2 <= c <= |slots| && c / 2 == j && slots[c - 1] == smallest && LeastChild(slots, links, lt, j, c)
    {
      hide Tree, Linked, OrderedAround, OrderedBut, LeastChild;
      TreeLinked(slots, links, min);
      LinkedAt(slots, links, j);
      AllLinked(slots, links);
      smallest, c := node, j;
      if node.left != null && lt(node.left.data, smallest.data) {
        smallest, c := node.left, 2 * j;
      }
      if node.right != null && lt(node.right.data, smallest.data) {
        smallest, c := node.right, 2 * j + 1;
      }
      if smallest == node {
        DownEnd(slots, links, lt, j);
      } else {
        LeastOf(slots, links, lt, j, c);
      }
    }

    /** The loop that walks down. */
    method SiftDown(node: Node<D>, lt: (D, D) -> bool, ghost j0: nat) returns (ghost j: nat)
      requires Fields() && Tree(slots, links, min) && Strict(lt) && OrderedAround(slots, links, lt, j0)
      requires 1 <= j0 <= |slots| && slots[j0 - 1] == node && Elements(slots) <= repr
      modifies this`links, this`min, this`slots, repr
      ensures Fields() && Tree(slots, links, min)
      ensures OrderedBut(slots, links, lt, j) && 1 <= j <= |slots| && slots[j - 1] == node
      ensures |slots| == |old(slots)| && Elements(slots) == old(Elements(slots)) && SameData(old(links), links)
    {
      hide Fields, Tree, OrderedAround, OrderedBut, SameData, LeastChild, Strict;
      ghost var m0 := links;
      SameDataRefl(links);
      j := j0;
      while true
        invariant Fields() && Tree(slots, links, min) && OrderedAround(slots, links, lt, j)
        invariant 1 <= j <= |slots| && slots[j - 1] == node
        invariant |slots| == |old(slots)| && Elements(slots) == old(Elements(slots)) && SameData(m0, links)
        decreases |slots| - j
      {
        var smallest;
        ghost var c;
        smallest, c := Smallest(node, lt, j);
        if smallest == node {
          break;
        }
        SwappedElements(slots, c);
        ghost var s, m := slots, links;
        Swap(node, smallest, c);
        DownStep(s, m, links, lt, j, c);
        SameDataTrans(m0, m, links);
        j := c;
      }
    }

    /** `*p` */
    method Read(p: Place<D>) returns (v: Node?<D>)
      requires Fields() && (p.Min? || p.n in repr)
      ensures (p.Min? || p.n in links) && v == Load(links, min, p)
    {
      match p
      case Min => v := min;
      case LeftOf(n) => v := n.left;
      case RightOf(n) => v := n.right;
    }

    /** `*p = v` */
    method Write(p: Place<D>, v: Node?<D>)
      requires Fields() && (p.Min? || p.n in repr)
      modifies this`links, this`min, repr
      ensures Fields() && links == Store(old(links), p, v) && min == if p.Min? then v else old(min)
    {
      match p
      case Min => min := v;
      case LeftOf(n) => SetLeft(n, v);
      case RightOf(n) => SetRight(n, v);
    }

    /** The walk along a path, to the place of the pointer to slot `target` and the one before. */
    method Locate(target: u32) returns (parent: Place<D>, child: Place<D>)
      requires Fields() && Tree(slots, links, min) && 1 <= target <= |slots| + 1
      ensures IsPlace(slots, target, child)
      ensures if target == 1 then parent.Min? else IsPlace(slots, target / 2, parent)
    {
      var path, k := PathTo(target);
      parent, child := Min, Min;
      ghost var pos: nat := 1;
      while k > 0
        invariant 1 <= pos && IsPlace(slots, pos, child) && Follow(pos, path, k) == target
        invariant if pos == 1 then parent.Min? else IsPlace(slots, pos / 2, parent)
        decreases k
      {
        FollowGrows(pos, path, k);
        PlaceLoads(slots, links, min, pos, child);
        PlaceBelow(slots, pos, path % 2 == 1);
        parent := child;
        var n := Read(child);
        child := if path % 2 == 1 then RightOf(n) else LeftOf(n);
        pos := 2 * pos + path % 2;
        path, k := path / 2, k - 1;
      }
    }

    /** A node that joins the snapshot, with its fields. */
    method Join(n: Node<D>, parent: Node?<D>)
      requires Fields() && n !in repr
      modifies this`links, this`repr, n
      ensures Fields() && links == old(links)[n := Link(null, null, parent, n.data)] && repr == old(repr) + {n}
      ensures n.data == old(n.data)
    {
      n.left, n.right, n.parent := null, null, parent;
      links := links[n := Link(null, null, parent, n.data)];
      repr := repr + {n};
    }

    /** `newnode->parent = *parent; *child = newnode;` */
    method Attach(newnode: Node<D>, holder: Node?<D>, child: Place<D>)
      requires Fields() && newnode !in repr && (child.Min? || child.n in repr)
      modifies this`links, this`min, this`repr, repr, newnode
      ensures Fields() && repr == old(repr) + {newnode}
      ensures links == Store(old(links)[newnode := Link(null, null, holder, old(newnode.data))], child, newnode)
      ensures min == if child.Min? then newnode else old(min)
    {
      hide Fields, Store;
      Join(newnode, holder);
      Write(child, newnode);
    }

    /** The first half of `heap_insert`: the node in its place in the bottom row. */
    method Hang(newnode: Node<D>, lt: (D, D) -> bool)
      requires Fields() && Tree(slots, links, min) && Ordered(slots, links, lt) && nelts == |slots| < UINT_MAX
      requires repr == Elements(slots) && newnode !in repr
      modifies this, repr, newnode
      ensures Fields() && Tree(slots, links, min) && nelts == |slots| && repr == Elements(slots)
      ensures slots == old(slots) + [newnode] && OrderedBut(slots, links, lt, |slots|) && repr == old(repr) + {newnode}
      ensures KeepsData(old(links), links) && newnode in links && links[newnode].data == old(newnode.data)
    {
      hide Fields, Tree, Ordered, OrderedBut, KeepsData, IsPlace, Load, Store, At, Elements;
      var parent, child := Locate(1 + nelts);
      ghost var s, s', m, root := slots, slots + [newnode], links, min;
      AppendElements(s, newnode);
      NotElement(s, newnode);
      HangPlaces(s, m, root, parent, child);
      LinksAreRepr();
      var holder := Read(parent);
      InsertTree(s, m, root, newnode, holder, child, newnode.data);
      InsertData(m, newnode, Link(null, null, holder, newnode.data), child);
      Attach(newnode, holder, child);
      LinkedTree(s, m, root);
      InsertOrder(s, m, links, lt, newnode);
      assert s' == s + [newnode] && |s'| == |s| + 1;
      nelts := nelts + 1;
      Renumber(s');
    }

    /** `heap_insert` */
    method Insert(newnode: Node<D>, lt: (D, D) -> bool)
      requires Valid(lt) && Strict(lt) && newnode !in repr && nelts < UINT_MAX
      modifies this, repr, newnode
      ensures Valid(lt) && repr == old(repr) + {newnode} && nelts == old(nelts) + 1
      ensures forall n :: n in repr ==> n.data == old(n.data)
    {
      hide Tree, Ordered, OrderedBut, Elements, Strict;
      Hang(newnode, lt);
      SiftUp(newnode, lt, |slots|);
    }

    /** Unlinking the last node: it stays in the snapshot, but in no slot. */
    method Unlink(lt: (D, D) -> bool) returns (child: Node<D>)
      requires Fields() && Tree(slots, links, min) && Ordered(slots, links, lt) && nelts == |slots| > 0
      requires repr == Elements(slots)
      modifies this`links, this`min, this`slots, this`nelts, repr
      ensures Fields() && Tree(slots, links, min) && Ordered(slots, links, lt) && nelts == |slots|
      ensures slots == old(slots)[..|old(slots)| - 1] && child == old(slots)[|old(slots)| - 1]
      ensures child in repr && child !in slots && Elements(slots) == repr - {child} && SameData(old(links), links)
    {
      hide Fields, Tree, Ordered, IsPlace, Load, Store, Elements;
      var parent, max := Locate(nelts);
      ghost var s, m, root := slots, links, min;
      LinkedTree(s, m, root);
      PlaceLoads(s, m, root, |s|, max);
      UnlinkTree(s, m, root, max);
      UnlinkOrder(s, m, Store(m, max, null), lt);
      UnlinkElements(s);
      LinksAreRepr();
      nelts := nelts - 1;
      child := Read(max);
      Write(max, null);
      Renumber(s[..|s| - 1]);
    }

    /** The pointers of the neighbours, once `child` has the links of `node`. */
    method ReplaceRest(node: Node<D>, child: Node<D>, ghost m: Links<D>)
      requires Fields() && node in m && child in m && node != child && links == m[child := m[node].(data := m[child].data)]
      requires var k := m[node];
        k.left != child && k.right != child && k.left != node && k.right != node &&
        Known(m, k.left) && Known(m, k.right) && Known(m, k.parent)
      modifies this`links, this`min, repr
      ensures Fields() && links == ReplaceLinks(m, node, child)
      ensures min == if m[node].parent == null then child else old(min)
    {
      hide Relinked;
      ReparentChildren(child);
      Relink(node.parent, node, child);
    }

    /** The parent fields of the children. */
    method ReparentChildren(child: Node<D>)
      requires Fields() && child in links && links[child].left != child && links[child].right != child
      requires Known(links, links[child].left) && Known(links, links[child].right)
      modifies this`links, repr
      ensures Fields()
      ensures var m := old(links);
        links == WithParent(WithParent(m, m[child].left, child), m[child].right, child)
    {
      if child.left != null {
        SetParent(child.left, child);
      }
      if child.right != null {
        SetParent(child.right, child);
      }
    }

    /** `child` takes the place of `node`. */
    method Replace(node: Node<D>, child: Node<D>, ghost j: nat)
      requires Fields() && Tree(slots, links, min) && 1 <= j <= |slots| && slots[j - 1] == node
      requires child in repr && child !in slots && Elements(slots) <= repr
      modifies this`links, this`min, this`slots, repr
      ensures Fields() && Tree(slots, links, min) && slots == old(slots)[j - 1 := child] && SameData(old(links), links)
    {
      hide Tree, Elements, Store, SameData, Relinked, WithParent;
      ghost var s, m, root := slots, links, min;
      LinkedTree(s, m, root);
      LinksAreRepr();
      ReplaceApart(s, m, j, child);
      ReplaceTree(s, m, root, j, child);
      Assign(child, node.left, node.right, node.parent);
      ReplaceRest(node, child, m);
      Renumber(s[j - 1 := child]);
    }

    /** A node that is in no slot leaves the snapshot. */
    ghost method Drop(n: Node<D>)
      requires Fields()
      modifies this`links, this`repr
      ensures Fields() && links == old(links) - {n} && repr == old(repr) - {n}
    {
      links, repr := links - {n}, repr - {n};
    }

    lemma SlotOf(n: Node<D>) returns (j: nat)
      requires n in Elements(slots)
      ensures 1 <= j <= |slots| && slots[j - 1] == n
    {
      var k :| 0 <= k < |slots| && slots[k] == n;
      j := k + 1;
    }

    /** `heap_remove` when the heap is not empty. */
    method RemoveNode(node: Node<D>, lt: (D, D) -> bool)
      requires Fields() && Tree(slots, links, min) && Ordered(slots, links, lt) && nelts == |slots| > 0
      requires repr == Elements(slots) && Strict(lt) && node in repr
      modifies this, repr
      ensures Fields() && Tree(slots, links, min) && Ordered(slots, links, lt) && nelts == |slots|
      ensures repr == Elements(slots) == old(repr) - {node} && |slots| == |old(slots)| - 1
      ensures links.Keys == old(links).Keys - {node} && KeepsData(links, old(links)) && node.data == old(node.data)
    {
      hide Fields, Tree, Ordered, OrderedBut, OrderedAround, Elements, Strict, SameData, KeepsData;
      ghost var m0 := links;
      DataOf(node);
      ghost var j := SlotOf(node);
      var child := Unlink(lt);
      ghost var m1, s1 := links, slots;
      LinkedTree(s1, m1, min);
      if child == node {
        if child == min {
          assert false;  // unlinking the only node has emptied the root pointer
        }
      } else {
        Refill(node, child, lt, j);
        SameDataTrans(m0, m1, links);
      }
      NotElement(slots, node);
      DropTree(slots, links, min, lt, node);
      DropData(m0, links, node);
      DataOf(node);
      SameDataAt(m0, links, node);
      Drop(node);
    }

    /** The node that was last takes the place of `node` and moves to where it belongs. */
    method Refill(node: Node<D>, child: Node<D>, lt: (D, D) -> bool, ghost j: nat)
      requires Fields() && Tree(slots, links, min) && Ordered(slots, links, lt) && Strict(lt)
      requires 1 <= j <= |slots| && slots[j - 1] == node && child in repr && child !in slots && Elements(slots) == repr - {child}
      modifies this`links, this`min, this`slots, repr
      ensures Fields() && Tree(slots, links, min) && Ordered(slots, links, lt) && SameData(old(links), links)
      ensures |slots| == |old(slots)| && Elements(slots) == repr - {node}
    {
      hide Fields, Tree, Ordered, OrderedBut, OrderedAround, Elements, Strict, SameData;
      ghost var m0, s0 := links, slots;
      LinkedTree(s0, m0, min);
      LinksAreRepr();
      AllLinked(s0, m0);
      ReplaceElements(s0, j, child);
      Replace(node, child, j);
      Replaced(s0, m0, links, lt, j, child);
      ghost var m1 := links;
      ghost var i := SiftDown(child, lt, j);
      SameDataTrans(m0, m1, links);
      m1 := links;
      SiftUp(child, lt, i);
      SameDataTrans(m0, m1, links);
    }

    /** `heap_remove` */
    method Remove(node: Node?<D>, lt: (D, D) -> bool)
      requires Valid(lt) && Strict(lt) && (nelts > 0 ==> node != null && node in repr)
      modifies this, repr
      ensures Valid(lt) && repr == old(repr) - {node} && (old(nelts) > 0 ==> nelts == old(nelts) - 1)
      ensures forall n :: n in old(repr) ==> n.data == old(n.data)
    {
      hide Tree, Ordered, Strict;
      if nelts == 0 {
        return;
      }
      RemoveNode(node, lt);
    }

    /** `heap_dequeue` */
    method Dequeue(lt: (D, D) -> bool)
      requires Valid(lt) && Strict(lt)
      modifies this, repr
      ensures Valid(lt) && repr == old(repr) - {old(min)} && (old(nelts) > 0 ==> nelts == old(nelts) - 1)
      ensures forall n :: n in old(repr) ==> n.data == old(n.data)
    {
      MinIsLeast(lt);
      Remove(min, lt);
    }

    /** `heap_min` is null for an empty heap, and otherwise a least node. */
    lemma MinIsLeast(lt: (D, D) -> bool)
      requires Valid(lt) && Strict(lt)
      ensures min == null <==> repr == {}
      ensures min == null <==> nelts == 0
      ensures min != null ==> min in repr && forall n :: n in repr ==> !lt(n.data, min.data)
    {
      if slots != [] {
        assert slots[0] in repr;
        forall n | n in repr ensures !lt(n.data, min.data) {
          var i := SlotOf(n);
          RootLeast(slots, links, lt, i);
        }
      }
    }
  }
}
