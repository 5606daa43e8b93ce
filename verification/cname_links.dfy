/**
  When the CNAME links that `src/socket.c` puts into its cache lead back to a name.
 */
module CnameLinks {
  import opened Bytes
  import opened DnsMessage
  import opened Resolver

  /** From every name the links lead to an end. */
  ghost predicate Acyclic(c: map<Name, Name>) {
    forall d :: Terminates(c, d)
  }

  /** The links lead from `t` to `d`. */
  ghost predicate Leads(c: map<Name, Name>, t: Name, d: Name) {
    exists k: nat :: At(c, t, k) == Some(d)
  }

  // -- One more link ----------------------------------------------------------------------------

  lemma {:induction false} FirstAt(c: map<Name, Name>, t: Name, d: Name, k: nat) returns (j: nat)
    requires At(c, t, k) == Some(d)
    ensures j <= k && At(c, t, j) == Some(d) && forall i: nat :: i < j ==> At(c, t, i) != Some(d)
  {
    j := 0;
    while At(c, t, j) != Some(d)
      invariant j <= k && forall i: nat :: i < j ==> At(c, t, i) != Some(d)
      decreases k - j
    {
      j := j + 1;
    }
  }

  /** Up to the first time at `d` a link from `d` makes no difference. */
  lemma {:induction false} AtUnchanged(c: map<Name, Name>, d: Name, t: Name, n: Name, k: nat)
    requires d !in c && forall i: nat :: i < k ==> At(c, n, i) != Some(d)
    ensures At(c[d := t], n, k) == At(c, n, k)
  {
    if k > 0 { AtUnchanged(c, d, t, n, k - 1); }
  }

  lemma {:induction false} AtAfter(c: map<Name, Name>, n: Name, j: nat, d: Name, k: nat)
    requires At(c, n, j) == Some(d)
    ensures At(c, n, j + k) == At(c, d, k)
  {
    if k > 0 { AtAfter(c, n, j, d, k - 1); }
  }

  /** The links end from `n` exactly if some number of them leads nowhere. */
  lemma EndsSomewhere(c: map<Name, Name>, n: Name)
    ensures Terminates(c, n) <==> exists k: nat :: At(c, n, k) == None
  {
    if Terminates(c, n) {
      var names := ChainOf(c, n);
      AtChain(c, n, names, |names|);
    }
    if k: nat :| At(c, n, k) == None {
      var j := FirstNone(c, n, k);
      var names := ChainUpTo(c, n, j);
      assert IsChain(c, n, names);
    }
  }

  lemma LinkEnds(c: map<Name, Name>, d: Name, t: Name, n: Name)
    requires d !in c && Acyclic(c) && !Leads(c, t, d)
    ensures Terminates(c[d := t], n)
  {
    hide Acyclic, Terminates;
    AcyclicAt(c, n);
    AcyclicAt(c, t);
    EndsSomewhere(c, n);
    EndsSomewhere(c, t);
    EndsSomewhere(c[d := t], n);
    var a: nat :| At(c, n, a) == None;
    var b: nat :| At(c, t, b) == None;
    AtUnchanged(c, d, t, t, b);
    if k: nat :| At(c, n, k) == Some(d) {
      var j := FirstAt(c, n, d, k);
      AtUnchanged(c, d, t, n, j);
      AtAfter(c[d := t], n, j, d, 1 + b);
      assert At(c[d := t], d, 0) == Some(d) && At(c[d := t], d, 1) == Some(t);
      AtAfter(c[d := t], d, 1, t, b);
      assert At(c[d := t], n, j + (1 + b)) == None;
    } else {
      AtUnchanged(c, d, t, n, a);
    }
  }

  lemma AcyclicAt(c: map<Name, Name>, n: Name)
    requires Acyclic(c)
    ensures Terminates(c, n)
  {
  }

  /** A map with fewer links has no more cycles. */
  lemma {:induction false} FewerLinks(c: map<Name, Name>, c': map<Name, Name>, n: Name, k: nat)
    requires (forall x :: x in c ==> x in c' && c'[x] == c[x]) && At(c, n, k).Some?
    ensures At(c', n, k) == At(c, n, k)
  {
    if k > 0 { FewerLinks(c, c', n, k - 1); }
  }

  lemma {:induction false} FewerNone(c: map<Name, Name>, c': map<Name, Name>, n: Name, k: nat)
    requires (forall x :: x in c ==> x in c' && c'[x] == c[x]) && At(c', n, k) == None
    ensures At(c, n, k) == None
  {
    if k > 0 && At(c, n, k - 1).Some? {
      FewerLinks(c, c', n, k - 1);
    }
  }

  lemma FewerEnds(c: map<Name, Name>, c': map<Name, Name>, n: Name)
    requires (forall x :: x in c ==> x in c' && c'[x] == c[x]) && Terminates(c', n)
    ensures Terminates(c, n)
  {
    hide Terminates;
    EndsSomewhere(c', n);
    EndsSomewhere(c, n);
    var k: nat :| At(c', n, k) == None;
    FewerNone(c, c', n, k);
  }

  lemma FewerAcyclic(c: map<Name, Name>, c': map<Name, Name>)
    requires (forall x :: x in c ==> x in c' && c'[x] == c[x]) && Acyclic(c')
    ensures Acyclic(c)
  {
    forall n ensures Terminates(c, n) { FewerEnds(c, c', n); }
  }

  lemma LinkBack(c: map<Name, Name>, d: Name, t: Name)
    requires d !in c && Leads(c, t, d)
    ensures !Terminates(c[d := t], d)
  {
    var k: nat :| At(c, t, k) == Some(d);
    var j := FirstAt(c, t, d, k);
    var c' := c[d := t];
    AtUnchanged(c, d, t, t, j);
    assert At(c', d, 0) == Some(d) && At(c', d, 1) == Some(t);
    AtAfter(c', d, 1, t, j);
    assert At(c', d, 0) == At(c', d, 1 + j) && Cyclic(c', d);
    TerminatesIff(c', d);
  }

  /** A new link keeps the links acyclic exactly if its target does not lead back to its owner. */
  lemma LinkAcyclic(c: map<Name, Name>, d: Name, t: Name)
    requires d !in c
    ensures Acyclic(c[d := t]) <==> Acyclic(c) && !Leads(c, t, d)
  {
    if Acyclic(c[d := t]) {
      FewerAcyclic(c, c[d := t]);
      if Leads(c, t, d) { LinkBack(c, d, t); }
    }
    if Acyclic(c) && !Leads(c, t, d) {
      var c' := c[d := t];
      forall n ensures Terminates(c', n) { LinkEnds(c, d, t, n); }
    }
  }

  // -- The links of a reply ---------------------------------------------------------------------

  /** All links of a reply, the last one of each owner. */
  function Links(rs: seq<Record>): map<Name, Name> {
    if rs == [] then map[] else
    var r, m := rs[|rs| - 1], Links(rs[..|rs| - 1]);
    if r.data.Cname? then m[r.name := r.data.name] else m
  }

  /**
    From the last record to the first, the links of owners that have none yet are added to `c`, and no
    target leads back to its owner.
   */
  ghost predicate Fits(c: map<Name, Name>, rs: seq<Record>)
    decreases |rs|
  {
    if rs == [] then true else
    var r, init := rs[|rs| - 1], rs[..|rs| - 1];
    if r.data.Cname? && r.name !in c then !Leads(c, r.data.name, r.name) && Fits(c[r.name := r.data.name], init)
    else Fits(c, init)
  }

  ghost function Filled(c: map<Name, Name>, rs: seq<Record>): map<Name, Name>
    decreases |rs|
  {
    if rs == [] then c else
    var r, init := rs[|rs| - 1], rs[..|rs| - 1];
    Filled(if r.data.Cname? && r.name !in c then c[r.name := r.data.name] else c, init)
  }

  lemma {:induction false} FilledIs(c: map<Name, Name>, rs: seq<Record>)
    ensures Filled(c, rs) == Links(rs) + c
    decreases |rs|
  {
    if rs != [] {
      var r, init := rs[|rs| - 1], rs[..|rs| - 1];
      FilledIs(if r.data.Cname? && r.name !in c then c[r.name := r.data.name] else c, init);
      if r.data.Cname? {
        assert Links(init)[r.name := r.data.name] + c == Links(init) + (if r.name !in c then c[r.name := r.data.name] else c);
      }
    }
  }

  lemma {:induction false} FitsAcyclic(c: map<Name, Name>, rs: seq<Record>)
    ensures Acyclic(Filled(c, rs)) <==> Acyclic(c) && Fits(c, rs)
    decreases |rs|
  {
    hide Acyclic, Leads;
    if rs != [] {
      var r, init := rs[|rs| - 1], rs[..|rs| - 1];
      if r.data.Cname? && r.name !in c {
        FitsAcyclic(c[r.name := r.data.name], init);
        LinkAcyclic(c, r.name, r.data.name);
      } else {
        FitsAcyclic(c, init);
      }
    }
  }

  /** The links of the cache that a reply leaves alone are acyclic, and those of the reply can be added. */
  ghost predicate KeepsAcyclic(c: map<Name, Name>, rs: seq<Record>) {
    Acyclic(c - Links(rs).Keys) && Fits(c - Links(rs).Keys, rs)
  }

  lemma AddedAcyclic(c: map<Name, Name>, rs: seq<Record>)
    ensures Acyclic(c + Links(rs)) <==> KeepsAcyclic(c, rs)
  {
    hide Acyclic, Fits;
    FilledIs(c - Links(rs).Keys, rs);
    assert Links(rs) + (c - Links(rs).Keys) == c + Links(rs);
    FitsAcyclic(c - Links(rs).Keys, rs);
  }
}
