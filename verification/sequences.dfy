/** Sequences without repetitions, as the queues of the library are. */
module Sequences {
  predicate Distinct<T(==)>(q: seq<T>) {
    forall i, j :: 0 <= i < j < |q| ==> q[i] != q[j]
  }

  /** The sequence without the first occurrence of `x`. */
  function Without<T(==)>(q: seq<T>, x: T): seq<T> {
    if q == [] then [] else if q[0] == x then q[1..] else [q[0]] + Without(q[1..], x)
  }

  lemma TailOf<T>(q: seq<T>)
    requires q != [] && Distinct(q)
    ensures Distinct(q[1..]) && forall x :: x in q[1..] <==> x in q && x != q[0]
  {
    forall x | x in q && x != q[0] ensures x in q[1..] {
      var k :| 0 <= k < |q| && q[k] == x;
      assert q[1..][k - 1] == x;
    }
  }

  lemma AppendOf<T>(q: seq<T>, x: T)
    requires Distinct(q) && x !in q
    ensures Distinct(q + [x]) && forall y :: y in q + [x] <==> y in q || y == x
  {
  }

  lemma {:induction false} WithoutOf<T>(q: seq<T>, x: T)
    requires Distinct(q)
    ensures Distinct(Without(q, x)) && forall y :: y in Without(q, x) <==> y in q && y != x
    ensures x !in q ==> Without(q, x) == q
    ensures q != [] && q[0] != x ==> Without(q, x) != [] && Without(q, x)[0] == q[0]
  {
    if q != [] {
      TailOf(q);
      if q[0] != x {
        WithoutOf(q[1..], x);
        var w := Without(q[1..], x);
        assert q[0] !in w && q == [q[0]] + q[1..];
        forall i, j | 0 <= i < j < |w| + 1 ensures ([q[0]] + w)[i] != ([q[0]] + w)[j] {
          assert w[j - 1] in w;
        }
      }
    }
  }

  lemma WithoutIn<T>(q: seq<T>, x: T)
    requires Distinct(q)
    ensures forall k :: 0 <= k < |Without(q, x)| ==> Without(q, x)[k] in q
  {
    WithoutOf(q, x);
    assert forall k :: 0 <= k < |Without(q, x)| ==> Without(q, x)[k] in Without(q, x);
  }

  lemma WithoutShrinks<T>(q: seq<T>, x: T)
    ensures Without(q, x) != [] ==> q != []
  {
  }
}
