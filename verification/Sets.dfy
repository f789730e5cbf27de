/** Finite sets, and sequences that list them. */
module Sets {

  /** No element occurs twice. */
  predicate Distinct<T(==)>(q: seq<T>) {
    forall i, j | 0 <= i < j < |q| :: q[i] != q[j]
  }

  lemma SubsetIsSmaller<T>(a: set<T>, b: set<T>)
    requires a <= b
    ensures |a| <= |b| && |b - a| == |b| - |a|
  {
    assert b == a + (b - a);
  }

  lemma StrictlySmaller<T>(a: set<T>, b: set<T>)
    requires a < b
    ensures |a| < |b|
  {
    var x :| x in b && x !in a;
    SubsetIsSmaller(a, b - {x});
  }

  /** Every finite set can be listed. */
  lemma {:induction false} Enumerated<T>(S: set<T>) returns (q: seq<T>)
    ensures Distinct(q) && forall x :: x in q <==> x in S
    decreases S
  {
    if S == {} {
      q := [];
    } else {
      var x :| x in S;
      q := Enumerated(S - {x});
      q := q + [x];
    }
  }
}
