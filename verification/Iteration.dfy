/** Iteration over maps and sets, whose order is arbitrary. */
module Iteration {
  import opened Sets

  /** Some element; callers may not rely on which. */
  method Any<T>(s: set<T>) returns (x: T)
    requires s != {}
    ensures x in s
  {
    x :| x in s;
  }

  /** The elements in some order, each once. */
  method Listing<T(==)>(s: set<T>) returns (q: seq<T>)
    ensures s == set x | x in q
    ensures Distinct(q)
  {
    q := [];
    var todo := s;
    ghost var done: set<T> := {};
    while todo != {}
      invariant done + todo == s && done !! todo
      invariant forall x :: x in q <==> x in done
      invariant Distinct(q)
      decreases todo
    {
      var x := Any(todo);
      todo := todo - {x};
      done := done + {x};
      q := q + [x];
    }
    assert done == s;
  }
}
