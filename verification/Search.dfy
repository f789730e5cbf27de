/** Worklist search of a directed graph, for the several places that walk a hierarchy breadth first. */
module Search {
  import opened Graphs
  import opened Sets

  /** What can be seen or queued in a search from the start. */
  ghost function Universe<T(!new)>(E: set<(T, T)>, start: T): set<T> {
    {start} + set e | e in E :: e.1
  }

  ghost predicate AllReached<T(!new)>(E: set<(T, T)>, start: T, q: seq<T>) {
    forall k | k in q :: Reach(E, start, k)
  }

  ghost predicate AllSeenReached<T(!new)>(E: set<(T, T)>, start: T, seen: set<T>) {
    forall k | k in seen :: Reach(E, start, k)
  }

  /** Whatever follows a node that was seen is seen too, or queued. */
  ghost predicate Pending<T(!new)>(E: set<(T, T)>, seen: set<T>, q: seq<T>) {
    forall k, v | k in seen && (k, v) in E :: v in seen || v in q
  }

  /** The state of a search: nothing is lost and nothing is made up. */
  ghost predicate Searching<T(!new)>(E: set<(T, T)>, start: T, seen: set<T>, q: seq<T>) {
    AllReached(E, start, q) && AllSeenReached(E, start, seen) && Pending(E, seen, q) && (start in seen || start in q)
  }

  /** How much is left to be seen. */
  ghost function Left<T(!new)>(E: set<(T, T)>, start: T, seen: set<T>): nat {
    |Universe(E, start) - seen|
  }

  lemma Starts<T(!new)>(E: set<(T, T)>, start: T)
    ensures Searching(E, start, {}, [start])
  {
    ReachSelf(E, start);
  }

  lemma Reached<T(!new)>(E: set<(T, T)>, start: T, seen: set<T>, q: seq<T>)
    requires Searching(E, start, seen, q) && q != []
    ensures Reach(E, start, q[0])
  {
    assert q[0] in q;
  }

  /** The first of the queue was seen already, and is dropped. */
  lemma Pops<T(!new)>(E: set<(T, T)>, start: T, seen: set<T>, q: seq<T>)
    requires Searching(E, start, seen, q) && q != [] && q[0] in seen
    ensures Searching(E, start, seen, q[1..])
  {
    assert q == [q[0]] + q[1..];
  }

  /** The first of the queue is seen, and what follows it and was not seen is queued. */
  lemma Expands<T(!new)>(E: set<(T, T)>, start: T, seen: set<T>, q: seq<T>, next: seq<T>)
    requires Searching(E, start, seen, q) && q != [] && q[0] !in seen
    requires forall k | k in next :: (q[0], k) in E
    requires forall v | (q[0], v) in E :: v in seen + {q[0]} || v in next
    ensures Searching(E, start, seen + {q[0]}, q[1..] + next)
    ensures Left(E, start, seen + {q[0]}) < Left(E, start, seen)
  {
    var cur := q[0];
    assert q == [cur] + q[1..];
    forall k | k in next ensures Reach(E, start, k) {
      ReachThenEdge(E, start, cur, k);
    }
    InUniverse(E, start, cur);
    assert cur in Universe(E, start) - seen;
    StrictlySmaller(Universe(E, start) - (seen + {cur}), Universe(E, start) - seen);
  }

  lemma InUniverse<T(!new)>(E: set<(T, T)>, start: T, k: T)
    requires Reach(E, start, k)
    ensures k in Universe(E, start)
  {
    forall a, b | (a, b) in E && a in Universe(E, start) ensures b in Universe(E, start) {
      assert (a, b).1 == b;
    }
    ClosedReach(E, Universe(E, start), start, k);
  }

  /** With an empty queue exactly what can be reached has been seen. */
  lemma Ends<T(!new)>(E: set<(T, T)>, start: T, seen: set<T>)
    requires Searching(E, start, seen, [])
    ensures forall k :: k in seen <==> Reach(E, start, k)
  {
    forall k | Reach(E, start, k) ensures k in seen {
      ClosedReach(E, seen, start, k);
    }
  }
}
