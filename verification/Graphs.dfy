/** Reachability in a finite directed graph given by its set of edges. */
module Graphs {

  /** b can be reached from a by following exactly n edges. */
  ghost predicate ReachIn<T(!new)>(E: set<(T, T)>, a: T, b: T, n: nat)
    decreases n
  {
    if n == 0 then a == b
    else exists c :: (a, c) in E && ReachIn(E, c, b, n - 1)
  }

  /** b can be reached from a by following any number of edges, possibly none. */
  ghost predicate Reach<T(!new)>(E: set<(T, T)>, a: T, b: T) {
    exists n: nat :: ReachIn(E, a, b, n)
  }

  /** b can be reached from a by following at least one edge. */
  ghost predicate ReachPlus<T(!new)>(E: set<(T, T)>, a: T, b: T) {
    exists c :: (a, c) in E && Reach(E, c, b)
  }

  ghost predicate Mutual<T(!new)>(E: set<(T, T)>, a: T, b: T) {
    Reach(E, a, b) && Reach(E, b, a)
  }

  ghost predicate Closed<T(!new)>(E: set<(T, T)>, S: set<T>) {
    forall a, b | (a, b) in E && a in S :: b in S
  }

  ghost predicate Acyclic<T(!new)>(E: set<(T, T)>) {
    forall a :: !ReachPlus(E, a, a)
  }

  lemma ReachSelf<T(!new)>(E: set<(T, T)>, a: T)
    ensures Reach(E, a, a)
  {
    assert ReachIn(E, a, a, 0);
  }

  lemma {:induction false} ReachInTrans<T(!new)>(E: set<(T, T)>, a: T, b: T, c: T, n: nat, m: nat)
    requires ReachIn(E, a, b, n) && ReachIn(E, b, c, m)
    ensures ReachIn(E, a, c, n + m)
    decreases n
  {
    if n > 0 {
      var d :| (a, d) in E && ReachIn(E, d, b, n - 1);
      ReachInTrans(E, d, b, c, n - 1, m);
    }
  }

  lemma ReachTrans<T(!new)>(E: set<(T, T)>, a: T, b: T, c: T)
    requires Reach(E, a, b) && Reach(E, b, c)
    ensures Reach(E, a, c)
  {
    var n: nat :| ReachIn(E, a, b, n);
    var m: nat :| ReachIn(E, b, c, m);
    ReachInTrans(E, a, b, c, n, m);
  }

  lemma ReachEdge<T(!new)>(E: set<(T, T)>, a: T, b: T)
    requires (a, b) in E
    ensures Reach(E, a, b)
  {
    assert ReachIn(E, b, b, 0);
    assert ReachIn(E, a, b, 1);
  }

  /** Reaching a node at the end of an edge. */
  lemma ReachThenEdge<T(!new)>(E: set<(T, T)>, a: T, b: T, c: T)
    requires Reach(E, a, b) && (b, c) in E
    ensures Reach(E, a, c)
  {
    ReachEdge(E, b, c);
    ReachTrans(E, a, b, c);
  }

  lemma {:induction false} ClosedReachIn<T(!new)>(E: set<(T, T)>, S: set<T>, a: T, b: T, n: nat)
    requires Closed(E, S) && a in S && ReachIn(E, a, b, n)
    ensures b in S
    decreases n
  {
    if n > 0 {
      var c :| (a, c) in E && ReachIn(E, c, b, n - 1);
      ClosedReachIn(E, S, c, b, n - 1);
    }
  }

  /** Nothing outside a set that is closed under the edges is reachable from inside it. */
  lemma ClosedReach<T(!new)>(E: set<(T, T)>, S: set<T>, a: T, b: T)
    requires Closed(E, S) && a in S && Reach(E, a, b)
    ensures b in S
  {
    var n: nat :| ReachIn(E, a, b, n);
    ClosedReachIn(E, S, a, b, n);
  }

  lemma {:induction false} RankedReachIn<T(!new)>(E: set<(T, T)>, rank: T -> int, a: T, b: T, n: nat)
    requires forall u, v | (u, v) in E :: rank(u) < rank(v)
    requires ReachIn(E, a, b, n)
    ensures rank(a) + n <= rank(b)
    decreases n
  {
    if n > 0 {
      var c :| (a, c) in E && ReachIn(E, c, b, n - 1);
      RankedReachIn(E, rank, c, b, n - 1);
    }
  }

  /** A graph whose edges all raise some rank has no cycle. */
  lemma RankedIsAcyclic<T(!new)>(E: set<(T, T)>, rank: T -> int)
    requires forall u, v | (u, v) in E :: rank(u) < rank(v)
    ensures Acyclic(E)
  {
    forall a ensures !ReachPlus(E, a, a) {
      if ReachPlus(E, a, a) {
        var c :| (a, c) in E && Reach(E, c, a);
        var n: nat :| ReachIn(E, c, a, n);
        RankedReachIn(E, rank, c, a, n);
      }
    }
  }

  lemma {:induction false} ReachInMore<T(!new)>(E: set<(T, T)>, F: set<(T, T)>, a: T, b: T, n: nat)
    requires E <= F && ReachIn(E, a, b, n)
    ensures ReachIn(F, a, b, n)
    decreases n
  {
    if n > 0 {
      var c :| (a, c) in E && ReachIn(E, c, b, n - 1);
      ReachInMore(E, F, c, b, n - 1);
    }
  }

  lemma ReachMore<T(!new)>(E: set<(T, T)>, F: set<(T, T)>, a: T, b: T)
    requires E <= F && Reach(E, a, b)
    ensures Reach(F, a, b)
  {
    var n: nat :| ReachIn(E, a, b, n);
    ReachInMore(E, F, a, b, n);
  }

  lemma ReachPlusMore<T(!new)>(E: set<(T, T)>, F: set<(T, T)>, a: T)
    requires E <= F && ReachPlus(E, a, a)
    ensures ReachPlus(F, a, a)
  {
    var c :| (a, c) in E && Reach(E, c, a);
    ReachMore(E, F, c, a);
  }

  lemma FewerEdgesAcyclic<T(!new)>(E: set<(T, T)>, F: set<(T, T)>)
    requires E <= F && Acyclic(F)
    ensures Acyclic(E)
  {
    forall a ensures !ReachPlus(E, a, a) {
      if ReachPlus(E, a, a) {
        ReachPlusMore(E, F, a);
      }
    }
  }
}
