/** The order in which transitive super-properties are found (pkg/reasoning/predicate_entailment.go). */
module NearestFirst {
  import opened Claims
  import opened Graphs
  import opened Options
  import opened Registry
  import opened Search
  import opened Entailment

  /** a can be reached from the start in no more steps than b. */
  ghost predicate NoFurther(E: set<(Pred, Pred)>, start: Pred, a: Pred, b: Pred) {
    forall n: nat | ReachIn(E, start, b, n) :: exists m: nat :: m <= n && ReachIn(E, start, a, m)
  }

  ghost predicate Ordered(E: set<(Pred, Pred)>, start: Pred, q: seq<Pred>) {
    forall i, j | 0 <= i < j < |q| :: NoFurther(E, start, q[i], q[j])
  }

  /** The search stands between two distances: the first part of the queue is d steps away and the second d + 1, all that
      is nearer has been seen, and all that is d steps away has been seen or is in the first part. */
  ghost predicate Layered(E: set<(Pred, Pred)>, start: Pred, seen: set<Pred>, near: seq<Pred>, far: seq<Pred>, d: nat) {
    && (forall a | a in near :: ReachIn(E, start, a, d))
    && (forall b | b in far :: ReachIn(E, start, b, d + 1))
    && (forall x, n: nat | n < d && ReachIn(E, start, x, n) :: x in seen)
    && (forall x | ReachIn(E, start, x, d) :: x in seen || x in near)
  }

  lemma {:induction false} EdgeAtEnd(E: set<(Pred, Pred)>, a: Pred, b: Pred, c: Pred, n: nat)
    requires ReachIn(E, a, b, n) && (b, c) in E
    ensures ReachIn(E, a, c, n + 1)
    decreases n
  {
    if n == 0 {
      assert ReachIn(E, c, c, 0);
    } else {
      var v :| (a, v) in E && ReachIn(E, v, b, n - 1);
      EdgeAtEnd(E, v, b, c, n - 1);
    }
  }

  lemma {:induction false} LastEdge(E: set<(Pred, Pred)>, a: Pred, c: Pred, n: nat) returns (b: Pred)
    requires ReachIn(E, a, c, n + 1)
    ensures ReachIn(E, a, b, n) && (b, c) in E
    decreases n
  {
    var v :| (a, v) in E && ReachIn(E, v, c, n);
    if n == 0 {
      b := a;
    } else {
      b := LastEdge(E, v, c, n - 1);
      assert ReachIn(E, a, b, n);
    }
  }

  lemma NextLayer(E: set<(Pred, Pred)>, start: Pred, seen: set<Pred>, far: seq<Pred>, d: nat)
    requires Layered(E, start, seen, [], far, d) && Searching(E, start, seen, far)
    ensures Layered(E, start, seen, far, [], d + 1)
  {
    forall x | ReachIn(E, start, x, d + 1) ensures x in seen || x in far {
      var y := LastEdge(E, start, x, d);
      assert y in seen && (y, x) in E;
    }
  }

  lemma Dropped(E: set<(Pred, Pred)>, start: Pred, seen: set<Pred>, near: seq<Pred>, far: seq<Pred>, d: nat)
    requires Layered(E, start, seen, near, far, d) && near != [] && near[0] in seen
    ensures Layered(E, start, seen, near[1..], far, d)
  {
    assert near == [near[0]] + near[1..];
  }

  lemma Expanded(E: set<(Pred, Pred)>, start: Pred, seen: set<Pred>, near: seq<Pred>, far: seq<Pred>, d: nat, next: seq<Pred>)
    requires Layered(E, start, seen, near, far, d) && near != [] && forall k | k in next :: (near[0], k) in E
    ensures Layered(E, start, seen + {near[0]}, near[1..], far + next, d)
  {
    assert near == [near[0]] + near[1..] && near[0] in near;
    forall k | k in next ensures ReachIn(E, start, k, d + 1) {
      EdgeAtEnd(E, start, near[0], k, d);
    }
  }

  /** What is found has not been seen, and is found in the order of distance. */
  lemma {:induction false} FoundInOrder(reg: Registry, start: Pred, seen: set<Pred>, near: seq<Pred>, far: seq<Pred>, d: nat)
    requires Searching(SuperEdges(reg), start, seen, near + far) && Layered(SuperEdges(reg), start, seen, near, far, d)
    ensures Ordered(SuperEdges(reg), start, Transitives(reg, Found(reg, start, seen, near + far)))
    ensures forall x | x in Transitives(reg, Found(reg, start, seen, near + far)) :: x !in seen
    decreases Left(SuperEdges(reg), start, seen), |near + far|, |far|
  {
    hide Searching, Left, SuperEdges, UnseenOf, Transitives, Found, IsTransitive, Layered, NoFurther;
    var E := SuperEdges(reg);
    if near == [] {
      assert near + far == far;
      if far == [] {
        FoundEnds(reg, start, seen);
      } else {
        NextLayer(E, start, seen, far, d);
        assert far + [] == far;
        FoundInOrder(reg, start, seen, far, [], d + 1);
      }
    } else {
      var queue := near + far;
      assert queue[0] == near[0] && queue[1..] == near[1..] + far;
      if near[0] in seen {
        FoundPops(reg, start, seen, queue);
        Dropped(E, start, seen, near, far, d);
        FoundInOrder(reg, start, seen, near[1..], far, d);
      } else {
        var next := UnseenOf(reg, SupersOf(reg, near[0]), seen + {near[0]});
        UnseenFollow(reg, near[0], seen + {near[0]});
        FoundExpands(reg, start, seen, queue);
        Expanded(E, start, seen, near, far, d, next);
        assert queue[1..] + next == near[1..] + (far + next);
        FoundInOrder(reg, start, seen + {near[0]}, near[1..], far + next, d);
        var rest := Transitives(reg, Found(reg, start, seen + {near[0]}, near[1..] + (far + next)));
        forall x | x in rest ensures NoFurther(E, start, near[0], x) {
          NotNearer(E, start, seen, near, far, d, x);
        }
        InFront(E, start, near[0], rest);
      }
    }
  }

  lemma NotNearer(E: set<(Pred, Pred)>, start: Pred, seen: set<Pred>, near: seq<Pred>, far: seq<Pred>, d: nat, x: Pred)
    requires Layered(E, start, seen, near, far, d) && near != [] && x !in seen
    ensures NoFurther(E, start, near[0], x)
  {
    assert near[0] in near;
  }

  lemma InFront(E: set<(Pred, Pred)>, start: Pred, first: Pred, rest: seq<Pred>)
    requires Ordered(E, start, rest) && forall x | x in rest :: NoFurther(E, start, first, x)
    ensures Ordered(E, start, [first] + rest)
  {
    hide NoFurther;
  }

  lemma StartsLayered(E: set<(Pred, Pred)>, start: Pred)
    ensures Layered(E, start, {}, [start], [], 0)
  {}

  /** The transitive predicates above one are found nearest first, and each once. */
  lemma NearestIsFirst(reg: Registry, k: Pred)
    ensures Ordered(SuperEdges(reg), k, TransitiveAbove(reg, k))
  {
    hide Searching, SuperEdges, Transitives, Found, Layered, NoFurther;
    FoundStarts(reg, k);
    if k != "" {
      StartsLayered(SuperEdges(reg), k);
      assert [k] + [] == [k];
      FoundInOrder(reg, k, {}, [k], [], 0);
    }
  }

  lemma {:induction false} CommonsKeepOrder(reg: Registry, E: set<(Pred, Pred)>, start: Pred, candidates: seq<Pred>, preds: seq<Pred>)
    requires Ordered(E, start, candidates)
    ensures Ordered(E, start, Commons(reg, candidates, preds)) && forall k | k in Commons(reg, candidates, preds) :: k in candidates
    decreases |candidates|
  {
    hide NoFurther, Below;
    if candidates != [] {
      var init, last := candidates[..|candidates| - 1], candidates[|candidates| - 1];
      CommonsKeepOrder(reg, E, start, init, preds);
      forall k | k in init ensures NoFurther(E, start, k, last) {
        var i :| 0 <= i < |init| && init[i] == k;
        assert candidates[i] == k;
      }
    }
  }

  /** A path that composes to nothing is judged by a common transitive predicate that is as near to its first step as any
      other. */
  lemma JudgedByNearest(reg: Registry, preds: seq<Pred>, other: Pred)
    requires First(CommonAbove(reg, preds)).Some? && other in CommonAbove(reg, preds)
    ensures preds != [] && NoFurther(SuperEdges(reg), Canon(reg, preds[0]), First(CommonAbove(reg, preds)).value, other)
  {
    hide SuperEdges, TransitiveAbove, NoFurther, Below;
    var start := Canon(reg, preds[0]);
    NearestIsFirst(reg, start);
    CommonsKeepOrder(reg, SuperEdges(reg), start, TransitiveAbove(reg, start), preds);
    var q := CommonAbove(reg, preds);
    var i :| 0 <= i < |q| && q[i] == other;
    if i == 0 {
      NoFurtherItself(SuperEdges(reg), start, other);
    }
  }

  lemma NoFurtherItself(E: set<(Pred, Pred)>, start: Pred, a: Pred)
    ensures NoFurther(E, start, a, a)
  {}
}
