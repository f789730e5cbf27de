/** Level assignment over the condensed hierarchy (pkg/generalization/queries.go, `levels`). */
module Levels {
  import opened Graphs
  import opened Iteration

  type Comps<T(==)> = set<(T, T)>

  /** Some walk of exactly k edges leads from a seed component to c. */
  ghost predicate HasWalk<T(!new)>(C: Comps<T>, seeds: set<T>, c: T, k: nat)
    decreases k
  {
    if k == 0 then c in seeds
    else exists b :: (b, c) in C && HasWalk(C, seeds, b, k - 1)
  }

  ghost predicate WalksAtMost<T(!new)>(C: Comps<T>, seeds: set<T>, c: T, n: int) {
    forall k: nat | HasWalk(C, seeds, c, k) :: k <= n
  }

  /** n is the length of the longest walk from a seed to c. */
  ghost predicate LongestWalk<T(!new)>(C: Comps<T>, seeds: set<T>, c: T, n: int) {
    0 <= n && HasWalk(C, seeds, c, n) && WalksAtMost(C, seeds, c, n)
  }

  ghost predicate Reached<T(!new)>(C: Comps<T>, seeds: set<T>, c: T) {
    exists k: nat :: HasWalk(C, seeds, c, k)
  }

  /** The edges held as parent sets per component. */
  ghost function EdgesIn<T(!new)>(parents: map<T, set<T>>): Comps<T> {
    set c, p | c in parents && p in parents[c] :: (c, p)
  }

  // ------------------------------------------------------------------ the worklist

  datatype Work<T(==)> = Work(levels: map<T, int>, queue: seq<T>)

  /** Offer parent the level next: it is raised if that is higher, and queued if it is still below the cap. */
  function Offer<T(==)>(w: Work<T>, parent: T, next: int, limit: int): Work<T> {
    if parent in w.levels && w.levels[parent] >= next then w
    else Work(w.levels[parent := next], if next < limit then w.queue + [parent] else w.queue)
  }

  /** Offer next to the parents one after the other. */
  function OfferAll<T(==)>(w: Work<T>, order: seq<T>, next: int, limit: int): Work<T>
    decreases |order|
  {
    if order == [] then w
    else Offer(OfferAll(w, order[..|order| - 1], next, limit), order[|order| - 1], next, limit)
  }

  /** One turn of the loop, visiting the parents of the dequeued component in the given order. */
  ghost predicate Turn<T(!new)>(parents: map<T, set<T>>, limit: int, w: Work<T>, order: seq<T>, w': Work<T>) {
    && w.queue != [] && w.queue[0] in w.levels
    && var comp := w.queue[0];
       var level := w.levels[comp];
       var rest := Work(w.levels, w.queue[1..]);
       if level >= limit then w' == rest
       else
         && (forall p :: p in order <==> comp in parents && p in parents[comp])
         && w' == OfferAll(rest, order, level + 1, limit)
  }

  ghost predicate SettledAt<T(!new)>(C: Comps<T>, levels: map<T, int>, limit: int, c: T) {
    c in levels && (levels[c] < limit ==> forall p | (c, p) in C :: p in levels && levels[c] < levels[p])
  }

  /** Every level is the length of some walk, and what is not settled is waiting in the queue. */
  ghost predicate WorkInv<T(!new)>(C: Comps<T>, seeds: set<T>, limit: int, w: Work<T>) {
    && (forall c | c in w.levels :: 0 <= w.levels[c] <= limit && HasWalk(C, seeds, c, w.levels[c]))
    && (forall c | c in seeds :: c in w.levels)
    && (forall c | c in w.levels :: c in w.queue || SettledAt(C, w.levels, limit, c))
    && (forall c | c in w.queue :: c in w.levels)
  }

  /** What is left to raise; it shrinks with every raise. */
  ghost function Room<T(!new)>(universe: set<T>, levels: map<T, int>, limit: int): set<(T, int)> {
    set c, k | c in universe && 0 <= k <= limit && (c in levels ==> levels[c] < k) :: (c, k)
  }

  /** What one may rely on once the queue has run empty. */
  ghost predicate LevelsRight<T(!new)>(C: Comps<T>, seeds: set<T>, limit: int, levels: map<T, int>) {
    && (forall c | c in levels :: 0 <= levels[c] <= limit && HasWalk(C, seeds, c, levels[c]))
    && (forall c | Reached(C, seeds, c) && WalksAtMost(C, seeds, c, limit) :: c in levels && LongestWalk(C, seeds, c, levels[c]))
  }

  lemma {:induction false} QueueEmpty<T(!new)>(C: Comps<T>, seeds: set<T>, limit: int, w: Work<T>, c: T, k: nat)
    requires WorkInv(C, seeds, limit, w) && w.queue == []
    requires HasWalk(C, seeds, c, k) && WalksAtMost(C, seeds, c, limit)
    ensures c in w.levels && k <= w.levels[c]
    decreases k
  {
    if k > 0 {
      var b :| (b, c) in C && HasWalk(C, seeds, b, k - 1);
      forall j: nat | HasWalk(C, seeds, b, j) ensures j <= limit - 1 {
        assert HasWalk(C, seeds, c, j + 1);
      }
      QueueEmpty(C, seeds, limit, w, b, k - 1);
      assert SettledAt(C, w.levels, limit, b);
    }
  }

  lemma QueueEmptyIsRight<T(!new)>(C: Comps<T>, seeds: set<T>, limit: int, w: Work<T>)
    requires WorkInv(C, seeds, limit, w) && w.queue == []
    ensures LevelsRight(C, seeds, limit, w.levels)
  {
    forall c | Reached(C, seeds, c) && WalksAtMost(C, seeds, c, limit)
      ensures c in w.levels && LongestWalk(C, seeds, c, w.levels[c])
    {
      var k: nat :| HasWalk(C, seeds, c, k);
      QueueEmpty(C, seeds, limit, w, c, k);
      forall j: nat | HasWalk(C, seeds, c, j) ensures j <= w.levels[c] {
        QueueEmpty(C, seeds, limit, w, c, j);
      }
    }
  }

  /** A component that has a level has the length of its longest walk as its level exactly when that
      length does not pass the cap. */
  lemma ExactBelowCap<T(!new)>(C: Comps<T>, seeds: set<T>, limit: int, levels: map<T, int>, c: T)
    requires LevelsRight(C, seeds, limit, levels) && c in levels
    ensures LongestWalk(C, seeds, c, levels[c]) <==> WalksAtMost(C, seeds, c, limit)
  {
    if WalksAtMost(C, seeds, c, limit) {
      assert HasWalk(C, seeds, c, levels[c]);
      assert Reached(C, seeds, c);
    }
  }

  /** WorkInv while the parents of comp, dequeued with the given level, are being offered the next one. */
  ghost predicate MidTurn<T(!new)>(C: Comps<T>, seeds: set<T>, limit: int, w: Work<T>, comp: T, level: int) {
    && (forall c | c in w.levels :: 0 <= w.levels[c] <= limit && HasWalk(C, seeds, c, w.levels[c]))
    && (forall c | c in seeds :: c in w.levels)
    && (forall c | c in w.levels :: c == comp || c in w.queue || SettledAt(C, w.levels, limit, c))
    && (forall c | c in w.queue :: c in w.levels)
    && comp in w.levels && 0 <= level <= w.levels[comp]
    && (comp in w.queue || w.levels[comp] == level || limit <= w.levels[comp])
  }

  ghost predicate Above<T(!new)>(level: int, levels: map<T, int>, S: set<T>) {
    forall p | p in S :: p in levels && level < levels[p]
  }

  lemma OneOffer<T(!new)>(C: Comps<T>, seeds: set<T>, limit: int, w: Work<T>, comp: T, level: int, parent: T, done: set<T>)
    requires MidTurn(C, seeds, limit, w, comp, level) && level < limit && Above(level, w.levels, done)
    requires (comp, parent) in C && HasWalk(C, seeds, comp, level)
    ensures var w' := Offer(w, parent, level + 1, limit);
            MidTurn(C, seeds, limit, w', comp, level) && Above(level, w'.levels, done + {parent})
  {
    var w' := Offer(w, parent, level + 1, limit);
    assert HasWalk(C, seeds, parent, level + 1);
    forall c | c in w'.levels ensures c == comp || c in w'.queue || SettledAt(C, w'.levels, limit, c) {
      if c in w.levels && c != comp && c !in w.queue && c != parent {
        assert SettledAt(C, w.levels, limit, c);
      }
    }
  }

  lemma BeginTurn<T(!new)>(C: Comps<T>, seeds: set<T>, limit: int, w: Work<T>)
    requires WorkInv(C, seeds, limit, w) && w.queue != []
    ensures w.queue[0] in w.levels
    ensures MidTurn(C, seeds, limit, Work(w.levels, w.queue[1..]), w.queue[0], w.levels[w.queue[0]])
    ensures HasWalk(C, seeds, w.queue[0], w.levels[w.queue[0]])
    ensures limit <= w.levels[w.queue[0]] ==> WorkInv(C, seeds, limit, Work(w.levels, w.queue[1..]))
  {
    assert forall c | c in w.queue :: c == w.queue[0] || c in w.queue[1..];
  }

  lemma EndTurn<T(!new)>(C: Comps<T>, seeds: set<T>, limit: int, w: Work<T>, comp: T, level: int)
    requires MidTurn(C, seeds, limit, w, comp, level)
    requires forall p | (comp, p) in C :: p in w.levels && level < w.levels[p]
    ensures WorkInv(C, seeds, limit, w)
  {
    assert comp in w.queue || SettledAt(C, w.levels, limit, comp);
  }

  lemma LevelNotNegative<T(!new)>(C: Comps<T>, seeds: set<T>, limit: int, w: Work<T>, comp: T, level: int)
    requires MidTurn(C, seeds, limit, w, comp, level)
    ensures 0 <= level
  {}

  lemma OfferShrinks<T(!new)>(universe: set<T>, w: Work<T>, parent: T, next: int, limit: int)
    requires parent in universe && 0 <= next <= limit
    ensures var w' := Offer(w, parent, next, limit);
            Room(universe, w'.levels, limit) <= Room(universe, w.levels, limit)
            && (w' == w || Room(universe, w'.levels, limit) < Room(universe, w.levels, limit))
  {
    var w' := Offer(w, parent, next, limit);
    if w' != w {
      assert (parent, next) in Room(universe, w.levels, limit) - Room(universe, w'.levels, limit);
    }
  }

  /** Levels by worklist. Scope components start at 0; every component is raised to one more than any
      child's level, up to the cap. The order in which maps are iterated is arbitrary. */
  method AssignLevels<T(!new, ==)>(parents: map<T, set<T>>, seeds: set<T>, limit: int) returns (levels: map<T, int>)
    requires 1 <= limit
    ensures LevelsRight(EdgesIn(parents), seeds, limit, levels)
  {
    ghost var C := EdgesIn(parents);
    levels := map[];
    var queue: seq<T> := [];
    var todo := seeds;
    while todo != {}
      invariant todo <= seeds
      invariant forall c :: c in levels <==> c in seeds - todo
      invariant forall c | c in levels :: levels[c] == 0
      invariant forall c :: c in queue <==> c in levels
      decreases todo
    {
      var comp := Any(todo);
      todo := todo - {comp};
      if comp !in levels {
        levels := levels[comp := 0];
        queue := queue + [comp];
      }
    }
    ghost var universe := set e | e in C :: e.1;
    while queue != []
      invariant WorkInv(C, seeds, limit, Work(levels, queue))
      decreases Room(universe, levels, limit), |queue|
    {
      ghost var before := Work(levels, queue);
      levels, queue := Step(parents, seeds, limit, levels, queue, universe);
    }
    QueueEmptyIsRight(C, seeds, limit, Work(levels, queue));
  }

  /** One turn of the worklist loop. */
  method Step<T(!new, ==)>(parents: map<T, set<T>>, ghost seeds: set<T>, limit: int, levels: map<T, int>, queue: seq<T>,
              ghost universe: set<T>)
    returns (levels': map<T, int>, queue': seq<T>)
    requires queue != [] && WorkInv(EdgesIn(parents), seeds, limit, Work(levels, queue))
    requires forall c, p | (c, p) in EdgesIn(parents) :: p in universe
    ensures WorkInv(EdgesIn(parents), seeds, limit, Work(levels', queue'))
    ensures exists order :: Turn(parents, limit, Work(levels, queue), order, Work(levels', queue'))
    ensures || Room(universe, levels', limit) < Room(universe, levels, limit)
            || (Room(universe, levels', limit) == Room(universe, levels, limit) && |queue'| < |queue|)
  {
    hide WorkInv, HasWalk;
    ghost var C := EdgesIn(parents);
    ghost var w := Work(levels, queue);
    BeginTurn(C, seeds, limit, w);
    var comp := queue[0];
    var level := levels[comp];
    if level >= limit {
      assert Turn(parents, limit, w, [], Work(levels, queue[1..]));
      return levels, queue[1..];
    }
    var all := if comp in parents then parents[comp] else {};
    assert forall p | p in all :: (comp, p) in C;
    ghost var order;
    levels', queue', order := OfferParents(C, seeds, limit, levels, queue[1..], comp, level, all, universe);
    assert Turn(parents, limit, w, order, Work(levels', queue'));
    EndTurn(C, seeds, limit, Work(levels', queue'), comp, level);
  }

  /** Offer level + 1 to all the parents of comp, in some order. */
  method OfferParents<T(!new, ==)>(ghost C: Comps<T>, ghost seeds: set<T>, limit: int, levels: map<T, int>, queue: seq<T>,
                                   ghost comp: T, level: int, all: set<T>, ghost universe: set<T>)
    returns (levels': map<T, int>, queue': seq<T>, ghost order: seq<T>)
    requires MidTurn(C, seeds, limit, Work(levels, queue), comp, level) && level < limit
    requires HasWalk(C, seeds, comp, level) && all <= universe && forall p | p in all :: (comp, p) in C
    ensures MidTurn(C, seeds, limit, Work(levels', queue'), comp, level) && Above(level, levels', all)
    ensures forall p :: p in order <==> p in all
    ensures Work(levels', queue') == OfferAll(Work(levels, queue), order, level + 1, limit)
    ensures Room(universe, levels', limit) < Room(universe, levels, limit) || (levels' == levels && queue' == queue)
  {
    hide MidTurn, Room, HasWalk, SettledAt;
    LevelNotNegative(C, seeds, limit, Work(levels, queue), comp, level);
    levels', queue' := levels, queue;
    order := [];
    var todo := all;
    ghost var done: set<T> := {};
    while todo != {}
      invariant done + todo == all
      invariant forall p :: p in order <==> p in done
      invariant Work(levels', queue') == OfferAll(Work(levels, queue), order, level + 1, limit)
      invariant MidTurn(C, seeds, limit, Work(levels', queue'), comp, level)
      invariant Above(level, levels', done)
      invariant Room(universe, levels', limit) < Room(universe, levels, limit) || (levels' == levels && queue' == queue)
      decreases todo
    {
      var parent := Any(todo);
      OneOffer(C, seeds, limit, Work(levels', queue'), comp, level, parent, done);
      OfferShrinks(universe, Work(levels', queue'), parent, level + 1, limit);
      ghost var order' := order + [parent];
      assert order'[..|order'| - 1] == order;
      todo, done, order := todo - {parent}, done + {parent}, order';
      var next := level + 1;
      if next > limit {
        next := limit;
      }
      if parent in levels' && levels'[parent] >= next {
        continue;
      }
      levels' := levels'[parent := next];
      if next < limit {
        queue' := queue' + [parent];
      }
    }
    assert done == all;
  }

  // ------------------------------------------------------------------ above the cap

  /** w' is reached from w in n turns, whatever the map iteration orders were. */
  ghost predicate Turns<T(!new)>(parents: map<T, set<T>>, limit: int, w: Work<T>, w': Work<T>, n: nat)
    decreases n
  {
    if n == 0 then w == w'
    else exists u, order :: Turn(parents, limit, w, order, u) && Turns(parents, limit, u, w', n - 1)
  }

  lemma TurnFirst<T(!new)>(parents: map<T, set<T>>, limit: int, w: Work<T>, order: seq<T>, u: Work<T>, w': Work<T>, n: nat)
    requires Turn(parents, limit, w, order, u) && Turns(parents, limit, u, w', n)
    ensures Turns(parents, limit, w, w', n + 1)
  {}

  datatype Example = A | B | C | D | X

  /** A chain of scope entities A, B, C below D, and a scope entity X directly below D. */
  const CHAIN: map<Example, set<Example>> := map[A := {B}, B := {C}, C := {D}, X := {D}]

  const START: map<Example, int> := map[A := 0, B := 0, C := 0, X := 0]

  function ParentInChain(c: Example): Example {
    if c == A then B else if c == B then C else D
  }

  /** One turn on the chain with cap 2; there, the turn does not depend on an iteration order. */
  function NextInChain(w: Work<Example>): Work<Example>
    requires w.queue != [] && w.queue[0] in w.levels
  {
    var rest := Work(w.levels, w.queue[1..]);
    if w.levels[w.queue[0]] >= 2 || w.queue[0] == D then rest
    else Offer(rest, ParentInChain(w.queue[0]), w.levels[w.queue[0]] + 1, 2)
  }

  lemma ChainTurn(w: Work<Example>, w': Work<Example>, n: nat)
    requires w.queue != [] && w.queue[0] in w.levels && Turns(CHAIN, 2, NextInChain(w), w', n)
    ensures Turns(CHAIN, 2, w, w', n + 1)
  {
    var rest := Work(w.levels, w.queue[1..]);
    if w.levels[w.queue[0]] >= 2 || w.queue[0] == D {
      assert OfferAll(rest, [], w.levels[w.queue[0]] + 1, 2) == rest;
      TurnFirst(CHAIN, 2, w, [], rest, w', n);
    } else {
      var p := ParentInChain(w.queue[0]);
      assert [p][..0] == [] && OfferAll(rest, [p][..0], w.levels[w.queue[0]] + 1, 2) == rest;
      TurnFirst(CHAIN, 2, w, [p], NextInChain(w), w', n);
    }
  }

  /** Visiting the scope in the order C, A, B, X leaves D at level 1. */
  lemma RunWithLevelOne()
    ensures Turns(CHAIN, 2, Work(START, [C, A, B, X]), Work(START[D := 1][B := 1][C := 2], []), 6)
  {
    hide Turns, CHAIN;
    var l1 := START[D := 1];
    var l2 := l1[B := 1];
    var l3 := l2[C := 2];
    SameTurns(Work(l3, []));
    assert NextInChain(Work(l3, [B])) == Work(l3, []);
    ChainTurn(Work(l3, [B]), Work(l3, []), 0);
    assert NextInChain(Work(l3, [D, B])) == Work(l3, [B]);
    ChainTurn(Work(l3, [D, B]), Work(l3, []), 1);
    assert NextInChain(Work(l3, [X, D, B])) == Work(l3, [D, B]);
    ChainTurn(Work(l3, [X, D, B]), Work(l3, []), 2);
    assert NextInChain(Work(l2, [B, X, D, B])) == Work(l3, [X, D, B]);
    ChainTurn(Work(l2, [B, X, D, B]), Work(l3, []), 3);
    assert NextInChain(Work(l1, [A, B, X, D])) == Work(l2, [B, X, D, B]);
    ChainTurn(Work(l1, [A, B, X, D]), Work(l3, []), 4);
    assert NextInChain(Work(START, [C, A, B, X])) == Work(l1, [A, B, X, D]);
    ChainTurn(Work(START, [C, A, B, X]), Work(l3, []), 5);
  }

  lemma SameTurns(w: Work<Example>)
    ensures Turns(CHAIN, 2, w, w, 0)
  {}

  /** Visiting it in the order C, B, A, X leaves D at level 2. */
  lemma RunWithLevelTwo()
    ensures Turns(CHAIN, 2, Work(START, [C, B, A, X]), Work(START[D := 1][C := 1][B := 1][D := 2][C := 2], []), 7)
  {
    hide Turns, CHAIN;
    var l1 := START[D := 1];
    var l2 := l1[C := 1];
    var l3 := l2[B := 1];
    var l5 := l3[D := 2][C := 2];
    EndOfRun();
    assert NextInChain(Work(l3, [X, D, C, B])) == Work(l3, [D, C, B]);
    ChainTurn(Work(l3, [X, D, C, B]), Work(l5, []), 3);
    assert NextInChain(Work(l2, [A, X, D, C])) == Work(l3, [X, D, C, B]);
    ChainTurn(Work(l2, [A, X, D, C]), Work(l5, []), 4);
    assert NextInChain(Work(l1, [B, A, X, D])) == Work(l2, [A, X, D, C]);
    ChainTurn(Work(l1, [B, A, X, D]), Work(l5, []), 5);
    assert NextInChain(Work(START, [C, B, A, X])) == Work(l1, [B, A, X, D]);
    ChainTurn(Work(START, [C, B, A, X]), Work(l5, []), 6);
  }

  /** Its last three turns. */
  lemma EndOfRun()
    ensures Turns(CHAIN, 2, Work(START[D := 1][C := 1][B := 1], [D, C, B]), Work(START[D := 1][C := 1][B := 1][D := 2][C := 2], []), 3)
  {
    hide Turns, CHAIN;
    var l3 := START[D := 1][C := 1][B := 1];
    var l4 := l3[D := 2];
    var l5 := l4[C := 2];
    SameTurns(Work(l5, []));
    assert NextInChain(Work(l4, [B])) == Work(l5, []);
    ChainTurn(Work(l4, [B]), Work(l5, []), 0);
    assert NextInChain(Work(l3, [C, B])) == Work(l4, [B]);
    ChainTurn(Work(l3, [C, B]), Work(l5, []), 1);
    assert NextInChain(Work(l3, [D, C, B])) == Work(l3, [C, B]);
    ChainTurn(Work(l3, [D, C, B]), Work(l5, []), 2);
  }

  /** With at most one parent level (cap 2) the edge from X to D is emitted or not depending on the order
      in which the scope map happened to be iterated: D ends at level 1 in one run and at level 2 in another.
      The longest walk to D has three edges, so neither is its length. */
  lemma AboveTheCapOrderDecides()
    ensures Turns(CHAIN, 2, Work(START, [C, A, B, X]), Work(START[D := 1][B := 1][C := 2], []), 6)
    ensures Turns(CHAIN, 2, Work(START, [C, B, A, X]), Work(START[D := 1][C := 1][B := 1][D := 2][C := 2], []), 7)
    ensures HasWalk(EdgesIn(CHAIN), START.Keys, D, 3)
  {
    hide Turns;
    RunWithLevelOne();
    RunWithLevelTwo();
    WalkToD();
  }

  lemma WalkToD()
    ensures HasWalk(EdgesIn(CHAIN), START.Keys, D, 3)
  {
    assert HasWalk(EdgesIn(CHAIN), START.Keys, A, 0);
    assert (A, B) in EdgesIn(CHAIN) && HasWalk(EdgesIn(CHAIN), START.Keys, B, 1);
    assert (B, C) in EdgesIn(CHAIN) && HasWalk(EdgesIn(CHAIN), START.Keys, C, 2);
    assert (C, D) in EdgesIn(CHAIN);
  }
}
