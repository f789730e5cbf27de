/** Sub-property closure and the predicate a proof path establishes (pkg/reasoning/predicate_entailment.go). */
module Entailment {
  import opened Claims
  import opened Graphs
  import opened Iteration
  import opened Options
  import opened Registry
  import opened Search
  import opened Sets

  // ------------------------------------------------------------------ the hierarchy

  function SupersOf(reg: Registry, k: Pred): seq<Pred> {
    if k in reg.byCanon then reg.byCanon[k].supers else []
  }

  ghost predicate IsTransitive(reg: Registry, k: Pred) {
    k in reg.byCanon && reg.byCanon[k].transitive
  }

  lemma TransitiveAsDeclared(reg: Registry, k: Pred)
    ensures IsTransitive(reg, k) <==> k in reg.byCanon && reg.byCanon[k].transitive
  {}

  /** From a predicate to the canonical names of its declared super-properties. */
  ghost function SuperEdges(reg: Registry): set<(Pred, Pred)> {
    set k, i | k in reg.byCanon && 0 <= i < |reg.byCanon[k].supers| && Canon(reg, reg.byCanon[k].supers[i]) != "" ::
      (k, Canon(reg, reg.byCanon[k].supers[i]))
  }

  /** The predicate implies the other through the hierarchy. */
  ghost predicate Below(reg: Registry, k: Pred, sup: Pred) {
    k != "" && Reach(SuperEdges(reg), k, sup)
  }

  lemma EdgeTo(reg: Registry, k: Pred, i: nat)
    requires i < |SupersOf(reg, k)| && Canon(reg, SupersOf(reg, k)[i]) != ""
    ensures (k, Canon(reg, SupersOf(reg, k)[i])) in SuperEdges(reg)
  {}

  lemma EdgesAreCanonical(reg: Registry)
    ensures forall k, v | (k, v) in SuperEdges(reg) :: v != "" && (Settled(reg) ==> Canon(reg, v) == v)
  {}

  function UnseenOf(reg: Registry, supers: seq<Pred>, seen: set<Pred>): seq<Pred> {
    if supers == [] then []
    else UnseenOf(reg, supers[..|supers| - 1], seen)
         + var sup := Canon(reg, supers[|supers| - 1]); if sup != "" && sup !in seen then [sup] else []
  }

  /** The super-properties of cur, canonical, not blank and not seen, in order. */
  method Unseen(reg: Registry, cur: Pred, seen: set<Pred>) returns (next: seq<Pred>)
    ensures next == UnseenOf(reg, SupersOf(reg, cur), seen)
    ensures forall k | k in next :: (cur, k) in SuperEdges(reg)
    ensures forall v | (cur, v) in SuperEdges(reg) :: v in seen || v in next
  {
    hide SuperEdges;
    next := [];
    var supers := SupersOf(reg, cur);
    for i := 0 to |supers|
      invariant next == UnseenOf(reg, supers[..i], seen)
    {
      assert supers[..i + 1][..i] == supers[..i];
      var sup := Canon(reg, supers[i]);
      if sup != "" && sup !in seen {
        next := next + [sup];
      }
    }
    assert supers[..|supers|] == supers;
    UnseenFollow(reg, cur, seen);
  }

  lemma {:induction false} UnseenMembers(reg: Registry, supers: seq<Pred>, seen: set<Pred>)
    ensures forall v :: v in UnseenOf(reg, supers, seen) <==> v != "" && v !in seen && v in CanonAll(reg, supers)
    decreases |supers|
  {
    if supers != [] {
      UnseenMembers(reg, supers[..|supers| - 1], seen);
    }
  }

  lemma UnseenFollow(reg: Registry, cur: Pred, seen: set<Pred>)
    ensures forall k | k in UnseenOf(reg, SupersOf(reg, cur), seen) :: (cur, k) in SuperEdges(reg)
    ensures forall v | (cur, v) in SuperEdges(reg) :: v in seen || v in UnseenOf(reg, SupersOf(reg, cur), seen)
  {
    var supers := SupersOf(reg, cur);
    UnseenMembers(reg, supers, seen);
    forall v | (cur, v) in SuperEdges(reg) ensures v in CanonAll(reg, supers) {
      var i :| 0 <= i < |supers| && v == Canon(reg, supers[i]);
      assert CanonAll(reg, supers)[i] == v;
    }
    forall k | k in UnseenOf(reg, supers, seen) ensures (cur, k) in SuperEdges(reg) {
      var i :| 0 <= i < |supers| && CanonAll(reg, supers)[i] == k;
      EdgeTo(reg, cur, i);
    }
  }

  /** What is still to be found, in the order in which the search finds it. */
  ghost function Found(reg: Registry, start: Pred, seen: set<Pred>, queue: seq<Pred>): seq<Pred>
    requires Searching(SuperEdges(reg), start, seen, queue)
    decreases Left(SuperEdges(reg), start, seen), |queue|
  {
    if queue == [] then []
    else if queue[0] in seen then
      Pops(SuperEdges(reg), start, seen, queue);
      Found(reg, start, seen, queue[1..])
    else
      var next := UnseenOf(reg, SupersOf(reg, queue[0]), seen + {queue[0]});
      UnseenFollow(reg, queue[0], seen + {queue[0]});
      Expands(SuperEdges(reg), start, seen, queue, next);
      [queue[0]] + Found(reg, start, seen + {queue[0]}, queue[1..] + next)
  }

  ghost function Transitives(reg: Registry, q: seq<Pred>): seq<Pred> {
    if q == [] then [] else (if IsTransitive(reg, q[0]) then [q[0]] else []) + Transitives(reg, q[1..])
  }

  /** The transitive predicates that a canonical one implies, in the order of a breadth-first search. */
  ghost function TransitiveAbove(reg: Registry, k: Pred): seq<Pred> {
    if k == "" then []
    else
      Starts(SuperEdges(reg), k);
      Transitives(reg, Found(reg, k, {}, [k]))
  }

  /** Does the effective predicate imply the target? */
  method PredicateEntails(reg: Registry, effective: Pred, target: Pred) returns (r: bool)
    ensures r <==> Canon(reg, target) != "" && Below(reg, Canon(reg, effective), Canon(reg, target))
  {
    hide Searching, SuperEdges, Left, IsTransitive;
    ghost var E := SuperEdges(reg);
    var start, goal := Canon(reg, effective), Canon(reg, target);
    if start == "" || goal == "" {
      return false;
    }
    var seen: set<Pred> := {};
    var queue := [start];
    Starts(E, start);
    while queue != []
      invariant Searching(E, start, seen, queue) && goal !in seen
      decreases Left(E, start, seen), |queue|
    {
      var cur := queue[0];
      if cur in seen {
        Pops(E, start, seen, queue);
        queue := queue[1..];
        continue;
      }
      if cur == goal {
        Reached(E, start, seen, queue);
        return true;
      }
      var next := Unseen(reg, cur, seen + {cur});
      Expands(E, start, seen, queue, next);
      seen := seen + {cur};
      queue := queue[1..] + next;
    }
    Ends(E, start, seen);
    return false;
  }

  lemma FoundPops(reg: Registry, start: Pred, seen: set<Pred>, queue: seq<Pred>)
    requires Searching(SuperEdges(reg), start, seen, queue) && queue != [] && queue[0] in seen
    ensures Searching(SuperEdges(reg), start, seen, queue[1..])
    ensures Found(reg, start, seen, queue) == Found(reg, start, seen, queue[1..])
  {
    Pops(SuperEdges(reg), start, seen, queue);
  }

  lemma FoundExpands(reg: Registry, start: Pred, seen: set<Pred>, queue: seq<Pred>)
    requires Searching(SuperEdges(reg), start, seen, queue) && queue != [] && queue[0] !in seen
    ensures var cur, next := queue[0], UnseenOf(reg, SupersOf(reg, queue[0]), seen + {queue[0]});
            && Searching(SuperEdges(reg), start, seen + {cur}, queue[1..] + next)
            && Left(SuperEdges(reg), start, seen + {cur}) < Left(SuperEdges(reg), start, seen)
            && Transitives(reg, Found(reg, start, seen, queue))
               == (if IsTransitive(reg, cur) then [cur] else []) + Transitives(reg, Found(reg, start, seen + {cur}, queue[1..] + next))
  {
    hide Searching, Left, SuperEdges, IsTransitive, UnseenOf;
    var cur, next := queue[0], UnseenOf(reg, SupersOf(reg, queue[0]), seen + {queue[0]});
    UnseenFollow(reg, cur, seen + {cur});
    Expands(SuperEdges(reg), start, seen, queue, next);
    var rest := Found(reg, start, seen + {cur}, queue[1..] + next);
    assert Found(reg, start, seen, queue) == [cur] + rest;
    assert ([cur] + rest)[1..] == rest;
  }

  lemma FoundStarts(reg: Registry, k: Pred)
    ensures k == "" ==> TransitiveAbove(reg, k) == []
    ensures k != "" ==> Searching(SuperEdges(reg), k, {}, [k]) && TransitiveAbove(reg, k) == Transitives(reg, Found(reg, k, {}, [k]))
  {
    Starts(SuperEdges(reg), k);
  }

  lemma FoundEnds(reg: Registry, start: Pred, seen: set<Pred>)
    requires Searching(SuperEdges(reg), start, seen, [])
    ensures Transitives(reg, Found(reg, start, seen, [])) == []
  {}

  /** The transitive predicates the given one implies, in the order of a breadth-first search. */
  method TransitiveSuperProperties(reg: Registry, pred: Pred) returns (out: seq<Pred>)
    requires Settled(reg)
    ensures Distinct(out) && out == TransitiveAbove(reg, Canon(reg, pred))
    ensures forall k :: k in out <==> Below(reg, Canon(reg, pred), k) && IsTransitive(reg, k)
  {
    hide Searching, SuperEdges, Left, IsTransitive, UnseenOf, Found, Transitives, TransitiveAbove, Below;
    BelowIsReach(reg, Canon(reg, pred));
    ghost var E := SuperEdges(reg);
    var start := Canon(reg, pred);
    EdgesAreCanonical(reg);
    assert Canon(reg, start) == start;
    out := [];
    FoundStarts(reg, start);
    if start == "" {
      return;
    }
    var seen: set<Pred> := {};
    var queue := [start];
    while queue != []
      invariant Searching(E, start, seen, queue) && Distinct(out)
      invariant out + Transitives(reg, Found(reg, start, seen, queue)) == TransitiveAbove(reg, start)
      invariant forall k | k in queue :: k != "" && Canon(reg, k) == k
      invariant forall k :: k in out <==> k in seen && IsTransitive(reg, k)
      decreases Left(E, start, seen), |queue|
    {
      assert queue[0] in queue;
      var cur := Canon(reg, queue[0]);
      if cur == "" || cur in seen {
        assert forall k | k in queue[1..] :: k in queue;
        FoundPops(reg, start, seen, queue);
        queue := queue[1..];
        continue;
      }
      TransitiveAsDeclared(reg, cur);
      if cur in reg.byCanon && reg.byCanon[cur].transitive {
        out := out + [cur];
      }
      FoundExpands(reg, start, seen, queue);
      var next := Unseen(reg, cur, seen + {cur});
      forall k | k in queue[1..] + next ensures k != "" && Canon(reg, k) == k {
        if k in next {
          assert (cur, k) in SuperEdges(reg);
        } else {
          assert k in queue;
        }
      }
      seen := seen + {cur};
      queue := queue[1..] + next;
    }
    Ends(E, start, seen);
    FoundEnds(reg, start, seen);
  }

  lemma BelowIsReach(reg: Registry, k: Pred)
    ensures forall sup :: Below(reg, k, sup) <==> k != "" && Reach(SuperEdges(reg), k, sup)
  {}

  /** A transitive predicate that each of the given ones implies. */
  ghost predicate CommonTransitive(reg: Registry, preds: seq<Pred>, k: Pred) {
    IsTransitive(reg, k) && forall p | p in preds :: Below(reg, Canon(reg, p), k)
  }

  function Kept(q: seq<Pred>, keep: set<Pred>): seq<Pred> {
    if q == [] then []
    else Kept(q[..|q| - 1], keep) + if q[|q| - 1] in keep then [q[|q| - 1]] else []
  }

  lemma {:induction false} KeptIsFiltered(q: seq<Pred>, keep: set<Pred>)
    ensures |Kept(q, keep)| <= |q| && forall k :: k in Kept(q, keep) <==> k in q && k in keep
    decreases |q|
  {
    if q != [] {
      assert q == q[..|q| - 1] + [q[|q| - 1]];
      KeptIsFiltered(q[..|q| - 1], keep);
    }
  }

  /** Keep those of the first n candidates that are in the set, in place and in order. */
  method FilterInPlace(candidates: array<Pred>, n: nat, keep: set<Pred>) returns (kept: nat)
    requires n <= candidates.Length
    modifies candidates
    ensures kept <= n && candidates[..kept] == Kept(old(candidates[..n]), keep)
  {
    ghost var was := candidates[..n];
    kept := 0;
    for i := 0 to n
      invariant kept <= i && candidates[..kept] == Kept(was[..i], keep)
      invariant forall j | i <= j < n :: candidates[j] == was[j]
    {
      var k := candidates[i];
      assert was[..i + 1][..i] == was[..i];
      if k in keep {
        candidates[kept] := k;
        kept := kept + 1;
      }
    }
    assert was[..n] == was;
  }

  /** Those of the candidates that all the predicates imply, in order. */
  ghost function Commons(reg: Registry, candidates: seq<Pred>, preds: seq<Pred>): seq<Pred> {
    if candidates == [] then []
    else
      var last := candidates[|candidates| - 1];
      Commons(reg, candidates[..|candidates| - 1], preds) + if forall p | p in preds :: Below(reg, Canon(reg, p), last) then [last] else []
  }

  lemma {:induction false} CommonsMore(reg: Registry, candidates: seq<Pred>, preds: seq<Pred>, p: Pred, above: set<Pred>)
    requires forall k | k in candidates :: k in above <==> Below(reg, Canon(reg, p), k)
    ensures Kept(Commons(reg, candidates, preds), above) == Commons(reg, candidates, preds + [p])
    decreases |candidates|
  {
    hide Below;
    if candidates != [] {
      var init, last := candidates[..|candidates| - 1], candidates[|candidates| - 1];
      CommonsMore(reg, init, preds, p, above);
      KeptOfMore(Commons(reg, init, preds), last, above);
      assert Commons(reg, init, preds) + [] == Commons(reg, init, preds);
    }
  }

  lemma KeptOfMore(q: seq<Pred>, k: Pred, keep: set<Pred>)
    ensures Kept(q + [k], keep) == Kept(q, keep) + if k in keep then [k] else []
  {
    assert (q + [k])[..|q|] == q;
  }

  lemma {:induction false} CommonsMembers(reg: Registry, candidates: seq<Pred>, preds: seq<Pred>)
    ensures forall k :: k in Commons(reg, candidates, preds) <==>
                        k in candidates && forall p | p in preds :: Below(reg, Canon(reg, p), k)
    decreases |candidates|
  {
    hide Below;
    if candidates != [] {
      CommonsMembers(reg, candidates[..|candidates| - 1], preds);
      assert candidates == candidates[..|candidates| - 1] + [candidates[|candidates| - 1]];
    }
  }

  lemma {:induction false} FirstsAreCommon(reg: Registry, firsts: seq<Pred>, first: Pred)
    requires forall k | k in firsts :: Below(reg, Canon(reg, first), k)
    ensures Commons(reg, firsts, [first]) == firsts
    decreases |firsts|
  {
    hide Below;
    if firsts != [] {
      FirstsAreCommon(reg, firsts[..|firsts| - 1], first);
    }
  }

  /** The transitive predicates that all of them imply, in the order in which they are found above the first. */
  ghost function CommonAbove(reg: Registry, preds: seq<Pred>): seq<Pred> {
    if preds == [] then [] else Commons(reg, TransitiveAbove(reg, Canon(reg, preds[0])), preds)
  }

  ghost function First(q: seq<Pred>): Option<Pred> {
    if q == [] then None else Some(q[0])
  }

  /** The first transitive predicate, going up from the first of the given ones, that they all imply. */
  method CommonTransitiveSuperProperty(reg: Registry, preds: seq<Pred>) returns (r: Option<Pred>)
    requires Settled(reg)
    ensures r == First(CommonAbove(reg, preds))
    ensures r.Some? ==> preds != [] && CommonTransitive(reg, preds, r.value)
    ensures r.None? ==> preds == [] || forall k :: !CommonTransitive(reg, preds, k)
  {
    hide Below, IsTransitive, Settled, TransitiveAbove, Commons, CommonTransitive;
    if preds == [] {
      return None;
    }
    var firsts := TransitiveSuperProperties(reg, preds[0]);
    var candidates := new Pred[|firsts|](i requires 0 <= i < |firsts| => firsts[i]);
    var n := |firsts|;
    assert candidates[..n] == firsts;
    FirstsAreCommon(reg, firsts, preds[0]);
    assert preds[..1] == [preds[0]];
    CommonsAre(reg, firsts, preds);
    for i := 1 to |preds|
      invariant 0 <= n <= candidates.Length
      invariant candidates[..n] == Commons(reg, firsts, preds[..i])
    {
      var next := TransitiveSuperProperties(reg, preds[i]);
      assert preds[..i + 1] == preds[..i] + [preds[i]];
      FewerCommons(reg, firsts, preds, i + 1);
      ghost var above := set k | k in next;
      if next == [] {
        NoneAbove(reg, firsts, preds, i);
        return None;
      }
      CommonsMore(reg, firsts, preds[..i], preds[i], above);
      n := FilterInPlace(candidates, n, set k | k in next);
      if n == 0 {
        return None;
      }
    }
    assert preds[..|preds|] == preds;
    if n == 0 {
      return None;
    }
    assert candidates[0] in candidates[..n];
    return Some(candidates[0]);
  }

  lemma CommonsAre(reg: Registry, firsts: seq<Pred>, preds: seq<Pred>)
    requires preds != [] && forall k :: k in firsts <==> Below(reg, Canon(reg, preds[0]), k) && IsTransitive(reg, k)
    ensures forall k :: k in Commons(reg, firsts, preds) <==> CommonTransitive(reg, preds, k)
  {
    hide Below, IsTransitive, Commons;
    CommonsMembers(reg, firsts, preds);
  }

  lemma HasMember(q: seq<Pred>)
    ensures q != [] ==> exists k :: k in q
  {
    if q != [] {
      assert q[0] in q;
    }
  }

  lemma FewerCommons(reg: Registry, firsts: seq<Pred>, preds: seq<Pred>, i: nat)
    requires i <= |preds|
    ensures Commons(reg, firsts, preds[..i]) == [] ==> Commons(reg, firsts, preds) == []
  {
    hide Below, Commons;
    CommonsMembers(reg, firsts, preds[..i]);
    CommonsMembers(reg, firsts, preds);
    if Commons(reg, firsts, preds) != [] {
      assert Commons(reg, firsts, preds)[0] in Commons(reg, firsts, preds[..i]);
    }
  }

  /** None of the candidates is transitive and above the i-th predicate. */
  lemma NoneAbove(reg: Registry, firsts: seq<Pred>, preds: seq<Pred>, i: nat)
    requires i < |preds| && forall k | k in firsts :: IsTransitive(reg, k)
    requires forall k :: !(Below(reg, Canon(reg, preds[i]), k) && IsTransitive(reg, k))
    ensures Commons(reg, firsts, preds) == []
  {
    hide Below, Commons, IsTransitive;
    CommonsMembers(reg, firsts, preds);
    var commons := Commons(reg, firsts, preds);
    assert preds[i] in preds;
    assert forall k :: k !in commons;
    HasMember(commons);
  }

  /** The result of the first declared composition of the two predicates. */
  function Compose(reg: Registry, comps: seq<Composition>, first: Pred, second: Pred): Option<Pred> {
    if comps == [] then None
    else if Canon(reg, comps[0].first) == Canon(reg, first) && Canon(reg, comps[0].second) == Canon(reg, second)
    then Some(Canon(reg, comps[0].result))
    else Compose(reg, comps[1..], first, second)
  }

  method ComposePredicates(reg: Registry, first: Pred, second: Pred) returns (r: Option<Pred>)
    ensures r == Compose(reg, reg.comps, first, second)
  {
    for i := 0 to |reg.comps|
      invariant Compose(reg, reg.comps, first, second) == Compose(reg, reg.comps[i..], first, second)
    {
      var comp := reg.comps[i];
      if Canon(reg, comp.first) == Canon(reg, first) && Canon(reg, comp.second) == Canon(reg, second) {
        return Some(Canon(reg, comp.result));
      }
      assert reg.comps[i..][1..] == reg.comps[i + 1..];
    }
    return None;
  }

  /** Compose from the left, as long as there are rules. */
  function Folded(reg: Registry, acc: Pred, rest: seq<Pred>): Option<Pred>
    decreases |rest|
  {
    if rest == [] then Some(acc)
    else match Compose(reg, reg.comps, acc, rest[0])
      case None => None
      case Some(k) => Folded(reg, k, rest[1..])
  }

  function CanonAll(reg: Registry, preds: seq<Pred>): (r: seq<Pred>)
    ensures |r| == |preds| && forall i | 0 <= i < |preds| :: r[i] == Canon(reg, preds[i])
  {
    if preds == [] then [] else CanonAll(reg, preds[..|preds| - 1]) + [Canon(reg, preds[|preds| - 1])]
  }

  /** What a path with these predicates establishes: the predicate of its one step; or the composition of all of
      them; or else a transitive predicate that all of them imply. */
  ghost predicate Establishes(reg: Registry, preds: seq<Pred>, k: Pred) {
    && preds != []
    && if |preds| == 1 then k == preds[0] != ""
       else match Folded(reg, preds[0], preds[1..])
            case Some(acc) => if acc != "" then k == acc else CommonTransitive(reg, preds, k)
            case None => CommonTransitive(reg, preds, k)
  }

  /** Of the predicates that a path establishes, the one it is judged by. */
  ghost function EffectiveOf(reg: Registry, preds: seq<Pred>): Option<Pred> {
    if preds == [] then None
    else if |preds| == 1 then if preds[0] != "" then Some(preds[0]) else None
    else match Folded(reg, preds[0], preds[1..])
      case Some(acc) => if acc != "" then Some(acc) else First(CommonAbove(reg, preds))
      case None => First(CommonAbove(reg, preds))
  }

  lemma TransitivesMembers(reg: Registry, q: seq<Pred>)
    ensures forall k :: k in Transitives(reg, q) <==> k in q && IsTransitive(reg, k)
  {
    hide IsTransitive;
  }

  lemma FirstIsCommon(reg: Registry, preds: seq<Pred>)
    requires First(CommonAbove(reg, preds)).Some?
    ensures preds != [] && CommonTransitive(reg, preds, First(CommonAbove(reg, preds)).value)
  {
    hide Below, IsTransitive, Found;
    var k := Canon(reg, preds[0]);
    CommonsMembers(reg, TransitiveAbove(reg, k), preds);
    FoundStarts(reg, k);
    if k != "" {
      TransitivesMembers(reg, Found(reg, k, {}, [k]));
    }
    assert CommonAbove(reg, preds)[0] in CommonAbove(reg, preds);
  }

  /** It is one of them. */
  lemma EffectiveIsEstablished(reg: Registry, preds: seq<Pred>)
    requires EffectiveOf(reg, preds).Some?
    ensures Establishes(reg, preds, EffectiveOf(reg, preds).value)
  {
    hide CommonAbove, CommonTransitive;
    if |preds| > 1 && First(CommonAbove(reg, preds)).Some? {
      FirstIsCommon(reg, preds);
    }
  }

  /** The single predicate a path of steps establishes. */
  method EffectivePredicate(reg: Registry, steps: seq<Pred>) returns (r: Option<Pred>)
    requires Settled(reg)
    ensures r == EffectiveOf(reg, CanonAll(reg, steps))
    ensures r.Some? ==> Establishes(reg, CanonAll(reg, steps), r.value)
    ensures r.None? ==> forall k :: !Establishes(reg, CanonAll(reg, steps), k)
  {
    hide CommonTransitive, Settled, Compose, CommonAbove;
    if steps == [] {
      return None;
    }
    var preds: seq<Pred> := [];
    for i := 0 to |steps|
      invariant |preds| == i && forall j | 0 <= j < i :: preds[j] == Canon(reg, steps[j])
    {
      preds := preds + [Canon(reg, steps[i])];
    }
    assert preds == CanonAll(reg, steps);
    if |preds| == 1 {
      return if preds[0] != "" then Some(preds[0]) else None;
    }
    var acc, reduced, rest := preds[0], true, preds[1..];
    while rest != []
      invariant Folded(reg, acc, rest) == Folded(reg, preds[0], preds[1..])
    {
      var result := ComposePredicates(reg, acc, rest[0]);
      if result == None {
        reduced := false;
        break;
      }
      acc, rest := result.value, rest[1..];
    }
    if reduced && acc != "" {
      return Some(acc);
    }
    r := CommonTransitiveSuperProperty(reg, preds);
  }

  // ------------------------------------------------------------------ what it means

  /** Which pairs each predicate relates. */
  type Interpretation = (Pred, Name, Name) -> bool

  /** The interpretation respects everything the registry declares, except inverses. */
  ghost predicate Respects(reg: Registry, I: Interpretation) {
    && (forall k, x, y :: I(k, x, y) <==> I(Canon(reg, k), x, y))
    && (forall k, s, x, y | (k, s) in SuperEdges(reg) && I(k, x, y) :: I(s, x, y))
    && (forall k, x, y, z | k in reg.byCanon && reg.byCanon[k].transitive && I(k, x, y) && I(k, y, z) :: I(k, x, z))
    && (forall c, x, y, z | c in reg.comps && I(c.first, x, y) && I(c.second, y, z) :: I(c.result, x, z))
  }

  lemma {:induction false} BelowInMeans(reg: Registry, I: Interpretation, k: Pred, sup: Pred, x: Name, y: Name, n: nat)
    requires Respects(reg, I) && ReachIn(SuperEdges(reg), k, sup, n) && I(k, x, y)
    ensures I(sup, x, y)
    decreases n
  {
    if n > 0 {
      var v :| (k, v) in SuperEdges(reg) && ReachIn(SuperEdges(reg), v, sup, n - 1);
      BelowInMeans(reg, I, v, sup, x, y, n - 1);
    }
  }

  /** Implication in the hierarchy is implication in every interpretation that respects it. */
  lemma BelowMeans(reg: Registry, I: Interpretation, k: Pred, sup: Pred, x: Name, y: Name)
    requires Respects(reg, I) && Below(reg, k, sup) && I(k, x, y)
    ensures I(sup, x, y)
  {
    var n: nat :| ReachIn(SuperEdges(reg), k, sup, n);
    BelowInMeans(reg, I, k, sup, x, y, n);
  }

  lemma {:induction false} ComposeMeans(reg: Registry, I: Interpretation, comps: seq<Composition>, a: Pred, b: Pred,
                                        x: Name, y: Name, z: Name)
    requires Respects(reg, I) && (forall c | c in comps :: c in reg.comps)
    requires Compose(reg, comps, a, b).Some? && I(a, x, y) && I(b, y, z)
    ensures I(Compose(reg, comps, a, b).value, x, z)
    decreases |comps|
  {
    if Canon(reg, comps[0].first) == Canon(reg, a) && Canon(reg, comps[0].second) == Canon(reg, b) {
      assert comps[0] in reg.comps;
      assert I(Canon(reg, a), x, y) && I(Canon(reg, b), y, z);
      assert I(comps[0].first, x, y) && I(comps[0].second, y, z);
    } else {
      ComposeMeans(reg, I, comps[1..], a, b, x, y, z);
    }
  }

  /** Every step of the path relates its endpoints. */
  ghost predicate PathTrue(I: Interpretation, preds: seq<Pred>, nodes: seq<Name>) {
    |nodes| == |preds| + 1 && forall i | 0 <= i < |preds| :: I(preds[i], nodes[i], nodes[i + 1])
  }

  lemma {:induction false} FoldedMeans(reg: Registry, I: Interpretation, acc: Pred, rest: seq<Pred>, first: Name, nodes: seq<Name>)
    requires Respects(reg, I) && Folded(reg, acc, rest).Some?
    requires PathTrue(I, rest, nodes) && I(acc, first, nodes[0])
    ensures I(Folded(reg, acc, rest).value, first, nodes[|nodes| - 1])
    decreases |rest|
  {
    if rest != [] {
      ComposeMeans(reg, I, reg.comps, acc, rest[0], first, nodes[0], nodes[1]);
      FoldedMeans(reg, I, Compose(reg, reg.comps, acc, rest[0]).value, rest[1..], first, nodes[1..]);
    }
  }

  lemma {:induction false} TransitiveMeans(reg: Registry, I: Interpretation, k: Pred, preds: seq<Pred>, nodes: seq<Name>)
    requires Respects(reg, I) && IsTransitive(reg, k) && PathTrue(I, preds, nodes) && preds != []
    requires forall p | p in preds :: Below(reg, p, k)
    ensures I(k, nodes[0], nodes[|nodes| - 1])
    decreases |preds|
  {
    assert preds[0] in preds;
    BelowMeans(reg, I, preds[0], k, nodes[0], nodes[1]);
    if |preds| > 1 {
      TransitiveMeans(reg, I, k, preds[1..], nodes[1..]);
    }
  }

  /** The whole path: if every step relates its endpoints, the first entity is related to the last by the
      predicate that the path establishes. */
  lemma EstablishesMeans(reg: Registry, I: Interpretation, preds: seq<Pred>, k: Pred, nodes: seq<Name>)
    requires Respects(reg, I) && (forall p | p in preds :: Canon(reg, p) == p)
    requires PathTrue(I, preds, nodes) && Establishes(reg, preds, k)
    ensures I(k, nodes[0], nodes[|nodes| - 1])
  {
    if |preds| > 1 {
      var folded := Folded(reg, preds[0], preds[1..]);
      if folded.Some? && folded.value != "" {
        FoldedMeans(reg, I, preds[0], preds[1..], nodes[0], nodes[1..]);
      } else {
        forall p | p in preds ensures Below(reg, p, k) {
          assert Below(reg, Canon(reg, p), k);
        }
        TransitiveMeans(reg, I, k, preds, nodes);
      }
    }
  }

  /** Relates one pair only, by everything the predicate implies. */
  ghost function Least(reg: Registry, k: Pred): Interpretation {
    (p, x, y) => LeastRelates(reg, k, p, x, y)
  }

  ghost predicate LeastRelates(reg: Registry, k: Pred, p: Pred, x: Name, y: Name) {
    x == Name("a") && y == Name("b") && Below(reg, k, Canon(reg, p))
  }

  lemma LeastRespects(reg: Registry, k: Pred)
    requires Settled(reg)
    ensures Respects(reg, Least(reg, k))
  {
    forall p, s, x, y | (p, s) in SuperEdges(reg) && Least(reg, k)(p, x, y) ensures Least(reg, k)(s, x, y) {
      assert LeastRelates(reg, k, p, x, y);
      assert Canon(reg, p) == p && Canon(reg, s) == s;
      ReachThenEdge(SuperEdges(reg), k, p, s);
    }
  }

  /** Implication in the hierarchy is exactly implication in every interpretation that respects the registry,
      whatever compositions and transitive predicates it declares. */
  lemma BelowIffMeans(reg: Registry, k: Pred, sup: Pred)
    requires Settled(reg) && Canon(reg, k) != ""
    ensures Below(reg, Canon(reg, k), Canon(reg, sup)) <==>
            forall I: Interpretation, x, y | Respects(reg, I) && I(k, x, y) :: I(sup, x, y)
  {
    if Below(reg, Canon(reg, k), Canon(reg, sup)) {
      forall I: Interpretation, x, y | Respects(reg, I) && I(k, x, y) ensures I(sup, x, y) {
        BelowMeans(reg, I, Canon(reg, k), Canon(reg, sup), x, y);
      }
    }
    if forall I: Interpretation, x, y | Respects(reg, I) && I(k, x, y) :: I(sup, x, y) {
      LeastRespects(reg, Canon(reg, k));
      ReachSelf(SuperEdges(reg), Canon(reg, k));
      assert LeastRelates(reg, Canon(reg, k), k, Name("a"), Name("b"));
      assert Least(reg, Canon(reg, k))(k, Name("a"), Name("b"));
    }
  }

  // ------------------------------------------------------------------ everything that implies a predicate

  /** Does a path that establishes the effective predicate support the target, or if so asked its inverse? */
  method ProofEntailsPredicate(reg: Registry, effective: Pred, target: Pred, includeInverse: bool) returns (r: bool)
    requires Settled(reg)
    ensures var e, goal := Canon(reg, effective), Canon(reg, target);
            r <==> (goal != "" && Below(reg, e, goal))
                   || (includeInverse && goal in reg.byCanon && reg.byCanon[goal].inverseOf != ""
                       && Canon(reg, reg.byCanon[goal].inverseOf) != "" && Below(reg, e, Canon(reg, reg.byCanon[goal].inverseOf)))
  {
    var goal := Canon(reg, target);
    assert Canon(reg, goal) == goal;
    r := PredicateEntails(reg, effective, goal);
    if r || !includeInverse {
      return;
    }
    if goal in reg.byCanon && reg.byCanon[goal].inverseOf != "" {
      var inverse := reg.byCanon[goal].inverseOf;
      if inverse != goal {
        r := PredicateEntails(reg, effective, inverse);
      }
    }
  }

  /** Every predicate that implies the target, each once. */
  method PredicatesEntailing(reg: Registry, target: Pred) returns (out: seq<Pred>)
    requires Settled(reg)
    ensures Distinct(out)
    ensures Canon(reg, target) == "" ==> out == []
    ensures Canon(reg, target) != "" ==>
              forall k :: k in out <==> k == Canon(reg, target) || (k in reg.byCanon && Below(reg, k, Canon(reg, target)))
  {
    var goal := Canon(reg, target);
    out := [];
    if goal == "" {
      return;
    }
    assert Canon(reg, goal) == goal;
    var all := Listing(reg.byCanon.Keys);
    var seen: set<Pred> := {};
    for i := 0 to |all|
      invariant Distinct(out) && forall k :: k in out <==> k in seen
      invariant forall k :: k in seen <==> k in all[..i] && Below(reg, k, goal)
    {
      assert all[..i + 1] == all[..i] + [all[i]];
      var pred := all[i];
      assert pred in reg.byCanon.Keys;
      if pred == "" {
        continue;
      }
      var entails := ProofEntailsPredicate(reg, pred, goal, false);
      if entails && Canon(reg, pred) != "" && Canon(reg, pred) !in seen {
        seen := seen + {Canon(reg, pred)};
        out := out + [Canon(reg, pred)];
      }
    }
    assert all[..|all|] == all;
    if goal !in seen {
      out := out + [goal];
    }
  }
}
