/** One path judged twice: by the guard in the engine's extension (extension/reasoning/src/function/entails.cpp), which
    returns a path of one predicate, and then by the reasoner (pkg/reasoning/predicate_entailment.go), which asks what the
    path establishes. */
module PathJudgement {
  import opened Claims
  import opened Graphs
  import opened Options
  import opened Powers
  import opened Registry
  import opened Search
  import opened Entailment
  import opened Native
  import AcceptedCodec

  /** The reasoner accepts a path with these canonical predicates for a claim with the given one. */
  ghost predicate WellJudged(reg: Registry, preds: seq<Pred>, pred: Pred) {
    EffectiveOf(reg, preds).Some? && Below(reg, EffectiveOf(reg, preds).value, Canon(reg, pred))
  }

  /** It is what the answer of the engine is accepted by. */
  lemma AcceptsIffWellJudged(n: Reasoner, c: Claim, a: EngineRow)
    requires a.verdict == Some(Entailed) && a.proof.Some?
    ensures Accepts(n, c, a) <==> WellJudged(n.reg, CanonAll(n.reg, Preds(OrientedAll(n, a.proof.value.steps))), c.pred)
  {}

  // ------------------------------------------------------------------ paths of one predicate

  ghost predicate AllAre(preds: seq<Pred>, k: Pred) {
    preds != [] && forall i | 0 <= i < |preds| :: preds[i] == k
  }

  lemma {:induction false} CommonsOfOne(reg: Registry, candidates: seq<Pred>, preds: seq<Pred>, k: Pred)
    requires AllAre(preds, k) && Canon(reg, k) == k && forall x | x in candidates :: Below(reg, k, x)
    ensures Commons(reg, candidates, preds) == candidates
    decreases |candidates|
  {
    hide Below;
    if candidates != [] {
      CommonsOfOne(reg, candidates[..|candidates| - 1], preds, k);
    }
  }

  /** All that is found is reached. */
  lemma {:induction false} FoundReached(reg: Registry, start: Pred, seen: set<Pred>, queue: seq<Pred>)
    requires Searching(SuperEdges(reg), start, seen, queue)
    ensures forall k | k in Transitives(reg, Found(reg, start, seen, queue)) :: Reach(SuperEdges(reg), start, k)
    decreases Left(SuperEdges(reg), start, seen), |queue|
  {
    hide Searching, Left, SuperEdges, UnseenOf, Transitives, Found;
    if queue == [] {
      FoundEnds(reg, start, seen);
    } else if queue[0] in seen {
      Shorter(queue);
      FoundPops(reg, start, seen, queue);
      FoundReached(reg, start, seen, queue[1..]);
    } else {
      FoundExpands(reg, start, seen, queue);
      Reached(SuperEdges(reg), start, seen, queue);
      FoundReached(reg, start, seen + {queue[0]}, queue[1..] + UnseenOf(reg, SupersOf(reg, queue[0]), seen + {queue[0]}));
    }
  }

  lemma Shorter(q: seq<Pred>)
    requires q != []
    ensures |q[1..]| < |q|
  {}

  lemma AboveIsBelow(reg: Registry, k: Pred)
    requires k != ""
    ensures forall x | x in TransitiveAbove(reg, k) :: Below(reg, k, x)
  {
    FoundStarts(reg, k);
    FoundReached(reg, k, {}, [k]);
  }

  /** A transitive predicate is the first one found above itself. */
  lemma FirstAboveItself(reg: Registry, k: Pred)
    requires k != "" && IsTransitive(reg, k)
    ensures First(TransitiveAbove(reg, k)) == Some(k)
  {
    hide Searching, Left, SuperEdges, UnseenOf, Transitives, Found;
    FoundStarts(reg, k);
    FoundExpands(reg, k, {}, [k]);
  }

  /** What a path of one predicate is judged by: the predicate, if it is one step; and on longer paths, unless the
      predicate composes with itself, the first transitive one found above it. */
  lemma OneKindOfStep(reg: Registry, preds: seq<Pred>, k: Pred)
    requires Settled(reg) && AllAre(preds, k) && k != "" && Canon(reg, k) == k
    ensures |preds| == 1 ==> EffectiveOf(reg, preds) == Some(k)
    ensures |preds| > 1 && Compose(reg, reg.comps, k, k).None? ==> EffectiveOf(reg, preds) == First(TransitiveAbove(reg, k))
  {
    hide TransitiveAbove, Below;
    AboveIsBelow(reg, k);
    CommonsOfOne(reg, TransitiveAbove(reg, k), preds, k);
  }

  /** The reasoner accepts the path that the engine's guard returns, exactly if it is one step, or the first transitive
      predicate found above its own implies the one claimed; as it does if its own is transitive. The names are spelled
      alike on both sides, no stored edge needs turning, and the predicate does not compose with itself. */
  lemma BestPathIsJudged(reg: Registry, pred: Pred, accepted: seq<Pred>, paths: seq<AcceptedCodec.Path>, best: nat)
    requires Settled(reg) && IsAcceptedList(reg, pred, accepted) && forall a | a in accepted :: AcceptedCodec.Canonical(a) == a && Canon(reg, a) == a
    requires AcceptedCodec.IsBest(paths, AcceptedCodec.Names(AcceptedCodec.Tokens(AcceptedCodec.Encoded(accepted))), true, best)
    requires forall i | 0 <= i < |paths[best].predicates| ::
               Canon(reg, paths[best].predicates[i]) == AcceptedCodec.Canonical(paths[best].predicates[i])
    requires forall k | k in accepted :: Compose(reg, reg.comps, k, k).None?
    ensures var preds := CanonAll(reg, paths[best].predicates);
            && preds != [] && AllAre(preds, preds[0]) && preds[0] in accepted
            && (WellJudged(reg, preds, pred) <==>
                  || |preds| == 1
                  || (TransitiveAbove(reg, preds[0]) != [] && Below(reg, TransitiveAbove(reg, preds[0])[0], Canon(reg, pred))))
            && (IsTransitive(reg, preds[0]) ==> WellJudged(reg, preds, pred))
  {
    hide TransitiveAbove, Below, Settled, EffectiveOf, IsTransitive, AcceptedCodec.Confidence;
    var names := AcceptedCodec.Names(AcceptedCodec.Tokens(AcceptedCodec.Encoded(accepted)));
    AcceptedCodec.RoundTrip(accepted);
    var k :| k in names && AcceptedCodec.Uniform(paths[best], k);
    var preds := CanonAll(reg, paths[best].predicates);
    assert AllAre(preds, k);
    assert k in accepted && k != "";
    OneKindOfStep(reg, preds, k);
    assert Below(reg, k, Canon(reg, pred));
    if IsTransitive(reg, k) {
      FirstAboveItself(reg, k);
    }
  }

  // ------------------------------------------------------------------ a path rejected for the order of declaration

  /** a implies the transitive t1 and t2, declared in this order. */
  predicate Fork(reg: Registry) {
    && reg.byCanon == map["a" := Meta("a", "a", "", ["t1", "t2"], false, false, {}, {}),
                          "t1" := Meta("t1", "t1", "", [], true, false, {}, {}),
                          "t2" := Meta("t2", "t2", "", [], true, false, {}, {})]
    && reg.byRaw == reg.byCanon && reg.comps == []
  }

  lemma ForkEdges(reg: Registry)
    requires Fork(reg)
    ensures Settled(reg) && SuperEdges(reg) == {("a", "t1"), ("a", "t2")}
    ensures Below(reg, "a", "t2") && !Below(reg, "t1", "t2")
  {
    var E := SuperEdges(reg);
    assert SupersOf(reg, "a") == ["t1", "t2"];
    EdgeTo(reg, "a", 0);
    EdgeTo(reg, "a", 1);
    assert E == {("a", "t1"), ("a", "t2")};
    ReachSelf(E, "a");
    ReachThenEdge(E, "a", "a", "t2");
    if Reach(E, "t1", "t2") {
      ClosedReach(E, {"t1"}, "t1", "t2");
    }
  }

  lemma ForkNext(reg: Registry)
    requires Fork(reg)
    ensures UnseenOf(reg, SupersOf(reg, "a"), {"a"}) == ["t1", "t2"]
  {
    var supers := SupersOf(reg, "a");
    assert supers == ["t1", "t2"] && supers[..1] == ["t1"] && supers[..1][..0] == [];
    assert Canon(reg, "t1") == "t1" && Canon(reg, "t2") == "t2";
    assert UnseenOf(reg, [], {"a"}) == [];
    assert UnseenOf(reg, ["t1"], {"a"}) == ["t1"];
  }

  lemma ForkOrder(reg: Registry)
    requires Fork(reg)
    ensures First(TransitiveAbove(reg, "a")) == Some("t1")
  {
    hide Searching, Left, SuperEdges, Transitives, Found, UnseenOf, SupersOf;
    FoundStarts(reg, "a");
    var none: set<Pred> := {};
    var queue := ["a"];
    FoundExpands(reg, "a", none, queue);
    ForkNext(reg);
    assert none + {"a"} == {"a"} && queue[0] == "a";
    assert queue[1..] + ["t1", "t2"] == ["t1", "t2"];
    assert Searching(SuperEdges(reg), "a", {"a"}, ["t1", "t2"]);
    FoundExpands(reg, "a", {"a"}, ["t1", "t2"]);
  }

  /** Two steps by a establish t2, since both imply it and it is transitive. They are judged by t1 all the same, which
      is declared first, and so not accepted for a claim with t2. */
  lemma FirstCandidateDecides(reg: Registry)
    requires Fork(reg)
    ensures Settled(reg) && Establishes(reg, ["a", "a"], "t2")
    ensures EffectiveOf(reg, ["a", "a"]) == Some("t1") && !WellJudged(reg, ["a", "a"], "t2")
  {
    ForkEdges(reg);
    ForkOrder(reg);
    hide SuperEdges, TransitiveAbove, Below;
    assert Canon(reg, "a") == "a" && Canon(reg, "t2") == "t2";
    assert Compose(reg, reg.comps, "a", "a") == None;
    OneKindOfStep(reg, ["a", "a"], "a");
    assert Folded(reg, "a", ["a", "a"][1..]) == None;
  }
}
