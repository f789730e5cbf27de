/** When it is right to ask a claim the other way round, if a declared inverse is only implied, as the comments say,
    and not a converse (pkg/reasoning/native.go, pkg/reasoning/predicates.go). */
module OneWay {
  import opened Claims
  import opened Graphs
  import opened Options
  import opened Registry
  import opened Entailment
  import opened Native
  import opened Sets

  /** Declared inverses are implied, but need not imply. */
  ghost predicate InversesAreImplied(reg: Registry, I: Interpretation) {
    forall k, x, y | k in reg.byRaw && reg.byRaw[k].inverseOf != "" && I(k, x, y) :: I(reg.byRaw[k].inverseOf, y, x)
  }

  ghost predicate ReadOneWay(reg: Registry, I: Interpretation) {
    Respects(reg, I) && InversesAreImplied(reg, I)
  }

  /** The canonical predicate k is the declared inverse of j. */
  ghost predicate InverseOf(reg: Registry, j: Pred, k: Pred) {
    j in reg.byRaw && reg.byRaw[j].inverseOf != "" && Canon(reg, reg.byRaw[j].inverseOf) == k
  }

  // ------------------------------------------------------------------ what one fact forces

  /** From q relating the end false to the end true, n rounds of the registry's rules conclude that k relates u to v. */
  ghost predicate Forced(reg: Registry, q: Pred, k: Pred, u: bool, v: bool, n: nat)
    decreases n
  {
    if n == 0 then k == Canon(reg, q) && !u && v
    else
      || Forced(reg, q, k, u, v, n - 1)
      || BySuper(reg, q, k, u, v, n)
      || ByInverse(reg, q, k, u, v, n)
      || (IsTransitive(reg, k) && Joined(reg, q, k, k, u, v, n))
      || (exists c :: c in reg.comps && Canon(reg, c.result) == k && Joined(reg, q, Canon(reg, c.first), Canon(reg, c.second), u, v, n))
  }

  ghost predicate BySuper(reg: Registry, q: Pred, k: Pred, u: bool, v: bool, n: nat)
    requires n > 0
    decreases n, 0
  {
    exists j :: (j, k) in SuperEdges(reg) && Forced(reg, q, j, u, v, n - 1)
  }

  ghost predicate ByInverse(reg: Registry, q: Pred, k: Pred, u: bool, v: bool, n: nat)
    requires n > 0
    decreases n, 0
  {
    exists j :: InverseOf(reg, j, k) && Forced(reg, q, Canon(reg, j), v, u, n - 1)
  }

  ghost predicate Joined(reg: Registry, q: Pred, first: Pred, second: Pred, u: bool, v: bool, n: nat)
    requires n > 0
    decreases n, 1
  {
    JoinedAt(reg, q, first, second, u, false, v, n) || JoinedAt(reg, q, first, second, u, true, v, n)
  }

  /** The two predicates meet at the end w. */
  ghost predicate JoinedAt(reg: Registry, q: Pred, first: Pred, second: Pred, u: bool, w: bool, v: bool, n: nat)
    requires n > 0
    decreases n, 0
  {
    Forced(reg, q, first, u, w, n - 1) && Forced(reg, q, second, w, v, n - 1)
  }

  ghost predicate ForcedAtAll(reg: Registry, q: Pred, k: Pred, u: bool, v: bool) {
    exists n: nat :: Forced(reg, q, k, u, v, n)
  }

  function End(x: Name, y: Name, e: bool): Name {
    if e then x else y
  }

  /** What is forced is true wherever the fact is. */
  lemma {:induction false} ForcedMeans(reg: Registry, I: Interpretation, q: Pred, x: Name, y: Name, k: Pred, u: bool, v: bool, n: nat)
    requires ReadOneWay(reg, I) && I(q, y, x) && Forced(reg, q, k, u, v, n)
    ensures I(k, End(x, y, u), End(x, y, v))
    decreases n
  {
    if n > 0 {
      if Forced(reg, q, k, u, v, n - 1) {
        ForcedMeans(reg, I, q, x, y, k, u, v, n - 1);
      } else if BySuper(reg, q, k, u, v, n) {
        var j :| (j, k) in SuperEdges(reg) && Forced(reg, q, j, u, v, n - 1);
        ForcedMeans(reg, I, q, x, y, j, u, v, n - 1);
      } else if ByInverse(reg, q, k, u, v, n) {
        var j :| InverseOf(reg, j, k) && Forced(reg, q, Canon(reg, j), v, u, n - 1);
        ForcedMeans(reg, I, q, x, y, Canon(reg, j), v, u, n - 1);
        assert I(j, End(x, y, v), End(x, y, u));
        assert I(reg.byRaw[j].inverseOf, End(x, y, u), End(x, y, v));
      } else if IsTransitive(reg, k) && Joined(reg, q, k, k, u, v, n) {
        var z := JoinedMeans(reg, I, q, x, y, k, k, u, v, n);
        assert I(k, End(x, y, u), z) && I(k, z, End(x, y, v));
      } else {
        var c :| c in reg.comps && Canon(reg, c.result) == k && Joined(reg, q, Canon(reg, c.first), Canon(reg, c.second), u, v, n);
        var z := JoinedMeans(reg, I, q, x, y, Canon(reg, c.first), Canon(reg, c.second), u, v, n);
        assert I(c.first, End(x, y, u), z) && I(c.second, z, End(x, y, v));
        assert I(c.result, End(x, y, u), End(x, y, v));
      }
    }
  }

  lemma {:induction false} JoinedMeans(reg: Registry, I: Interpretation, q: Pred, x: Name, y: Name, first: Pred, second: Pred,
                                       u: bool, v: bool, n: nat) returns (z: Name)
    requires ReadOneWay(reg, I) && I(q, y, x) && n > 0 && Joined(reg, q, first, second, u, v, n)
    ensures I(first, End(x, y, u), z) && I(second, z, End(x, y, v))
    decreases n, 0
  {
    var w := JoinedAt(reg, q, first, second, u, true, v, n);
    z := End(x, y, w);
    ForcedMeans(reg, I, q, x, y, first, u, w, n - 1);
    ForcedMeans(reg, I, q, x, y, second, w, v, n - 1);
  }

  lemma {:induction false} ForcedMore(reg: Registry, q: Pred, k: Pred, u: bool, v: bool, n: nat, m: nat)
    requires Forced(reg, q, k, u, v, n) && n <= m
    ensures Forced(reg, q, k, u, v, m)
    decreases m
  {
    if n < m {
      ForcedMore(reg, q, k, u, v, n, m - 1);
    }
  }

  // ------------------------------------------------------------------ the least interpretation

  const SUBJECT := Name("subject")
  const OBJECT := Name("object")

  /** Exactly what q relating the object to the subject forces. */
  ghost function LeastOneWay(reg: Registry, q: Pred): Interpretation {
    (k, x, y) => LeastHolds(reg, q, k, x, y)
  }

  ghost predicate LeastHolds(reg: Registry, q: Pred, k: Pred, x: Name, y: Name) {
    x in {SUBJECT, OBJECT} && y in {SUBJECT, OBJECT} && ForcedAtAll(reg, q, Canon(reg, k), x == SUBJECT, y == SUBJECT)
  }

  lemma LeastSuper(reg: Registry, q: Pred, k: Pred, s: Pred, x: Name, y: Name)
    requires Settled(reg) && (k, s) in SuperEdges(reg) && LeastHolds(reg, q, k, x, y)
    ensures LeastHolds(reg, q, s, x, y)
  {
    EdgesAreCanonical(reg);
    assert Canon(reg, k) == k && Canon(reg, s) == s;
    var n: nat :| Forced(reg, q, k, x == SUBJECT, y == SUBJECT, n);
    assert BySuper(reg, q, s, x == SUBJECT, y == SUBJECT, n + 1);
    assert Forced(reg, q, s, x == SUBJECT, y == SUBJECT, n + 1);
  }

  lemma LeastInverse(reg: Registry, q: Pred, k: Pred, x: Name, y: Name)
    requires Settled(reg) && k in reg.byRaw && reg.byRaw[k].inverseOf != "" && LeastHolds(reg, q, k, x, y)
    ensures LeastHolds(reg, q, reg.byRaw[k].inverseOf, y, x)
  {
    var s := Canon(reg, reg.byRaw[k].inverseOf);
    var n: nat :| Forced(reg, q, Canon(reg, k), x == SUBJECT, y == SUBJECT, n);
    assert InverseOf(reg, k, s);
    assert ByInverse(reg, q, s, y == SUBJECT, x == SUBJECT, n + 1);
    assert Forced(reg, q, s, y == SUBJECT, x == SUBJECT, n + 1);
  }

  lemma LeastJoined(reg: Registry, q: Pred, first: Pred, second: Pred, x: Name, y: Name, z: Name) returns (n: nat)
    requires LeastHolds(reg, q, first, x, y) && LeastHolds(reg, q, second, y, z)
    ensures n > 0 && Joined(reg, q, Canon(reg, first), Canon(reg, second), x == SUBJECT, z == SUBJECT, n)
  {
    var a: nat :| Forced(reg, q, Canon(reg, first), x == SUBJECT, y == SUBJECT, a);
    var b: nat :| Forced(reg, q, Canon(reg, second), y == SUBJECT, z == SUBJECT, b);
    n := a + b + 1;
    ForcedMore(reg, q, Canon(reg, first), x == SUBJECT, y == SUBJECT, a, n - 1);
    ForcedMore(reg, q, Canon(reg, second), y == SUBJECT, z == SUBJECT, b, n - 1);
    assert JoinedAt(reg, q, Canon(reg, first), Canon(reg, second), x == SUBJECT, y == SUBJECT, z == SUBJECT, n);
  }

  lemma LeastTransitive(reg: Registry, q: Pred, k: Pred, x: Name, y: Name, z: Name)
    requires Settled(reg) && IsTransitive(reg, k) && LeastHolds(reg, q, k, x, y) && LeastHolds(reg, q, k, y, z)
    ensures LeastHolds(reg, q, k, x, z)
  {
    assert Canon(reg, k) == k;
    var n := LeastJoined(reg, q, k, k, x, y, z);
    assert Forced(reg, q, k, x == SUBJECT, z == SUBJECT, n);
  }

  lemma LeastComposed(reg: Registry, q: Pred, c: Composition, x: Name, y: Name, z: Name)
    requires c in reg.comps && LeastHolds(reg, q, c.first, x, y) && LeastHolds(reg, q, c.second, y, z)
    ensures LeastHolds(reg, q, c.result, x, z)
  {
    var n := LeastJoined(reg, q, c.first, c.second, x, y, z);
    assert Forced(reg, q, Canon(reg, c.result), x == SUBJECT, z == SUBJECT, n);
  }

  lemma LeastIsOneWay(reg: Registry, q: Pred)
    requires Settled(reg)
    ensures ReadOneWay(reg, LeastOneWay(reg, q)) && LeastOneWay(reg, q)(q, OBJECT, SUBJECT)
  {
    hide LeastHolds, SuperEdges;
    var I := LeastOneWay(reg, q);
    LeastStarts(reg, q);
    LeastIsCanonical(reg, q);
    forall k, s, x, y | (k, s) in SuperEdges(reg) && I(k, x, y) ensures I(s, x, y) {
      LeastSuper(reg, q, k, s, x, y);
    }
    forall k, x, y | k in reg.byRaw && reg.byRaw[k].inverseOf != "" && I(k, x, y) ensures I(reg.byRaw[k].inverseOf, y, x) {
      LeastInverse(reg, q, k, x, y);
    }
    forall k, x, y, z | IsTransitive(reg, k) && I(k, x, y) && I(k, y, z) ensures I(k, x, z) {
      LeastTransitive(reg, q, k, x, y, z);
    }
    forall c, x, y, z | c in reg.comps && I(c.first, x, y) && I(c.second, y, z) ensures I(c.result, x, z) {
      LeastComposed(reg, q, c, x, y, z);
    }
  }

  lemma LeastStarts(reg: Registry, q: Pred)
    ensures LeastHolds(reg, q, q, OBJECT, SUBJECT)
  {
    assert Forced(reg, q, Canon(reg, q), false, true, 0);
  }

  lemma LeastIsCanonical(reg: Registry, q: Pred)
    requires Settled(reg)
    ensures forall k, x, y :: LeastHolds(reg, q, k, x, y) <==> LeastHolds(reg, q, Canon(reg, k), x, y)
  {
    assert forall k :: Canon(reg, Canon(reg, k)) == Canon(reg, k);
  }

  /** The inverse of a claim makes the claim true in every interpretation read one way, exactly if the registry's rules
      force it from the inverse alone. */
  lemma RecoveryMeansIff(reg: Registry, p: Pred, q: Pred)
    requires Settled(reg)
    ensures (forall I: Interpretation, x, y | ReadOneWay(reg, I) && I(q, y, x) :: I(p, x, y))
            <==> ForcedAtAll(reg, q, Canon(reg, p), true, false)
  {
    if n: nat :| Forced(reg, q, Canon(reg, p), true, false, n) {
      forall I: Interpretation, x, y | ReadOneWay(reg, I) && I(q, y, x) ensures I(p, x, y) {
        ForcedMeans(reg, I, q, x, y, Canon(reg, p), true, false, n);
      }
    } else {
      LeastIsOneWay(reg, q);
      assert !LeastHolds(reg, q, p, SUBJECT, OBJECT);
      assert !LeastOneWay(reg, q)(p, SUBJECT, OBJECT);
    }
  }

  // ------------------------------------------------------------------ and in a reasoner

  /** The engine knows one edge, by the predicate q from the object to the subject. */
  function OneEdge(q: Pred): Proof {
    Proof(OBJECT, SUBJECT, q, "composition", [Step("edge", "composition", q, OBJECT, SUBJECT, 1.0)], 1.0)
  }

  function OneEdgeReasoner(reg: Registry, q: Pred): Reasoner {
    Reasoner(reg, true, x => {}, x => x, c => Done((false, None)),
             (c, accepted) => Done(if c == Claim(OBJECT, q, SUBJECT) then [EngineRow(Some(Entailed), 1.0, Some(OneEdge(q)))] else []))
  }

  /** Asked the other way round, the claim can be answered with entailed. */
  ghost predicate Recovered(n: Reasoner, c: Claim) {
    n.enforce && InverseClaim(n.reg, c).Some? && OnceAccepted(n, InverseClaim(n.reg, c).value)
  }

  ghost predicate RecoversHonestly(reg: Registry, n: Reasoner, I: Interpretation, c: Claim) {
    n.reg == reg && ReadOneWay(reg, I) && Honest(n, I) && Recovered(n, c)
  }

  /** Claims with the predicate p that are recovered are true. */
  ghost predicate RecoveryRight(reg: Registry, p: Pred) {
    forall n: Reasoner, I: Interpretation, c: Claim | RecoversHonestly(reg, n, I, c) && c.pred == p :: I(p, c.subj, c.obj)
  }

  lemma OneEdgeIsHonest(reg: Registry, q: Pred, I: Interpretation)
    requires I(q, OBJECT, SUBJECT)
    ensures Honest(OneEdgeReasoner(reg, q), I)
  {
    var n := OneEdgeReasoner(reg, q);
    forall c, steps | Answered(n, c, steps) && steps != [] ensures PathFrom(n, I, c.subj, c.obj, steps) {
      var accepted :| Answers(n, c, accepted, steps);
      assert steps == OneEdge(q).steps;
    }
  }

  lemma OneEdgeJudged(reg: Registry, q: Pred)
    requires HasCanonical(reg, q)
    ensures Accepts(OneEdgeReasoner(reg, q), Claim(OBJECT, q, SUBJECT), EngineRow(Some(Entailed), 1.0, Some(OneEdge(q))))
  {
    hide Below, Folded, CommonAbove;
    var n := OneEdgeReasoner(reg, q);
    CanonicalIsBelow(reg, q);
    assert Preds(OrientedAll(n, OneEdge(q).steps)) == [q] && CanonAll(reg, [q]) == [Canon(reg, q)];
  }

  lemma OneEdgeAccepted(reg: Registry, q: Pred)
    requires Settled(reg) && HasCanonical(reg, q)
    ensures AlwaysAccepted(OneEdgeReasoner(reg, q), Claim(OBJECT, q, SUBJECT))
    ensures OnceAccepted(OneEdgeReasoner(reg, q), Claim(OBJECT, q, SUBJECT))
  {
    hide IsAcceptedList, Accepts, Settled;
    var n, c := OneEdgeReasoner(reg, q), Claim(OBJECT, q, SUBJECT);
    OneEdgeJudged(reg, q);
    var list := AcceptedListExists(reg, q);
    assert Asked(n, c, AcceptedCodec.Encoded(list));
  }

  lemma AcceptedListExists(reg: Registry, pred: Pred) returns (list: seq<Pred>)
    ensures IsAcceptedList(reg, pred, list)
  {
    var goal := Canon(reg, pred);
    BelowIsDeclared(reg, goal);
    list := Enumerated(set k | k in reg.byCanon.Keys + {goal} && Below(reg, k, goal));
  }

  /** Declared by p as its inverse, and known to the registry. */
  ghost predicate HasInverse(reg: Registry, p: Pred) {
    p in reg.byRaw && reg.byRaw[p].inverseOf != "" && HasCanonical(reg, reg.byRaw[p].inverseOf)
  }

  /** Recovering claims with the predicate p by its declared inverse is right for every honest engine and every
      interpretation read one way, if and only if the rules force p from its inverse alone. */
  lemma RecoveryRightIff(reg: Registry, p: Pred)
    requires Settled(reg) && HasInverse(reg, p)
    ensures RecoveryRight(reg, p) <==> ForcedAtAll(reg, reg.byRaw[p].inverseOf, Canon(reg, p), true, false)
  {
    hide Settled, OnceAccepted, ReadOneWay, Honest, ForcedAtAll;
    var q := reg.byRaw[p].inverseOf;
    if ForcedAtAll(reg, q, Canon(reg, p), true, false) {
      forall n: Reasoner, I: Interpretation, c: Claim | RecoversHonestly(reg, n, I, c) && c.pred == p
        ensures I(p, c.subj, c.obj)
      {
        RecoveredInverseIsTrue(reg, n, I, c);
        RecoveryMeansIff(reg, p, q);
      }
    } else {
      UnforcedMisleads(reg, p);
    }
  }

  lemma RecoveredInverseIsTrue(reg: Registry, n: Reasoner, I: Interpretation, c: Claim)
    requires Settled(reg) && RecoversHonestly(reg, n, I, c)
    ensures I(reg.byRaw[c.pred].inverseOf, c.obj, c.subj)
  {
    hide Settled, Asked, Accepts, Supports, JudgedBy, Honest;
    var d := InverseClaim(reg, c).value;
    var text :| Asked(n, d, text) && n.engine(d, Some(text)).Done? && FirstAccepted(n, d, n.engine(d, Some(text)).value);
    var row := n.engine(d, Some(text)).value[0];
    AcceptedHasProof(n, d, row);
    AcceptedSupports(n, d, Some(text), row);
    SupportedIsTrue(n, I, d, row.proof.value.(pred := JudgedBy(n, row.proof.value).value));
  }

  lemma AcceptedHasProof(n: Reasoner, c: Claim, row: EngineRow)
    requires Accepts(n, c, row)
    ensures row.proof.Some? && JudgedBy(n, row.proof.value).Some?
  {}

  lemma LeastOfSubject(reg: Registry, p: Pred, q: Pred)
    ensures LeastOneWay(reg, q)(p, SUBJECT, OBJECT) <==> ForcedAtAll(reg, q, Canon(reg, p), true, false)
  {
    assert LeastOneWay(reg, q)(p, SUBJECT, OBJECT) <==> LeastHolds(reg, q, p, SUBJECT, OBJECT);
  }

  /** Otherwise an honest engine with one edge misleads. */
  lemma UnforcedMisleads(reg: Registry, p: Pred)
    requires Settled(reg) && HasInverse(reg, p) && !ForcedAtAll(reg, reg.byRaw[p].inverseOf, Canon(reg, p), true, false)
    ensures var q := reg.byRaw[p].inverseOf;
            var n, I, c := OneEdgeReasoner(reg, q), LeastOneWay(reg, q), Claim(SUBJECT, p, OBJECT);
            RecoversHonestly(reg, n, I, c) && !I(p, c.subj, c.obj)
  {
    hide Settled, LeastHolds, OnceAccepted, ReadOneWay, Honest, ForcedAtAll;
    var q := reg.byRaw[p].inverseOf;
    LeastIsOneWay(reg, q);
    OneEdgeIsHonest(reg, q, LeastOneWay(reg, q));
    OneEdgeAccepted(reg, q);
    LeastOfSubject(reg, p, q);
  }

  /** And there the code's answer is entailed: with one edge by the inverse, from the object to the subject, the claim
      is found, and it is true in the least interpretation with that edge only if the rules force it. */
  method AskTheOtherWay(reg: Registry, p: Pred) returns (r: Outcome<EntailResult>)
    requires Settled(reg) && HasInverse(reg, p)
    ensures r.Done? && r.value.verdict == Entailed
    ensures var q := reg.byRaw[p].inverseOf;
            && ReadOneWay(reg, LeastOneWay(reg, q)) && Honest(OneEdgeReasoner(reg, q), LeastOneWay(reg, q))
            && (LeastOneWay(reg, q)(p, SUBJECT, OBJECT) <==> ForcedAtAll(reg, q, Canon(reg, p), true, false))
  {
    hide Settled, LeastHolds, AlwaysAccepted, ReadOneWay, Honest, OnceAccepted, ForcedAtAll;
    var q := reg.byRaw[p].inverseOf;
    var n, c := OneEdgeReasoner(reg, q), Claim(SUBJECT, p, OBJECT);
    LeastIsOneWay(reg, q);
    OneEdgeIsHonest(reg, q, LeastOneWay(reg, q));
    OneEdgeAccepted(reg, q);
    LeastOfSubject(reg, p, q);
    assert Anchored(n, c) == c && InverseClaim(reg, c) == Some(Claim(OBJECT, q, SUBJECT));
    r := Entails(n, c);
  }

  // ------------------------------------------------------------------ without compositions

  /** Super-properties keep the direction, declared inverses turn it. */
  ghost function TurnEdges(reg: Registry): set<((Pred, bool), (Pred, bool))> {
    (set e, turned: bool | e in SuperEdges(reg) :: ((e.0, turned), (e.1, turned)))
    + (set j, turned: bool | j in reg.byRaw.Keys && reg.byRaw[j].inverseOf != "" :: TurnOf(reg, j, turned))
  }

  ghost function TurnOf(reg: Registry, j: Pred, turned: bool): ((Pred, bool), (Pred, bool))
    requires j in reg.byRaw
  {
    ((Canon(reg, j), turned), (Canon(reg, reg.byRaw[j].inverseOf), !turned))
  }

  lemma JoiningAddsNothing(reg: Registry, q: Pred, k: Pred, u: bool, v: bool, n: nat)
    requires n > 0 && u != v
    ensures Joined(reg, q, k, k, u, v, n) ==> Forced(reg, q, k, u, v, n - 1)
  {
    assert JoinedAt(reg, q, k, k, u, false, v, n) ==> Forced(reg, q, k, u, false, n - 1) && Forced(reg, q, k, false, v, n - 1);
    assert JoinedAt(reg, q, k, k, u, true, v, n) ==> Forced(reg, q, k, u, true, n - 1) && Forced(reg, q, k, true, v, n - 1);
    if u {
      assert !v;
    } else {
      assert v;
    }
  }

  /** Whatever is forced between different ends is reached along the edges; joining adds nothing between them. */
  lemma {:induction false} ForcedIsReached(reg: Registry, q: Pred, k: Pred, u: bool, n: nat)
    requires reg.comps == [] && Forced(reg, q, k, u, !u, n)
    ensures Reach(TurnEdges(reg), (Canon(reg, q), false), (k, u))
    decreases n
  {
    hide TurnEdges;
    var start := (Canon(reg, q), false);
    if n > 0 {
      JoiningAddsNothing(reg, q, k, u, !u, n);
    }
    if n == 0 {
      ReachSelf(TurnEdges(reg), start);
    } else if Forced(reg, q, k, u, !u, n - 1) {
      ForcedIsReached(reg, q, k, u, n - 1);
    } else if BySuper(reg, q, k, u, !u, n) {
      var j :| (j, k) in SuperEdges(reg) && Forced(reg, q, j, u, !u, n - 1);
      ForcedIsReached(reg, q, j, u, n - 1);
      TurnEdge(reg, j, k, u);
      ReachThenEdge(TurnEdges(reg), start, (j, u), (k, u));
    } else if ByInverse(reg, q, k, u, !u, n) {
      var j :| InverseOf(reg, j, k) && Forced(reg, q, Canon(reg, j), !u, u, n - 1);
      ForcedIsReached(reg, q, Canon(reg, j), !u, n - 1);
      TurnEdge(reg, j, k, !u);
      ReachThenEdge(TurnEdges(reg), start, (Canon(reg, j), !u), (k, u));
    }
  }

  lemma TurnEdge(reg: Registry, j: Pred, k: Pred, turned: bool)
    ensures (j, k) in SuperEdges(reg) ==> ((j, turned), (k, turned)) in TurnEdges(reg)
    ensures InverseOf(reg, j, k) ==> ((Canon(reg, j), turned), (k, !turned)) in TurnEdges(reg)
  {
    if (j, k) in SuperEdges(reg) {
      var e := (j, k);
      assert ((e.0, turned), (e.1, turned)) in TurnEdges(reg);
    }
    if InverseOf(reg, j, k) {
      assert TurnOf(reg, j, turned) in TurnEdges(reg);
    }
  }

  lemma ForcedAlongEdge(reg: Registry, q: Pred, a: (Pred, bool), b: (Pred, bool), n: nat)
    requires Settled(reg) && (a, b) in TurnEdges(reg) && Forced(reg, q, a.0, a.1, !a.1, n)
    ensures Forced(reg, q, b.0, b.1, !b.1, n + 1)
  {
    if e :| e in SuperEdges(reg) && a == (e.0, a.1) && b == (e.1, a.1) {
      assert (a.0, b.0) in SuperEdges(reg);
      assert BySuper(reg, q, b.0, b.1, !b.1, n + 1);
    } else {
      var j :| j in reg.byRaw.Keys && reg.byRaw[j].inverseOf != "" && (a, b) == TurnOf(reg, j, a.1);
      assert InverseOf(reg, j, b.0);
      assert ByInverse(reg, q, b.0, b.1, !b.1, n + 1);
    }
  }

  lemma {:induction false} ReachedIsForced(reg: Registry, q: Pred, a: (Pred, bool), b: (Pred, bool), m: nat, n: nat)
    requires Settled(reg) && Forced(reg, q, a.0, a.1, !a.1, m) && ReachIn(TurnEdges(reg), a, b, n)
    ensures ForcedAtAll(reg, q, b.0, b.1, !b.1)
    decreases n
  {
    if n > 0 {
      var c :| (a, c) in TurnEdges(reg) && ReachIn(TurnEdges(reg), c, b, n - 1);
      ForcedAlongEdge(reg, q, a, c, m);
      ReachedIsForced(reg, q, c, b, m + 1, n - 1);
    }
  }

  /** Without compositions recovery is right exactly if the predicate, turned, can be reached from its inverse. */
  lemma RecoveryRightIffReached(reg: Registry, p: Pred)
    requires Settled(reg) && HasInverse(reg, p) && reg.comps == []
    ensures RecoveryRight(reg, p) <==>
            Reach(TurnEdges(reg), (Canon(reg, reg.byRaw[p].inverseOf), false), (Canon(reg, p), true))
  {
    hide TurnEdges, RecoveryRight, Settled;
    var q := reg.byRaw[p].inverseOf;
    RecoveryRightIff(reg, p);
    if n: nat :| Forced(reg, q, Canon(reg, p), true, false, n) {
      ForcedIsReached(reg, q, Canon(reg, p), true, n);
    }
    if n: nat :| ReachIn(TurnEdges(reg), (Canon(reg, q), false), (Canon(reg, p), true), n) {
      assert Forced(reg, q, Canon(reg, q), false, true, 0);
      ReachedIsForced(reg, q, (Canon(reg, q), false), (Canon(reg, p), true), 0, n);
    }
  }

  /** In particular it is right if the inverse declares an inverse that implies the predicate. */
  lemma InverseThereAndBack(reg: Registry, I: Interpretation, k: Pred, x: Name, y: Name)
    requires ReadOneWay(reg, I)
    requires k in reg.byRaw && reg.byRaw[k].inverseOf in reg.byRaw && reg.byRaw[reg.byRaw[k].inverseOf].inverseOf != ""
    requires Below(reg, Canon(reg, reg.byRaw[reg.byRaw[k].inverseOf].inverseOf), Canon(reg, k))
    requires I(reg.byRaw[k].inverseOf, y, x)
    ensures I(k, x, y)
  {
    var back := reg.byRaw[reg.byRaw[k].inverseOf].inverseOf;
    assert I(back, x, y);
    BelowMeans(reg, I, Canon(reg, back), Canon(reg, k), x, y);
  }

  /** And it is not if the inverse declares none and implies nothing: the claim is recovered and false. */
  method OneWayInverseCanMislead(reg: Registry) returns (r: Outcome<EntailResult>)
    requires reg.byRaw == map["p" := Meta("p", "p", "q", [], false, false, {}, {}), "q" := Meta("q", "q", "", [], false, false, {}, {})]
    requires reg.byCanon == reg.byRaw && reg.comps == []
    ensures r.Done? && r.value.verdict == Entailed
    ensures var n, I, c := OneEdgeReasoner(reg, "q"), LeastOneWay(reg, "q"), Claim(SUBJECT, "p", OBJECT);
            RecoversHonestly(reg, n, I, c) && !I(c.pred, c.subj, c.obj)
  {
    assert Canon(reg, "p") == "p" && Canon(reg, "q") == "q" && reg.byRaw["p"].inverseOf == "q";
    hide ForcedAtAll, Settled, LeastHolds;
    NothingFromQ(reg);
    UnforcedMisleads(reg, "p");
    r := AskTheOtherWay(reg, "p");
  }

  lemma NothingFromQ(reg: Registry)
    requires reg.byRaw == map["p" := Meta("p", "p", "q", [], false, false, {}, {}), "q" := Meta("q", "q", "", [], false, false, {}, {})]
    requires reg.byCanon == reg.byRaw && reg.comps == []
    ensures Settled(reg) && !ForcedAtAll(reg, "q", "p", true, false)
  {
    forall e ensures e !in SuperEdges(reg) {
    }
    if n: nat :| Forced(reg, "q", "p", true, false, n) {
      ForcedIsReached(reg, "q", "p", true, n);
      ClosedReach(TurnEdges(reg), {("q", false)}, ("q", false), ("p", true));
    }
  }
}
