/** Which predicates may relate a thing to itself (pkg/reasoning/predicates.go). */
module Reflexivity {
  import opened Claims
  import opened Graphs
  import opened Options
  import opened Registry
  import opened Entailment

  /** From a predicate to its super-properties as they are spelled in the declaration. */
  ghost function SpelledEdges(reg: Registry): set<(Pred, Pred)> {
    set k, i | k in reg.byCanon && 0 <= i < |reg.byCanon[k].supers| && reg.byCanon[k].supers[i] != "" ::
      (k, reg.byCanon[k].supers[i])
  }

  predicate Reflexive(reg: Registry, k: Pred) {
    k != "" && k in reg.byCanon && reg.byCanon[k].reflexive
  }

  /** Nothing among the nodes is reflexive, and what follows them was seen. */
  ghost predicate DeadEnds(reg: Registry, nodes: set<Pred>, seen: set<Pred>) {
    && (forall k | k in nodes :: !Reflexive(reg, k))
    && (forall k, v | k in nodes && (k, v) in SpelledEdges(reg) :: v in seen)
  }

  ghost predicate ReachesReflexive(reg: Registry, k: Pred) {
    exists v :: Reach(SpelledEdges(reg), k, v) && Reflexive(reg, v)
  }

  lemma ReachesVia(reg: Registry, k: Pred, v: Pred)
    requires (k, v) in SpelledEdges(reg) && ReachesReflexive(reg, v)
    ensures ReachesReflexive(reg, k)
  {
    var w :| Reach(SpelledEdges(reg), v, w) && Reflexive(reg, w);
    ReachEdge(SpelledEdges(reg), k, v);
    ReachTrans(SpelledEdges(reg), k, v, w);
  }

  /** Depth-first search for a reflexive super-property among what was not seen yet. */
  method ReflexiveCanonical(reg: Registry, k: Pred, seen: set<Pred>) returns (r: bool, after: set<Pred>)
    ensures seen <= after && (k != "" ==> k in after)
    ensures r ==> k != "" && ReachesReflexive(reg, k)
    ensures !r ==> DeadEnds(reg, after - seen, after)
    decreases reg.byCanon.Keys - seen
  {
    after := seen;
    if k == "" || k in seen {
      return false, after;
    }
    after := after + {k};
    ReachSelf(SpelledEdges(reg), k);
    if k !in reg.byCanon {
      return false, after;
    }
    if reg.byCanon[k].reflexive {
      assert Reflexive(reg, k);
      return true, after;
    }
    var supers := reg.byCanon[k].supers;
    for i := 0 to |supers|
      invariant seen + {k} <= after && DeadEnds(reg, after - seen - {k}, after)
      invariant forall j | 0 <= j < i && supers[j] != "" :: supers[j] in after
    {
      ghost var before := after;
      r, after := ReflexiveCanonical(reg, supers[i], after);
      if r {
        ReachesVia(reg, k, supers[i]);
        return;
      }
      assert after - seen - {k} == (before - seen - {k}) + (after - before);
    }
    r := false;
    assert after - seen == (after - seen - {k}) + {k};
  }

  /** A declared predicate may relate a thing to itself exactly if a reflexive predicate can be reached from it
      along the super-properties as spelled. */
  method IsReflexive(reg: Registry, pred: Pred) returns (r: bool)
    ensures r <==> pred in reg.byRaw && Canon(reg, pred) != "" && ReachesReflexive(reg, Canon(reg, pred))
  {
    if pred !in reg.byRaw {
      return false;
    }
    var start, seen := reg.byRaw[pred].canonical, {};
    r, seen := ReflexiveCanonical(reg, start, {});
    if !r && start != "" {
      assert seen - {} == seen;
      forall v | Reach(SpelledEdges(reg), start, v) ensures !Reflexive(reg, v) {
        ClosedReach(SpelledEdges(reg), seen, start, v);
      }
    }
  }

  // ------------------------------------------------------------------ agreement with the rest of the reasoner

  /** A reflexive predicate is implied, as the rest of the reasoner sees implications. */
  ghost predicate Inherits(reg: Registry, k: Pred) {
    exists v :: Below(reg, k, v) && Reflexive(reg, v)
  }

  /** The answer is inheritance along those implications, for every declared predicate. */
  ghost predicate Agrees(reg: Registry) {
    forall k | k in reg.byCanon && k != "" :: ReachesReflexive(reg, k) <==> Inherits(reg, k)
  }

  /** What is reached as spelled is implied. */
  lemma {:induction false} SpelledIsBelow(reg: Registry, k: Pred, v: Pred, n: nat)
    requires Settled(reg) && k != "" && v in reg.byCanon && ReachIn(SpelledEdges(reg), k, v, n)
    ensures Below(reg, k, v)
    decreases n
  {
    if n == 0 {
      ReachSelf(SuperEdges(reg), k);
    } else {
      var c :| (k, c) in SpelledEdges(reg) && ReachIn(SpelledEdges(reg), c, v, n - 1);
      assert c in reg.byCanon by {
        if n > 1 {
          var d :| (c, d) in SpelledEdges(reg) && ReachIn(SpelledEdges(reg), d, v, n - 2);
        }
      }
      SpelledIsBelow(reg, c, v, n - 1);
      var i :| 0 <= i < |reg.byCanon[k].supers| && (k, c) == (k, reg.byCanon[k].supers[i]) && c != "";
      EdgeTo(reg, k, i);
      ReachEdge(SuperEdges(reg), k, c);
      ReachTrans(SuperEdges(reg), k, c, v);
    }
  }

  lemma ReachedIsInherited(reg: Registry, k: Pred)
    requires Settled(reg) && k != "" && ReachesReflexive(reg, k)
    ensures Inherits(reg, k)
  {
    var v :| Reach(SpelledEdges(reg), k, v) && Reflexive(reg, v);
    var n: nat :| ReachIn(SpelledEdges(reg), k, v, n);
    SpelledIsBelow(reg, k, v, n);
  }

  /** Wherever a super-property is declared by an alias and would pass on reflexivity, the predicate has it anyway. */
  ghost predicate AliasesHarmless(reg: Registry) {
    forall k, i | k in reg.byCanon && k != "" && 0 <= i < |reg.byCanon[k].supers| :: AliasHarmless(reg, k, reg.byCanon[k].supers[i])
  }

  ghost predicate AliasHarmless(reg: Registry, k: Pred, sup: Pred) {
    Canon(reg, sup) != sup && Inherits(reg, Canon(reg, sup)) ==> ReachesReflexive(reg, k)
  }

  lemma {:induction false} InheritedIsReached(reg: Registry, k: Pred, v: Pred, n: nat)
    requires AliasesHarmless(reg) && k != "" && Reflexive(reg, v) && ReachIn(SuperEdges(reg), k, v, n)
    ensures ReachesReflexive(reg, k)
    decreases n
  {
    if n == 0 {
      ReachSelf(SpelledEdges(reg), k);
    } else {
      var c :| (k, c) in SuperEdges(reg) && ReachIn(SuperEdges(reg), c, v, n - 1);
      var i :| 0 <= i < |reg.byCanon[k].supers| && (k, c) == (k, Canon(reg, reg.byCanon[k].supers[i])) && c != "";
      var sup := reg.byCanon[k].supers[i];
      assert Below(reg, c, v) && Inherits(reg, c);
      assert AliasHarmless(reg, k, sup);
      if sup == c {
        InheritedIsReached(reg, c, v, n - 1);
        ReachesVia(reg, k, c);
      }
    }
  }

  /** The answers agree with the rest of the reasoner exactly if no alias does harm. */
  lemma AgreesIffAliasesHarmless(reg: Registry)
    requires Settled(reg)
    ensures Agrees(reg) <==> AliasesHarmless(reg)
  {
    if AliasesHarmless(reg) {
      forall k | k in reg.byCanon && k != "" ensures ReachesReflexive(reg, k) <==> Inherits(reg, k) {
        if ReachesReflexive(reg, k) {
          ReachedIsInherited(reg, k);
        }
        if Inherits(reg, k) {
          var v :| Below(reg, k, v) && Reflexive(reg, v);
          var n: nat :| ReachIn(SuperEdges(reg), k, v, n);
          InheritedIsReached(reg, k, v, n);
        }
      }
    }
    if Agrees(reg) {
      forall k, i | k in reg.byCanon && k != "" && 0 <= i < |reg.byCanon[k].supers|
        ensures AliasHarmless(reg, k, reg.byCanon[k].supers[i])
      {
        var c := Canon(reg, reg.byCanon[k].supers[i]);
        if Inherits(reg, c) {
          var v :| Below(reg, c, v) && Reflexive(reg, v);
          EdgeTo(reg, k, i);
          ReachEdge(SuperEdges(reg), k, c);
          ReachTrans(SuperEdges(reg), k, c, v);
          assert Below(reg, k, v);
        }
      }
    }
  }

  /** The registry with other predicates declared reflexive. */
  ghost function Flagged(reg: Registry, flags: set<Pred>): Registry {
    reg.(byCanon := map k | k in reg.byCanon :: reg.byCanon[k].(reflexive := k in flags))
  }

  /** Every declared predicate that is implied can be reached as spelled. */
  ghost predicate SpelledOut(reg: Registry) {
    forall k, v | k in reg.byCanon && k != "" && v in reg.byCanon && Below(reg, k, v) :: Reach(SpelledEdges(reg), k, v)
  }

  lemma SameHierarchy(reg: Registry, flags: set<Pred>)
    ensures SpelledEdges(Flagged(reg, flags)) == SpelledEdges(reg) && SuperEdges(Flagged(reg, flags)) == SuperEdges(reg)
    ensures Settled(reg) ==> Settled(Flagged(reg, flags))
    ensures forall k :: Reflexive(Flagged(reg, flags), k) <==> k != "" && k in reg.byCanon && k in flags
  {
    var f := Flagged(reg, flags);
    assert forall k :: Canon(f, k) == Canon(reg, k);
    forall e ensures e in SpelledEdges(f) <==> e in SpelledEdges(reg) {
      assert e.0 in reg.byCanon ==> f.byCanon[e.0].supers == reg.byCanon[e.0].supers;
    }
    forall e ensures e in SuperEdges(f) <==> e in SuperEdges(reg) {
      assert e.0 in reg.byCanon ==> f.byCanon[e.0].supers == reg.byCanon[e.0].supers;
    }
  }

  /** For a fixed hierarchy the answers agree whatever is declared reflexive, if and only if every declared predicate
      that is implied can be reached along the super-properties as they are spelled. */
  lemma AgreesForAllFlagsIff(reg: Registry)
    requires Settled(reg)
    ensures (forall flags :: Agrees(Flagged(reg, flags))) <==> SpelledOut(reg)
  {
    hide SpelledEdges, SuperEdges, Settled, Flagged;
    if SpelledOut(reg) {
      forall flags ensures Agrees(Flagged(reg, flags)) {
        SpelledOutAgrees(reg, flags);
      }
    }
    if forall flags :: Agrees(Flagged(reg, flags)) {
      forall k, v | k in reg.byCanon && k != "" && v in reg.byCanon && Below(reg, k, v) ensures Reach(SpelledEdges(reg), k, v) {
        assert Agrees(Flagged(reg, {v}));
        OneFlag(reg, k, v);
      }
    }
  }

  lemma SpelledOutAgrees(reg: Registry, flags: set<Pred>)
    requires Settled(reg) && SpelledOut(reg)
    ensures Agrees(Flagged(reg, flags))
  {
    hide SpelledEdges, SuperEdges, Settled;
    var f := Flagged(reg, flags);
    SameHierarchy(reg, flags);
    forall k | k in f.byCanon && k != "" ensures ReachesReflexive(f, k) <==> Inherits(f, k) {
      if ReachesReflexive(f, k) {
        ReachedIsInherited(f, k);
      }
      if Inherits(f, k) {
        var v :| Below(f, k, v) && Reflexive(f, v);
        assert Below(reg, k, v) && Reach(SpelledEdges(reg), k, v);
      }
    }
  }

  lemma OneFlag(reg: Registry, k: Pred, v: Pred)
    requires Settled(reg) && Agrees(Flagged(reg, {v})) && k in reg.byCanon && k != "" && v in reg.byCanon && Below(reg, k, v)
    ensures Reach(SpelledEdges(reg), k, v)
  {
    var f := Flagged(reg, {v});
    SameHierarchy(reg, {v});
    BelowNotBlank(reg, k, v);
    assert Below(f, k, v) && Reflexive(f, v);
    assert k in f.byCanon && ReachesReflexive(f, k);
    var w :| Reach(SpelledEdges(f), k, w) && Reflexive(f, w);
  }

  lemma BelowNotBlank(reg: Registry, k: Pred, v: Pred)
    requires Below(reg, k, v)
    ensures v != ""
  {
    EdgesAreCanonical(reg);
    var n: nat :| ReachIn(SuperEdges(reg), k, v, n);
    EndNotBlank(reg, k, v, n);
  }

  lemma {:induction false} EndNotBlank(reg: Registry, k: Pred, v: Pred, n: nat)
    requires k != "" && ReachIn(SuperEdges(reg), k, v, n)
    ensures v != ""
    decreases n
  {
    if n > 0 {
      EdgesAreCanonical(reg);
      var c :| (k, c) in SuperEdges(reg) && ReachIn(SuperEdges(reg), c, v, n - 1);
      EndNotBlank(reg, c, v, n - 1);
    }
  }

  /** Super-properties that are declared by their canonical names are spelled out. */
  lemma CanonicalIsSpelledOut(reg: Registry)
    requires forall k, i | k in reg.byCanon && 0 <= i < |reg.byCanon[k].supers| ::
               Canon(reg, reg.byCanon[k].supers[i]) == reg.byCanon[k].supers[i]
    ensures SpelledOut(reg)
  {
    assert SuperEdges(reg) <= SpelledEdges(reg) by {
      forall e | e in SuperEdges(reg) ensures e in SpelledEdges(reg) {
        var i :| 0 <= i < |reg.byCanon[e.0].supers| && e == (e.0, Canon(reg, reg.byCanon[e.0].supers[i])) && e.1 != "";
        assert e == (e.0, reg.byCanon[e.0].supers[i]);
      }
    }
    forall k, v | k in reg.byCanon && k != "" && v in reg.byCanon && Below(reg, k, v) ensures Reach(SpelledEdges(reg), k, v) {
      ReachMore(SuperEdges(reg), SpelledEdges(reg), k, v);
    }
  }

  /** Declares q, reflexive and also known as r, and p below it by that other name. */
  function AliasedSuper(): seq<Meta> {
    [Meta("q", "q", "", [], false, true, {}, {}), Meta("r", "q", "", [], false, true, {}, {}),
     Meta("p", "p", "", ["r"], false, false, {}, {})]
  }

  /** A super-property declared by an alias passes on nothing, although the hierarchy knows the implication. */
  lemma AliasLosesReflexivity(reg: Registry)
    requires forall k :: Lookup(reg.byRaw, k) == RawEntry(AliasedSuper(), k)
    requires forall k :: Lookup(reg.byCanon, k) == CanonEntry(AliasedSuper(), k)
    ensures Settled(reg) && Below(reg, "p", "q") && Reflexive(reg, "q") && !ReachesReflexive(reg, "p")
  {
    UnshadowedIsSettled(AliasedSuper(), reg);
    var m := AliasedSuper();
    assert m[..2][..1] == m[..1] && m[..1][..0] == [];
    forall k ensures k in reg.byCanon <==> k == "p" || k == "q" {
      assert Lookup(reg.byCanon, k) == CanonEntry(m, k);
      assert CanonEntry(m[..1], k).Some? <==> k == "q";
      assert CanonEntry(m[..2], k).Some? <==> k == "q";
    }
    assert Lookup(reg.byCanon, "p") == CanonEntry(m, "p") == Some(m[2]);
    assert Lookup(reg.byCanon, "q") == CanonEntry(m, "q") == Some(m[1]);
    assert Lookup(reg.byRaw, "r") == RawEntry(m, "r") == Some(m[1]);
    EdgeTo(reg, "p", 0);
    ReachEdge(SuperEdges(reg), "p", "q");
    assert Closed(SpelledEdges(reg), {"p", "r"});
    forall v | Reach(SpelledEdges(reg), "p", v) ensures !Reflexive(reg, v) {
      ClosedReach(SpelledEdges(reg), {"p", "r"}, "p", v);
    }
  }
}
