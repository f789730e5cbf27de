/** Evidence, the proofs composed from it, their confidence and their ranking (pkg/reasoning/conditional.go). */
module Proofs {
  import opened Claims
  import opened Options
  import opened Powers
  import opened Rules

  datatype Evidence = Evidence(claim: Claim, confidence: real, proof: Option<Proof>)

  datatype Branch = Branch(bindings: Bindings, evidence: seq<Evidence>)

  // ------------------------------------------------------------------ pure helpers

  function Clamp01(x: real): (r: real)
    ensures 0.0 <= r <= 1.0 && (0.0 <= x <= 1.0 ==> r == x)
    ensures x <= 0.0 ==> r == 0.0
    ensures x >= 1.0 ==> r == 1.0
  {
    if x < 0.0 then 0.0 else if x > 1.0 then 1.0 else x
  }

  ghost function FreeEndpoints(p: Pattern, b: Bindings): nat {
    (if Resolve(p.subj, b) == NoName then 1 else 0) + (if Resolve(p.obj, b) == NoName then 1 else 0)
  }

  ghost function Score(p: Pattern, b: Bindings): nat {
    FreeEndpoints(p, b) + if p.negated && FreeEndpoints(p, b) > 0 then 10 else 0
  }

  ghost function RemoveAt<T>(q: seq<T>, i: nat): seq<T>
    requires i < |q|
  {
    q[..i] + q[i + 1..]
  }

  /** The compiled rules whose consequent has the claimed predicate, in order. */
  function RulesFor(t: Theory, rules: seq<Rule>, pred: Pred): seq<Rule> {
    if rules == [] then []
    else RulesFor(t, rules[..|rules| - 1], pred)
         + if t.canon(rules[|rules| - 1].consequent.pred) == pred then [rules[|rules| - 1]] else []
  }

  lemma {:induction false} RulesForHasAll(t: Theory, rules: seq<Rule>, pred: Pred)
    ensures forall r :: r in RulesFor(t, rules, pred) <==> r in rules && t.canon(r.consequent.pred) == pred
    decreases |rules|
  {
    if rules != [] {
      var init, last := rules[..|rules| - 1], rules[|rules| - 1];
      RulesForHasAll(t, init, pred);
      assert rules == init + [last];
    }
  }

  /** The product of the clamped confidences, and all the proof steps, of the evidence. */
  ghost function Product(evidence: seq<Evidence>): (r: real)
    ensures 0.0 <= r <= 1.0
  {
    if evidence == [] then 1.0
    else Times(Product(evidence[..|evidence| - 1]), Clamp01(evidence[|evidence| - 1].confidence))
  }

  lemma InUnit(x: real, y: real)
    requires 0.0 <= x <= 1.0 && 0.0 <= y <= 1.0
    ensures 0.0 <= x * y <= x && x * y <= y
  {
    Scaled(x, y);
    NotNegative(1.0 - x, y);
    assert (1.0 - x) * y == y - x * y;
  }

  /** The product of two confidences, no greater than either. */
  ghost function Times(x: real, y: real): (r: real)
    requires 0.0 <= x <= 1.0 && 0.0 <= y <= 1.0
    ensures 0.0 <= r <= x && r <= y
  {
    InUnit(x, y);
    var product := x * y;
    assert 0.0 <= product <= x && product <= y;
    product
  }

  ghost function StepsOf(evidence: seq<Evidence>): seq<Step> {
    if evidence == [] then []
    else StepsOf(evidence[..|evidence| - 1])
         + if evidence[|evidence| - 1].proof.Some? then evidence[|evidence| - 1].proof.value.steps else []
  }

  /** The confidences of the rule and of the evidence multiplied, and decayed once for each step. */
  ghost function Certainty(decay: real, rule: real, evidence: seq<Evidence>, steps: nat): real {
    Clamp01(Decayed(Times(Clamp01(rule), Product(evidence)), decay, steps))
  }

  function Decayed(x: real, decay: real, n: nat): real {
    x * Pow(decay, n)
  }

  ghost function ComposeProof(t: Theory, r: Rule, c: Claim, branch: Branch): Proof {
    var steps := StepsOf(branch.evidence)
                 + [Step("rule:" + r.id, "conditional", c.pred, c.subj, c.obj, Clamp01(r.confidence))];
    Proof(c.subj, c.obj, c.pred, "conditional", steps, Certainty(t.cfg.decay, r.confidence, branch.evidence, |steps|))
  }

  /** Compose a proof of the claim from the evidence of a branch. */
  method Compose(t: Theory, r: Rule, c: Claim, branch: Branch) returns (proof: Proof)
    ensures proof == ComposeProof(t, r, c, branch)
  {
    hide Product, StepsOf, Times, Decayed, Clamp01, Pow;
    var evidence := branch.evidence;
    var steps: seq<Step> := [];
    var product := 1.0;
    NoEvidence();
    assert evidence[..0] == [];
    for i := 0 to |evidence|
      invariant product == Product(evidence[..i]) && steps == StepsOf(evidence[..i])
    {
      MoreEvidence(evidence, i);
      product := product * Clamp01(evidence[i].confidence);
      if evidence[i].proof.Some? {
        steps := steps + evidence[i].proof.value.steps;
      }
    }
    assert evidence[..|evidence|] == evidence;
    steps := steps + [Step("rule:" + r.id, "conditional", c.pred, c.subj, c.obj, Clamp01(r.confidence))];
    var undecayed := Clamp01(r.confidence) * product;
    TimesIs(Clamp01(r.confidence), product);
    var confidence := Clamp01(Decayed(undecayed, t.cfg.decay, |steps|));
    assert undecayed == Times(Clamp01(r.confidence), Product(evidence));
    assert confidence == Certainty(t.cfg.decay, r.confidence, evidence, |steps|);
    return Proof(c.subj, c.obj, c.pred, "conditional", steps, confidence);
  }

  lemma NoEvidence()
    ensures Product([]) == 1.0 && StepsOf([]) == []
  {}

  lemma MoreEvidence(evidence: seq<Evidence>, i: nat)
    requires i < |evidence|
    ensures Product(evidence[..i + 1]) == Product(evidence[..i]) * Clamp01(evidence[i].confidence)
    ensures StepsOf(evidence[..i + 1])
            == StepsOf(evidence[..i]) + if evidence[i].proof.Some? then evidence[i].proof.value.steps else []
  {
    hide Clamp01;
    assert evidence[..i + 1][..i] == evidence[..i];
    TimesIs(Product(evidence[..i]), Clamp01(evidence[i].confidence));
  }

  lemma TimesIs(x: real, y: real)
    requires 0.0 <= x <= 1.0 && 0.0 <= y <= 1.0
    ensures Times(x, y) == x * y
  {}

  // ------------------------------------------------------------------ sorting the proofs

  predicate Descending(q: seq<Proof>) {
    forall i, j | 0 <= i < j < |q| :: q[i].confidence >= q[j].confidence
  }

  lemma AllAbove(q: seq<Proof>, s: seq<Proof>, p: Proof)
    requires Descending(q) && q != [] && q[|q| - 1].confidence < p.confidence
    requires forall x :: x in s <==> x in q[..|q| - 1] || x == p
    ensures forall i | 0 <= i < |s| :: s[i].confidence >= q[|q| - 1].confidence
  {
    forall i | 0 <= i < |s| ensures s[i].confidence >= q[|q| - 1].confidence {
      assert s[i] in s;
      if s[i] != p {
        var j :| 0 <= j < |q| - 1 && q[j] == s[i];
      }
    }
  }

  /** The proofs with this confidence, in order. */
  ghost function WithConfidence(q: seq<Proof>, x: real): seq<Proof> {
    if q == [] then []
    else WithConfidence(q[..|q| - 1], x) + if q[|q| - 1].confidence == x then [q[|q| - 1]] else []
  }

  /** The same proofs, and equally confident ones in the same order. */
  ghost predicate SameInOrder(q: seq<Proof>, r: seq<Proof>) {
    multiset(q) == multiset(r) && forall x :: WithConfidence(q, x) == WithConfidence(r, x)
  }

  lemma WithConfidenceMore(q: seq<Proof>, p: Proof, x: real)
    ensures WithConfidence(q + [p], x) == WithConfidence(q, x) + if p.confidence == x then [p] else []
  {
    assert (q + [p])[..|q|] == q;
  }

  lemma {:induction false} InsertInOrder(q: seq<Proof>, p: Proof, x: real)
    requires Descending(q)
    ensures WithConfidence(Insert(q, p), x) == WithConfidence(q, x) + if p.confidence == x then [p] else []
    decreases |q|
  {
    hide Descending, WithConfidence;
    if q == [] || q[|q| - 1].confidence >= p.confidence {
      WithConfidenceMore(q, p, x);
    } else {
      var init, last := q[..|q| - 1], q[|q| - 1];
      InitDescends(q);
      InsertInOrder(init, p, x);
      assert q == init + [last] && Insert(q, p) == Insert(init, p) + [last];
      WithConfidenceMore(Insert(init, p), last, x);
      WithConfidenceMore(init, last, x);
    }
  }

  lemma InitDescends(q: seq<Proof>)
    requires Descending(q) && q != []
    ensures Descending(q[..|q| - 1])
  {}

  lemma {:induction false} InsertSameProofs(q: seq<Proof>, p: Proof)
    requires Descending(q)
    ensures multiset(Insert(q, p)) == multiset(q) + multiset{p}
    decreases |q|
  {
    hide Descending;
    if q != [] && q[|q| - 1].confidence < p.confidence {
      var init, last := q[..|q| - 1], q[|q| - 1];
      InitDescends(q);
      InsertSameProofs(init, p);
      assert q == init + [last] && Insert(q, p) == Insert(init, p) + [last];
    }
  }

  /** Inserting keeps the order of equals, and the new one comes last of them. */
  lemma InsertIsStable(q: seq<Proof>, p: Proof)
    requires Descending(q)
    ensures SameInOrder(Insert(q, p), q + [p])
  {
    InsertSameProofs(q, p);
    forall x ensures WithConfidence(Insert(q, p), x) == WithConfidence(q + [p], x) {
      InsertInOrder(q, p, x);
      WithConfidenceMore(q, p, x);
    }
  }

  /** Insert behind everything that is at least as good, so equals keep their order. */
  function Insert(q: seq<Proof>, p: Proof): (r: seq<Proof>)
    requires Descending(q)
    ensures Descending(r) && |r| == |q| + 1 && forall x :: x in r <==> x in q || x == p
  {
    if q == [] || q[|q| - 1].confidence >= p.confidence then q + [p]
    else
      var s := Insert(q[..|q| - 1], p);
      assert q == q[..|q| - 1] + [q[|q| - 1]];
      AllAbove(q, s, p);
      s + [q[|q| - 1]]
  }

  function Sorted(proofs: seq<Proof>): (r: seq<Proof>)
    ensures Descending(r) && |r| == |proofs|
  {
    if proofs == [] then [] else Insert(Sorted(proofs[..|proofs| - 1]), proofs[|proofs| - 1])
  }

  /** Sorting only rearranges, and keeps equally confident proofs in their order. */
  lemma {:induction false} SortedInOrder(proofs: seq<Proof>)
    ensures SameInOrder(Sorted(proofs), proofs)
    decreases |proofs|
  {
    hide Insert, SameInOrder;
    if proofs == [] {
      SameAsItself([]);
    } else {
      var init, last := proofs[..|proofs| - 1], proofs[|proofs| - 1];
      SortedInOrder(init);
      InsertIsStable(Sorted(init), last);
      StableThen(Sorted(init), init, last, Insert(Sorted(init), last));
      assert proofs == init + [last];
    }
  }

  lemma SameAsItself(q: seq<Proof>)
    ensures SameInOrder(q, q)
  {}

  method SortProofs(proofs: seq<Proof>) returns (sorted: seq<Proof>)
    ensures sorted == Sorted(proofs)
    ensures Descending(sorted) && SameInOrder(sorted, proofs)
    ensures |sorted| == |proofs| && forall p :: p in sorted <==> p in proofs
  {
    hide Insert, SameInOrder, Descending;
    sorted := [];
    for i := 0 to |proofs|
      invariant sorted == Sorted(proofs[..i])
    {
      assert proofs[..i + 1][..i] == proofs[..i];
      sorted := Insert(sorted, proofs[i]);
    }
    assert proofs[..|proofs|] == proofs;
    SortedInOrder(proofs);
    SameElements(sorted, proofs);
  }

  lemma StableThen(sorted: seq<Proof>, proofs: seq<Proof>, p: Proof, next: seq<Proof>)
    requires SameInOrder(sorted, proofs) && SameInOrder(next, sorted + [p])
    ensures SameInOrder(next, proofs + [p])
  {
    forall x ensures WithConfidence(next, x) == WithConfidence(proofs + [p], x) {
      WithConfidenceMore(sorted, p, x);
      WithConfidenceMore(proofs, p, x);
      assert WithConfidence(next, x) == WithConfidence(sorted + [p], x);
      assert WithConfidence(sorted, x) == WithConfidence(proofs, x);
    }
  }

  lemma SameElements(q: seq<Proof>, r: seq<Proof>)
    requires SameInOrder(q, r)
    ensures |q| == |r| && forall p :: p in q <==> p in r
  {
    assert |multiset(q)| == |q| && |multiset(r)| == |r|;
    assert forall p :: p in q <==> p in multiset(q);
    assert forall p :: p in r <==> p in multiset(r);
  }

  /** A proof of the claim whose last step is the rule that concluded it. */
  ghost predicate ProofFor(c: Claim, p: Proof) {
    && p.source == c.subj && p.target == c.obj && p.pred == c.pred
    && 0.0 <= p.confidence <= 1.0
    && p.steps != [] && p.steps[|p.steps| - 1].rule == "conditional" && p.steps[|p.steps| - 1].target == c.obj
  }

  /** How a result obtained by rules looks: all proofs, best first. */
  ghost predicate Ranked(c: Claim, r: EntailResult) {
    && r.all != [] && Descending(r.all) && r.best == Some(r.all[0]) && r.confidence == r.all[0].confidence
    && (forall p | p in r.all :: ProofFor(c, p))
  }

  lemma ComposedProof(t: Theory, r: Rule, c: Claim, branch: Branch)
    ensures ProofFor(c, ComposeProof(t, r, c, branch))
  {}

  // ------------------------------------------------------------------ how certain a conclusion is

  lemma Scaled(x: real, y: real)
    requires 0.0 <= x && 0.0 <= y <= 1.0
    ensures 0.0 <= x * y <= x
  {
    NotNegative(x, y);
    NotNegative(x, 1.0 - y);
    assert x * (1.0 - y) == x - x * y;
  }

  lemma NotNegative(x: real, y: real)
    requires 0.0 <= x && 0.0 <= y
    ensures 0.0 <= x * y
  {}

  lemma {:induction false} PowInUnit(decay: real, n: nat)
    requires 0.0 <= decay <= 1.0
    ensures 0.0 <= Pow(decay, n) <= 1.0
  {
    if n > 0 {
      PowInUnit(decay, n - 1);
      Scaled(Pow(decay, n - 1), decay);
    }
  }

  lemma {:induction false} ProductBelowEach(evidence: seq<Evidence>, i: nat)
    requires i < |evidence|
    ensures Product(evidence) <= Clamp01(evidence[i].confidence)
    decreases |evidence|
  {
    var init, last := evidence[..|evidence| - 1], Clamp01(evidence[|evidence| - 1].confidence);
    hide Times, Clamp01;
    assert Product(evidence) == Times(Product(init), last);
    if i < |init| {
      ProductBelowEach(init, i);
    }
  }

  lemma DecayedBelow(x: real, decay: real, n: nat)
    requires 0.0 <= x && 0.0 <= decay <= 1.0
    ensures 0.0 <= Decayed(x, decay, n) <= x
  {
    PowInUnit(decay, n);
    Scaled(x, Pow(decay, n));
  }

  lemma CertaintyBound(decay: real, rule: real, evidence: seq<Evidence>, steps: nat)
    requires 0.0 <= decay <= 1.0
    ensures Certainty(decay, rule, evidence, steps) <= Times(Clamp01(rule), Product(evidence))
  {
    hide Times, Decayed;
    DecayedBelow(Times(Clamp01(rule), Product(evidence)), decay, steps);
  }

  /** A conclusion is never more certain than its rule, nor than any piece of the evidence for it. */
  lemma NeverMoreCertain(t: Theory, r: Rule, c: Claim, branch: Branch, i: nat)
    requires 0.0 <= t.cfg.decay <= 1.0
    ensures ComposeProof(t, r, c, branch).confidence <= Clamp01(r.confidence)
    ensures i < |branch.evidence| ==> ComposeProof(t, r, c, branch).confidence <= Clamp01(branch.evidence[i].confidence)
  {
    hide Times, Certainty, Clamp01;
    CertaintyBound(t.cfg.decay, r.confidence, branch.evidence, |ComposeProof(t, r, c, branch).steps|);
    if i < |branch.evidence| {
      ProductBelowEach(branch.evidence, i);
    }
  }

  /** The confidences of all the evidence, together with those of more. */
  lemma {:induction false} ProductOfBoth(first: seq<Evidence>, second: seq<Evidence>)
    ensures Product(first + second) == Times(Product(first), Product(second)) == Product(first) * Product(second)
    decreases |second|
  {
    hide Clamp01, Times, Product;
    TimesIs(Product(first), Product(second));
    if second == [] {
      assert first + second == first;
      NoEvidence();
      TimesIs(Product(first), 1.0);
    } else {
      var init, last := second[..|second| - 1], second[|second| - 1];
      assert second == init + [last] && first + second == (first + init) + [last];
      ProductOfMore(first + init, last);
      ProductOfMore(init, last);
      ProductOfBoth(first, init);
      TimesGroup(Product(first), Product(init), Clamp01(last.confidence));
    }
  }

  lemma ProductOfMore(evidence: seq<Evidence>, e: Evidence)
    ensures Product(evidence + [e]) == Times(Product(evidence), Clamp01(e.confidence))
  {
    hide Clamp01, Times;
    assert (evidence + [e])[..|evidence|] == evidence;
  }

  lemma TimesGroup(x: real, y: real, z: real)
    requires 0.0 <= x <= 1.0 && 0.0 <= y <= 1.0 && 0.0 <= z <= 1.0
    ensures Times(Times(x, y), z) == Times(x, Times(y, z))
  {
    Regrouped(x, y, z);
  }

  lemma ProductOfOne(e: Evidence)
    ensures Product([]) == 1.0 && Product([e]) == Clamp01(e.confidence)
  {
    var one := [e];
    assert one[..0] == [];
    assert Product(one) == Times(Product(one[..0]), Clamp01(one[0].confidence));
    TimesIs(1.0, Clamp01(e.confidence));
  }

  /** The confidence of a conclusion is exactly that of the rule times that of all the evidence, decayed once a step. */
  lemma ConfidenceOfProof(t: Theory, r: Rule, c: Claim, branch: Branch)
    requires 0.0 <= t.cfg.decay <= 1.0
    ensures var proof := ComposeProof(t, r, c, branch);
            && |proof.steps| == |StepsOf(branch.evidence)| + 1
            && proof.confidence == Clamp01(r.confidence) * Product(branch.evidence) * Pow(t.cfg.decay, |proof.steps|)
  {
    hide Times, Pow, Product;
    var n := |StepsOf(branch.evidence)| + 1;
    TimesIs(Clamp01(r.confidence), Product(branch.evidence));
    DecayedBelow(Times(Clamp01(r.confidence), Product(branch.evidence)), t.cfg.decay, n);
  }

  /** Certain evidence for a certain rule loses nothing but the decay, and evidence that is worth nothing proves nothing. */
  lemma {:induction false} OnlyDecayIsLost(t: Theory, r: Rule, c: Claim, branch: Branch)
    requires 0.0 <= t.cfg.decay <= 1.0
    ensures r.confidence >= 1.0 && (forall e | e in branch.evidence :: e.confidence >= 1.0) ==>
              ComposeProof(t, r, c, branch).confidence == Pow(t.cfg.decay, |StepsOf(branch.evidence)| + 1)
    ensures r.confidence <= 0.0 || (exists e :: e in branch.evidence && e.confidence <= 0.0) ==>
              ComposeProof(t, r, c, branch).confidence == 0.0
  {
    hide Pow, Product, ComposeProof, StepsOf;
    ConfidenceOfProof(t, r, c, branch);
    if forall e | e in branch.evidence :: e.confidence >= 1.0 {
      CertainProduct(branch.evidence);
    }
    if r.confidence <= 0.0 {
      NeverMoreCertain(t, r, c, branch, |branch.evidence|);
    }
    if e :| e in branch.evidence && e.confidence <= 0.0 {
      var i :| 0 <= i < |branch.evidence| && branch.evidence[i] == e;
      NeverMoreCertain(t, r, c, branch, i);
    }
    ComposedProof(t, r, c, branch);
  }

  lemma {:induction false} CertainProduct(evidence: seq<Evidence>)
    requires forall e | e in evidence :: e.confidence >= 1.0
    ensures Product(evidence) == 1.0
    decreases |evidence|
  {
    if evidence != [] {
      CertainProduct(evidence[..|evidence| - 1]);
      assert evidence[|evidence| - 1] in evidence;
    }
  }

  /** The steps of a proof are those of the evidence, in order, and then the rule. */
  lemma {:induction false} StepsInOrder(first: seq<Evidence>, second: seq<Evidence>)
    ensures StepsOf(first + second) == StepsOf(first) + StepsOf(second)
    decreases |second|
  {
    if second == [] {
      assert first + second == first;
    } else {
      var init := second[..|second| - 1];
      assert (first + second)[..|first + second| - 1] == first + init;
      StepsInOrder(first, init);
    }
  }
}
