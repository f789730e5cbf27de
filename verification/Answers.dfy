/** What backward chaining answers as long as no budget stops it (pkg/reasoning/conditional.go): exceptions, negated
    conditions and values offered by the oracle included. The search is proved to give these answers; here they are
    characterized without any order of evaluation. */
module Answers {
  import opened Claims
  import opened Options
  import opened Rules
  import opened Proofs

  // ------------------------------------------------------------------ conditions

  ghost predicate BothBound(p: Pattern, b: Bindings) {
    Resolve(p.subj, b) != NoName && Resolve(p.obj, b) != NoName
  }

  /** The variable of the one free end, for which a condition that is not negated looks for values. */
  ghost function FreeEnd(p: Pattern, b: Bindings): Option<Var> {
    if p.negated || Resolve(p.subj, b) == Resolve(p.obj, b) == NoName then None
    else if Resolve(p.subj, b) != NoName then p.obj.variable
    else p.subj.variable
  }

  /** The values that the oracle offers for the free end, as many as the limit allows. */
  ghost function Offered(t: Theory, claim: Claim): seq<Name> {
    match t.bindings(claim.pred, claim.subj, claim.obj)
    case Failed => []
    case Done(values) => if |values| > t.cfg.maxBindings then values[..t.cfg.maxBindings] else values
  }

  /** The first condition with the fewest free ends. */
  ghost function Chosen(conditions: seq<Pattern>, b: Bindings): (k: nat)
    requires conditions != []
    ensures k < |conditions|
    ensures forall i | 0 <= i < |conditions| :: Score(conditions[k], b) <= Score(conditions[i], b)
    ensures forall i | 0 <= i < k :: Score(conditions[k], b) < Score(conditions[i], b)
  {
    if |conditions| == 1 then 0
    else
      var best := Chosen(conditions[..|conditions| - 1], b);
      if Score(conditions[|conditions| - 1], b) < Score(conditions[best], b) then |conditions| - 1 else best
  }

  lemma ChosenOfOne(conditions: seq<Pattern>, b: Bindings)
    requires conditions != []
    ensures Chosen(conditions[..1], b) == 0
  {}

  lemma ChosenMore(conditions: seq<Pattern>, i: nat, b: Bindings)
    requires 0 < i < |conditions|
    ensures var best := Chosen(conditions[..i], b);
            Chosen(conditions[..i + 1], b) == if Score(conditions[i], b) < Score(conditions[best], b) then i else best
  {
    hide Score;
    assert conditions[..i + 1][..i] == conditions[..i];
  }

  // ------------------------------------------------------------------ the answers

  /** The answer to a claim with n levels of rules left, while the keys in A are being tried. */
  ghost function AnswerTo(t: Theory, c: Claim, A: set<ActiveKey>, n: nat): EntailResult
    decreases n, 3
  {
    if t.base(c).Failed? then NO_SUPPORT
    else if t.base(c).value.verdict == Entailed || t.base(c).value.verdict == Contradicted then t.base(c).value
    else if !Grounded(c) then NO_SUPPORT
    else RankedResult(ProofsBy(t, RulesFor(t, t.rules, c.pred), c, A, n))
  }

  ghost function RankedResult(proofs: seq<Proof>): EntailResult {
    if proofs == [] then NO_SUPPORT
    else EntailResult(Entailed, Sorted(proofs)[0].confidence, Some(Sorted(proofs)[0]), Sorted(proofs))
  }

  ghost function ProofsBy(t: Theory, rules: seq<Rule>, c: Claim, A: set<ActiveKey>, n: nat): seq<Proof>
    decreases n, 2, |rules|
  {
    if rules == [] then []
    else ProofsBy(t, rules[..|rules| - 1], c, A, n)
         + match ProofBy(t, rules[|rules| - 1], c, A, n)
           case None => []
           case Some(p) => [p]
  }

  /** The proof by one rule, if there is one. */
  ghost function ProofBy(t: Theory, r: Rule, c: Claim, A: set<ActiveKey>, n: nat): Option<Proof>
    decreases n, 1
  {
    if r.consequent.negated || n == 0 || UnifyConsequent(t, r.consequent, c).None? || KeyOf(t, r, c) in A then None
    else
      var A' := A + {KeyOf(t, r, c)};
      BestOf(t, r, c, BranchesOf(t, r.conditions, UnifyConsequent(t, r.consequent, c).value, [], A', n - 1), A', n - 1)
  }

  /** The first of the most confident proofs by branches that no exception stops. */
  ghost function BestOf(t: Theory, r: Rule, c: Claim, branches: seq<Branch>, A: set<ActiveKey>, n: nat): Option<Proof>
    decreases n, 7, |branches|
  {
    if branches == [] then None
    else
      var last := branches[|branches| - 1];
      var best := BestOf(t, r, c, branches[..|branches| - 1], A, n);
      if Stopped(t, r.exceptions, last.bindings, A, n)
         || (best.Some? && ComposeProof(t, r, c, last).confidence <= best.value.confidence) then best
      else Some(ComposeProof(t, r, c, last))
  }

  /** Some exception stops the rule under the bindings. */
  ghost predicate Stopped(t: Theory, exceptions: seq<Pattern>, b: Bindings, A: set<ActiveKey>, n: nat)
    decreases n, 6
  {
    exists e :: e in exceptions && Stops(t, e, b, A, n)
  }

  /** A negated exception stops the rule if it does not hold, another if it holds with enough confidence. */
  ghost predicate Stops(t: Theory, e: Pattern, b: Bindings, A: set<ActiveKey>, n: nat)
    decreases n, 5
  {
    && BothBound(e, b) && t.canon(e.pred) != NO_PRED
    && var held := HoldingOf(t, Ground(t, e, b), A, n);
       if e.negated then !held.ok else held.ok && held.confidence >= t.cfg.exceptionThreshold
  }

  ghost function HoldingOf(t: Theory, given: Claim, A: set<ActiveKey>, n: nat): Held
    decreases n, 4
  {
    var c := CanonicalClaim(t, given);
    if !Grounded(c) then Held(false, 0.0, None)
    else
      var r := AnswerTo(t, c, A, n);
      if r.verdict == Entailed then Held(true, r.confidence, r.best)
      else if t.holds(c).Done? then t.holds(c).value
      else Held(false, 0.0, None)
  }

  /** The branches in which the conditions hold together, in the order in which they are found. */
  ghost function BranchesOf(t: Theory, conditions: seq<Pattern>, b: Bindings, evidence: seq<Evidence>, A: set<ActiveKey>, n: nat): seq<Branch>
    decreases n, 9, |conditions|, 0, 0
  {
    if conditions == [] then [Branch(b, evidence)]
    else
      var k := Chosen(conditions, b);
      RestOf(t, RemoveAt(conditions, k), BranchesFor(t, conditions[k], b, A, n), evidence, A, n)
  }

  ghost function RestOf(t: Theory, rest: seq<Pattern>, branches: seq<Branch>, evidence: seq<Evidence>, A: set<ActiveKey>, n: nat): seq<Branch>
    decreases n, 9, |rest|, 1, |branches|
  {
    if branches == [] then []
    else
      var last := branches[|branches| - 1];
      RestOf(t, rest, branches[..|branches| - 1], evidence, A, n) + BranchesOf(t, rest, last.bindings, evidence + last.evidence, A, n)
  }

  /** The ways in which one condition holds. */
  ghost function BranchesFor(t: Theory, p: Pattern, b: Bindings, A: set<ActiveKey>, n: nat): seq<Branch>
    decreases n, 8
  {
    var claim := Ground(t, p, b);
    if claim.pred == NO_PRED then []
    else if BothBound(p, b) then BranchIf(t, p, claim, b, A, n)
    else if FreeEnd(p, b).None? then []
    else ValuesOf(t, p, b, FreeEnd(p, b).value, Offered(t, claim), A, n)
  }

  /** The one way in which a condition without free ends can hold. */
  ghost function BranchIf(t: Theory, p: Pattern, claim: Claim, b: Bindings, A: set<ActiveKey>, n: nat): seq<Branch>
    decreases n, 5
  {
    var held := HoldingOf(t, claim, A, n);
    if p.negated == held.ok then []
    else if p.negated then [Branch(b, [Evidence(claim, 1.0, None)])]
    else [Branch(b, [Evidence(claim, Clamp01(held.confidence), held.proof)])]
  }

  /** One branch for each value with which the condition holds. */
  ghost function ValuesOf(t: Theory, p: Pattern, b: Bindings, free: Var, values: seq<Name>, A: set<ActiveKey>, n: nat): seq<Branch>
    decreases n, 7, |values|
  {
    if values == [] then []
    else
      ValuesOf(t, p, b, free, values[..|values| - 1], A, n) + BranchWith(t, p, b, free, values[|values| - 1], A, n)
  }

  ghost function BranchWith(t: Theory, p: Pattern, b: Bindings, free: Var, value: Name, A: set<ActiveKey>, n: nat): seq<Branch>
    decreases n, 6
  {
    match Bind(t, b, free, value)
    case None => []
    case Some(next) =>
      var claim := Ground(t, p, next);
      if claim.subj == NoName || claim.obj == NoName then [] else BranchIf(t, p, claim, next, A, n)
  }

  // ------------------------------------------------------------------ one step at a time

  lemma ValuesMore(t: Theory, p: Pattern, b: Bindings, free: Var, values: seq<Name>, i: nat, A: set<ActiveKey>, n: nat)
    requires i < |values|
    ensures ValuesOf(t, p, b, free, values[..i + 1], A, n) == ValuesOf(t, p, b, free, values[..i], A, n) + BranchWith(t, p, b, free, values[i], A, n)
  {
    hide BranchWith;
    assert values[..i + 1][..i] == values[..i];
  }

  lemma RestMore(t: Theory, rest: seq<Pattern>, branches: seq<Branch>, i: nat, evidence: seq<Evidence>, A: set<ActiveKey>, n: nat)
    requires i < |branches|
    ensures RestOf(t, rest, branches[..i + 1], evidence, A, n)
            == RestOf(t, rest, branches[..i], evidence, A, n)
               + BranchesOf(t, rest, branches[i].bindings, evidence + branches[i].evidence, A, n)
  {
    hide BranchesOf;
    assert branches[..i + 1][..i] == branches[..i];
  }

  lemma BestMore(t: Theory, r: Rule, c: Claim, branches: seq<Branch>, i: nat, A: set<ActiveKey>, n: nat)
    requires i < |branches|
    ensures var best, proof := BestOf(t, r, c, branches[..i], A, n), ComposeProof(t, r, c, branches[i]);
            BestOf(t, r, c, branches[..i + 1], A, n)
            == if Stopped(t, r.exceptions, branches[i].bindings, A, n) || (best.Some? && proof.confidence <= best.value.confidence)
               then best else Some(proof)
  {
    hide Stopped, ComposeProof;
    assert branches[..i + 1][..i] == branches[..i];
  }

  lemma ProofsMore(t: Theory, rules: seq<Rule>, i: nat, c: Claim, A: set<ActiveKey>, n: nat)
    requires i < |rules|
    ensures ProofsBy(t, rules[..i + 1], c, A, n)
            == ProofsBy(t, rules[..i], c, A, n) + match ProofBy(t, rules[i], c, A, n) case None => [] case Some(p) => [p]
  {
    hide ProofBy;
    assert rules[..i + 1][..i] == rules[..i];
  }

  lemma BranchesStep(t: Theory, conditions: seq<Pattern>, b: Bindings, evidence: seq<Evidence>, A: set<ActiveKey>, n: nat)
    ensures conditions == [] ==> BranchesOf(t, conditions, b, evidence, A, n) == [Branch(b, evidence)]
    ensures conditions != [] ==>
              var k := Chosen(conditions, b);
              BranchesOf(t, conditions, b, evidence, A, n)
              == RestOf(t, RemoveAt(conditions, k), BranchesFor(t, conditions[k], b, A, n), evidence, A, n)
  {
    hide RestOf, BranchesFor, Chosen;
  }

  lemma BranchesForStep(t: Theory, p: Pattern, b: Bindings, A: set<ActiveKey>, n: nat)
    ensures var claim := Ground(t, p, b);
            BranchesFor(t, p, b, A, n)
            == if claim.pred == NO_PRED then []
               else if BothBound(p, b) then BranchIf(t, p, claim, b, A, n)
               else if FreeEnd(p, b).None? then []
               else ValuesOf(t, p, b, FreeEnd(p, b).value, Offered(t, claim), A, n)
  {
    hide BranchIf, ValuesOf;
  }

  lemma ProofByStep(t: Theory, r: Rule, c: Claim, A: set<ActiveKey>, n: nat)
    ensures var A' := A + {KeyOf(t, r, c)};
            ProofBy(t, r, c, A, n)
            == if r.consequent.negated || n == 0 || UnifyConsequent(t, r.consequent, c).None? || KeyOf(t, r, c) in A then None
               else BestOf(t, r, c, BranchesOf(t, r.conditions, UnifyConsequent(t, r.consequent, c).value, [], A', n - 1), A', n - 1)
  {
    hide BestOf, BranchesOf;
  }

  lemma AnswerStep(t: Theory, c: Claim, A: set<ActiveKey>, n: nat)
    requires t.base(c).Done?
    ensures var verdict := t.base(c).value.verdict;
            AnswerTo(t, c, A, n)
            == if verdict == Entailed || verdict == Contradicted then t.base(c).value
               else if !Grounded(c) then NO_SUPPORT
               else RankedResult(ProofsBy(t, RulesFor(t, t.rules, c.pred), c, A, n))
  {
    hide ProofsBy, RankedResult;
  }

  // ------------------------------------------------------------------ which bindings are reached

  /** A grounded condition holds, or fails to if it is negated. */
  ghost predicate Meets(t: Theory, p: Pattern, b: Bindings, A: set<ActiveKey>, n: nat) {
    HoldingOf(t, Ground(t, p, b), A, n).ok != p.negated
  }

  /** The condition leads from the bindings to the next: it holds as it stands, or with a value offered for its free end. */
  ghost predicate Leads(t: Theory, p: Pattern, b: Bindings, next: Bindings, A: set<ActiveKey>, n: nat) {
    && t.canon(p.pred) != NO_PRED && BothBound(p, next) && Meets(t, p, next, A, n)
    && if BothBound(p, b) then next == b
       else
         && FreeEnd(p, b).Some?
         && exists value :: value in Offered(t, Ground(t, p, b)) && value != NoName && next == b[FreeEnd(p, b).value := value]
  }

  /** The conditions, each time the first with the fewest free ends, lead from the one to the other. */
  ghost predicate LeadsThrough(t: Theory, conditions: seq<Pattern>, b: Bindings, b': Bindings, A: set<ActiveKey>, n: nat)
    decreases |conditions|
  {
    if conditions == [] then b' == b
    else
      var k := Chosen(conditions, b);
      exists next :: Leads(t, conditions[k], b, next, A, n) && LeadsThrough(t, RemoveAt(conditions, k), next, b', A, n)
  }

  /** Some branch has the bindings. */
  ghost predicate HasBindings(branches: seq<Branch>, b: Bindings) {
    exists x :: x in branches && x.bindings == b
  }

  lemma HasMore(q: seq<Branch>, r: seq<Branch>, b: Bindings)
    ensures HasBindings(q + r, b) <==> HasBindings(q, b) || HasBindings(r, b)
  {}

  lemma OneMeets(t: Theory, p: Pattern, b: Bindings, A: set<ActiveKey>, n: nat, next: Bindings)
    ensures HasBindings(BranchIf(t, p, Ground(t, p, b), b, A, n), next) <==> next == b && Meets(t, p, b, A, n)
  {
    hide HoldingOf, Ground;
    var q := BranchIf(t, p, Ground(t, p, b), b, A, n);
    assert q == [] || q[0] in q;
  }

  lemma {:induction false} ValuesIff(t: Theory, p: Pattern, b: Bindings, free: Var, values: seq<Name>, A: set<ActiveKey>, n: nat, next: Bindings)
    ensures HasBindings(ValuesOf(t, p, b, free, values, A, n), next) <==>
              && BothBound(p, next) && Meets(t, p, next, A, n)
              && exists value :: value in values && Bind(t, b, free, value) == Some(next)
    decreases |values|
  {
    hide BranchIf, Meets, Bind, BothBound;
    if values != [] {
      var init, last := values[..|values| - 1], values[|values| - 1];
      ValuesIff(t, p, b, free, init, A, n, next);
      HasMore(ValuesOf(t, p, b, free, init, A, n), BranchWith(t, p, b, free, last, A, n), next);
      BranchWithIff(t, p, b, free, last, A, n, next);
      assert values == init + [last];
    }
  }

  lemma BranchWithIff(t: Theory, p: Pattern, b: Bindings, free: Var, value: Name, A: set<ActiveKey>, n: nat, next: Bindings)
    ensures HasBindings(BranchWith(t, p, b, free, value, A, n), next) <==>
              Bind(t, b, free, value) == Some(next) && BothBound(p, next) && Meets(t, p, next, A, n)
  {
    hide BranchIf, Meets, Bind;
    if Bind(t, b, free, value).Some? {
      OneMeets(t, p, Bind(t, b, free, value).value, A, n, next);
    }
  }

  lemma LeadsIff(t: Theory, p: Pattern, b: Bindings, A: set<ActiveKey>, n: nat, next: Bindings)
    ensures HasBindings(BranchesFor(t, p, b, A, n), next) <==> Leads(t, p, b, next, A, n)
  {
    hide BranchIf, ValuesOf, Meets, Offered;
    BranchesForStep(t, p, b, A, n);
    OneMeets(t, p, b, A, n, next);
    if FreeEnd(p, b).Some? {
      var free := FreeEnd(p, b).value;
      ValuesIff(t, p, b, free, Offered(t, Ground(t, p, b)), A, n, next);
      assert BothBound(p, b) || forall value :: Bind(t, b, free, value) == Some(next) <==> value != NoName && next == b[free := value];
    }
  }

  lemma {:induction false} RestIff(t: Theory, rest: seq<Pattern>, branches: seq<Branch>, evidence: seq<Evidence>, A: set<ActiveKey>, n: nat, b: Bindings)
    ensures HasBindings(RestOf(t, rest, branches, evidence, A, n), b) <==>
              exists first :: HasBindings(branches, first) && LeadsThrough(t, rest, first, b, A, n)
    decreases |rest|, 1, |branches|
  {
    hide BranchesOf, LeadsThrough;
    if branches != [] {
      var init, last := branches[..|branches| - 1], branches[|branches| - 1];
      RestIff(t, rest, init, evidence, A, n, b);
      BranchesIff(t, rest, last.bindings, evidence + last.evidence, A, n, b);
      HasMore(RestOf(t, rest, init, evidence, A, n), BranchesOf(t, rest, last.bindings, evidence + last.evidence, A, n), b);
      assert branches == init + [last];
      forall first ensures HasBindings(branches, first) <==> HasBindings(init, first) || first == last.bindings {
        HasMore(init, [last], first);
        assert last in [last];
      }
    }
  }

  /** The branches found have exactly the bindings that the conditions lead to. */
  lemma {:induction false} BranchesIff(t: Theory, conditions: seq<Pattern>, b: Bindings, evidence: seq<Evidence>, A: set<ActiveKey>, n: nat, b': Bindings)
    ensures HasBindings(BranchesOf(t, conditions, b, evidence, A, n), b') <==> LeadsThrough(t, conditions, b, b', A, n)
    decreases |conditions|, 0, 0
  {
    hide RestOf, BranchesFor, Leads;
    BranchesStep(t, conditions, b, evidence, A, n);
    if conditions == [] {
      assert Branch(b, evidence) in [Branch(b, evidence)];
    } else {
      var k := Chosen(conditions, b);
      RestIff(t, RemoveAt(conditions, k), BranchesFor(t, conditions[k], b, A, n), evidence, A, n, b');
      forall next ensures HasBindings(BranchesFor(t, conditions[k], b, A, n), next) <==> Leads(t, conditions[k], b, next, A, n) {
        LeadsIff(t, conditions[k], b, A, n, next);
      }
    }
  }

  // ------------------------------------------------------------------ when a claim is entailed

  /** The rule unifies with the claim, its conditions lead to bindings, and under those no exception stops it. */
  ghost predicate Wins(t: Theory, r: Rule, c: Claim, A: set<ActiveKey>, n: nat) {
    && n > 0 && !r.consequent.negated && UnifyConsequent(t, r.consequent, c).Some? && KeyOf(t, r, c) !in A
    && WinsFrom(t, r, UnifyConsequent(t, r.consequent, c).value, A + {KeyOf(t, r, c)}, n - 1)
  }

  ghost predicate WinsFrom(t: Theory, r: Rule, start: Bindings, A: set<ActiveKey>, n: nat) {
    exists b :: WinsUnder(t, r, start, b, A, n)
  }

  ghost predicate WinsUnder(t: Theory, r: Rule, start: Bindings, b: Bindings, A: set<ActiveKey>, n: nat) {
    LeadsThrough(t, r.conditions, start, b, A, n) && !Stopped(t, r.exceptions, b, A, n)
  }

  /** The best proof is by a branch that is not stopped, and no other is more confident; there is none exactly if all
      are stopped. */
  lemma {:induction false} BestIff(t: Theory, r: Rule, c: Claim, branches: seq<Branch>, A: set<ActiveKey>, n: nat)
    ensures var best := BestOf(t, r, c, branches, A, n);
            && (best.None? <==> forall x | x in branches :: Stopped(t, r.exceptions, x.bindings, A, n))
            && (best.Some? ==>
                  && (exists x :: x in branches && !Stopped(t, r.exceptions, x.bindings, A, n) && best.value == ComposeProof(t, r, c, x))
                  && (forall x | x in branches && !Stopped(t, r.exceptions, x.bindings, A, n) ::
                        ComposeProof(t, r, c, x).confidence <= best.value.confidence))
    decreases |branches|
  {
    hide Stopped, ComposeProof;
    if branches != [] {
      var init, last := branches[..|branches| - 1], branches[|branches| - 1];
      BestIff(t, r, c, init, A, n);
      assert branches == init + [last];
      assert last in branches;
    }
  }

  lemma ProofIff(t: Theory, r: Rule, c: Claim, A: set<ActiveKey>, n: nat)
    ensures ProofBy(t, r, c, A, n).Some? <==> Wins(t, r, c, A, n)
  {
    hide BestOf, BranchesOf, Stopped, LeadsThrough, UnifyConsequent;
    ProofByStep(t, r, c, A, n);
    if n > 0 && UnifyConsequent(t, r.consequent, c).Some? {
      var A', u := A + {KeyOf(t, r, c)}, UnifyConsequent(t, r.consequent, c).value;
      var branches := BranchesOf(t, r.conditions, u, [], A', n - 1);
      BestIff(t, r, c, branches, A', n - 1);
      forall b ensures HasBindings(branches, b) <==> LeadsThrough(t, r.conditions, u, b, A', n - 1) {
        BranchesIff(t, r.conditions, u, [], A', n - 1, b);
      }
      SomeUnstopped(t, r, u, branches, A', n - 1);
    }
  }

  lemma SomeUnstopped(t: Theory, r: Rule, start: Bindings, branches: seq<Branch>, A: set<ActiveKey>, n: nat)
    requires forall b :: HasBindings(branches, b) <==> LeadsThrough(t, r.conditions, start, b, A, n)
    ensures (forall x | x in branches :: Stopped(t, r.exceptions, x.bindings, A, n)) <==> !WinsFrom(t, r, start, A, n)
  {
    hide Stopped, LeadsThrough;
    if x :| x in branches && !Stopped(t, r.exceptions, x.bindings, A, n) {
      assert HasBindings(branches, x.bindings);
      assert WinsUnder(t, r, start, x.bindings, A, n);
    }
  }

  lemma {:induction false} ProofsAre(t: Theory, rules: seq<Rule>, c: Claim, A: set<ActiveKey>, n: nat)
    ensures forall p :: p in ProofsBy(t, rules, c, A, n) <==> SomeProves(t, rules, c, A, n, p)
    decreases |rules|
  {
    hide ProofBy;
    if rules != [] {
      var init, last := rules[..|rules| - 1], rules[|rules| - 1];
      ProofsAre(t, init, c, A, n);
      assert rules == init + [last];
      forall p ensures SomeProves(t, rules, c, A, n, p) <==> SomeProves(t, init, c, A, n, p) || ProofBy(t, last, c, A, n) == Some(p) {
        assert last in rules;
      }
    }
  }

  ghost predicate SomeProves(t: Theory, rules: seq<Rule>, c: Claim, A: set<ActiveKey>, n: nat, p: Proof) {
    exists r :: r in rules && ProofBy(t, r, c, A, n) == Some(p)
  }

  /** A claim is answered entailed exactly if the base entails it, or leaves it open and some rule wins; and then with
      the confidence of the most confident proof. */
  lemma EntailedIff(t: Theory, c: Claim, A: set<ActiveKey>, n: nat)
    requires t.base(c).Done?
    ensures AnswerTo(t, c, A, n).verdict == Entailed <==>
              || BaseEntails(t, c)
              || (!BaseContradicts(t, c) && c.subj != NoName && c.pred != NO_PRED && c.obj != NoName
                  && exists r :: r in t.rules && Wins(t, r, c, A, n))
    ensures BaseEntails(t, c) || BaseContradicts(t, c) ==> AnswerTo(t, c, A, n) == t.base(c).value
    ensures AnswerTo(t, c, A, n).verdict == Entailed && !BaseEntails(t, c) ==>
              && (exists r :: r in t.rules && ProofBy(t, r, c, A, n) == AnswerTo(t, c, A, n).best)
              && (forall r, p | r in t.rules && ProofBy(t, r, c, A, n) == Some(p) :: p.confidence <= AnswerTo(t, c, A, n).confidence)
  {
    hide ProofsBy, ProofBy, Wins, RulesFor;
    AnswerStep(t, c, A, n);
    var rules := RulesFor(t, t.rules, c.pred);
    RulesForHasAll(t, t.rules, c.pred);
    ProofsAre(t, rules, c, A, n);
    var proofs := ProofsBy(t, rules, c, A, n);
    RankedIsBest(proofs);
    forall r ensures ProofBy(t, r, c, A, n).Some? <==> Wins(t, r, c, A, n) {
      ProofIff(t, r, c, A, n);
    }
    forall r ensures ProofBy(t, r, c, A, n).Some? ==> t.canon(r.consequent.pred) == c.pred {
      OnlyUnifying(t, r, c, A, n);
    }
    assert proofs == [] || proofs[0] in proofs;
    forall r | r in t.rules && ProofBy(t, r, c, A, n).Some? ensures ProofBy(t, r, c, A, n).value in proofs {
      assert SomeProves(t, rules, c, A, n, ProofBy(t, r, c, A, n).value);
    }
  }

  lemma OnlyUnifying(t: Theory, r: Rule, c: Claim, A: set<ActiveKey>, n: nat)
    ensures ProofBy(t, r, c, A, n).Some? ==> t.canon(r.consequent.pred) == c.pred
  {
    hide BestOf, BranchesOf;
    ProofByStep(t, r, c, A, n);
  }

  lemma RankedIsBest(proofs: seq<Proof>)
    ensures proofs == [] ==> RankedResult(proofs) == NO_SUPPORT
    ensures proofs != [] ==>
              var r := RankedResult(proofs);
              r.verdict == Entailed && r.best.Some? && r.best.value in proofs && r.confidence == r.best.value.confidence
              && forall p | p in proofs :: p.confidence <= r.confidence
  {
    hide SameInOrder, Insert, Sorted;
    if proofs != [] {
      SortedInOrder(proofs);
      SameElements(Sorted(proofs), proofs);
      FirstIsMost(Sorted(proofs));
    }
  }

  lemma FirstIsMost(q: seq<Proof>)
    requires q != [] && Descending(q)
    ensures q[0] in q && forall p | p in q :: p.confidence <= q[0].confidence
  {}
}
