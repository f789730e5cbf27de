/** Bounded backward chaining over conditional rules (pkg/reasoning/conditional.go). */
module Chainer {
  import opened Claims
  import opened Options
  import opened Proofs
  import opened Rules
  import opened Budgets
  import opened Answers
  import opened Sets

  // ------------------------------------------------------------------ the shared state

  class ConditionalState {
    var depth: nat
    var rulesConsidered: nat
    var work: nat
    var capped: bool
    var active: set<ActiveKey>
    // The names that the search is expected to meet, and the greatest depth so far.
    ghost const scope: set<Name>
    ghost var deepest: nat

    constructor (ghost scope: set<Name>)
      ensures depth == 0 && rulesConsidered == 0 && work == 0 && !capped && active == {}
      ensures this.scope == scope && deepest == 0
    {
      depth, rulesConsidered, work, capped, active := 0, 0, 0, false, {};
      this.scope, deepest := scope, 0;
    }

    ghost predicate InBudget(cfg: Config) reads this {
      depth <= deepest <= cfg.maxRuleDepth && rulesConsidered <= cfg.maxRulesConsidered && work <= cfg.maxWork
    }

    /** The budgets are kept, and the search is capped only if one of them is used up. */
    ghost predicate Within(cfg: Config) reads this {
      && InBudget(cfg)
      && (capped ==> deepest == cfg.maxRuleDepth || rulesConsidered == cfg.maxRulesConsidered || work == cfg.maxWork)
    }

    predicate Affords(cfg: Config, n: nat) reads this {
      !capped && work + n <= cfg.maxWork && rulesConsidered + n <= cfg.maxRulesConsidered
    }

    /** If there was room for n pieces of work, then no more were done, and no limit was hit. */
    twostate predicate Costs(cfg: Config, n: nat) reads this {
      old(Affords(cfg, n)) ==> !capped && work <= old(work) + n && rulesConsidered <= old(rulesConsidered) + n
    }

    /** Depth and guard are what they were; work was only added, and a limit that was hit stays so. */
    twostate predicate Restored() reads this {
      depth == old(depth) && active == old(active) && old(work) <= work && (old(capped) ==> capped)
    }

    ghost predicate InScope(t: Theory) reads this {
      Expected(t, scope, active, depth)
    }

    /** How many keys the guard can still take up. */
    ghost function Left(t: Theory): nat reads this {
      KeysLeft(t, scope, active)
    }

    method ConsumeWork(n: nat, cfg: Config) returns (ok: bool)
      requires InBudget(cfg)
      modifies this`work, this`capped
      ensures InBudget(cfg) && (n <= 1 && old(Within(cfg)) ==> Within(cfg)) && work == old(work) + if ok then n else 0
      ensures ok == (n == 0 || old(work) + n <= cfg.maxWork)
      ensures capped == (old(capped) || !ok)
    {
      if n == 0 {
        return true;
      }
      if work + n > cfg.maxWork {
        capped := true;
        return false;
      }
      work := work + n;
      return true;
    }

    method ConsiderRule(cfg: Config) returns (ok: bool)
      requires Within(cfg)
      modifies this`work, this`capped, this`rulesConsidered
      ensures Within(cfg) && Restored() && Costs(cfg, 1)
      ensures ok == (old(rulesConsidered) < cfg.maxRulesConsidered && old(work) < cfg.maxWork)
      ensures capped == (old(capped) || !ok)
    {
      if rulesConsidered >= cfg.maxRulesConsidered {
        capped := true;
        return false;
      }
      rulesConsidered := rulesConsidered + 1;
      ok := ConsumeWork(1, cfg);
    }

    function CanContinue(cfg: Config): bool reads this {
      !capped && work < cfg.maxWork
    }
  }

  lemma WorkIsEffort(t: Theory, m: nat)
    ensures Work(t.rules, m) == Effort(t.rules, t.rules, m)
  {}

  lemma NoEffort(t: Theory, some: seq<Rule>, m: nat)
    ensures Effort(t.rules, some[..0], m) == 0
  {}

  lemma WorkOfNext(t: Theory, some: seq<Rule>, i: nat, m: nat)
    requires i < |some|
    ensures Effort(t.rules, some[..i + 1], m) == Effort(t.rules, some[..i], m) + 1 + RuleWork(t.rules, some[i], m)
    ensures Effort(t.rules, some[..i + 1], m) <= Effort(t.rules, some, m)
  {
    hide Effort, RuleWork;
    assert some[..i + 1] == some[..i] + [some[i]];
    EffortMore(t.rules, some[..i], some[i], m);
    EffortOfPrefix(t.rules, some, i + 1, m);
  }

  /** The search stays among the names expected, and the depth limit leaves room for every key they allow. */
  ghost predicate Expected(t: Theory, scope: set<Name>, A: set<ActiveKey>, depth: nat) {
    && InFragment(t) && Constants(t.rules) <= scope && |Keys(t, scope)| < t.cfg.maxRuleDepth
    && A <= Keys(t, scope) && depth == |A|
  }

  ghost function KeysLeft(t: Theory, scope: set<Name>, A: set<ActiveKey>): nat {
    |Keys(t, scope) - A|
  }

  /** Trying a rule on a claim that is not being tried takes up one of the keys left. */
  lemma TakesKey(t: Theory, scope: set<Name>, A: set<ActiveKey>, depth: nat, r: Rule, c: Claim)
    requires Expected(t, scope, A, depth)
    requires r in t.rules && NamesIn(c, scope) && UnifyConsequent(t, r.consequent, c).Some? && KeyOf(t, r, c) !in A
    ensures Expected(t, scope, A + {KeyOf(t, r, c)}, depth + 1)
    ensures KeysLeft(t, scope, A) == KeysLeft(t, scope, A + {KeyOf(t, r, c)}) + 1
    ensures AllNamesIn(t, r.conditions, UnifyConsequent(t, r.consequent, c).value, scope)
  {
    hide Keys, UnifyConsequent, Constants;
    KeyInKeys(t, r, c, scope);
    ConditionsInScope(t, r, c, scope);
    assert Keys(t, scope) - (A + {KeyOf(t, r, c)}) == Keys(t, scope) - A - {KeyOf(t, r, c)};
  }

  lemma StartExpected(t: Theory, scope: set<Name>, needed: nat)
    requires InFragment(t) && Constants(t.rules) <= scope && LimitsSuffice(t, scope, needed)
    ensures Expected(t, scope, {}, 0) && KeysLeft(t, scope, {}) == |Keys(t, scope)|
  {
    assert Keys(t, scope) - {} == Keys(t, scope);
  }

  lemma ExpectedFragment(t: Theory, scope: set<Name>, A: set<ActiveKey>, depth: nat)
    requires Expected(t, scope, A, depth)
    ensures InFragment(t)
  {}

  lemma DepthSuffices(t: Theory, scope: set<Name>, A: set<ActiveKey>, depth: nat)
    requires Expected(t, scope, A, depth)
    ensures depth < t.cfg.maxRuleDepth
  {
    hide Keys;
    SubsetIsSmaller(A, Keys(t, scope));
  }

  lemma {:induction false} EffortOfSome(t: Theory, some: seq<Rule>, pred: Pred, m: nat)
    ensures Effort(t.rules, RulesFor(t, some, pred), m) <= Effort(t.rules, some, m)
    decreases |some|
  {
    hide Work;
    if some != [] {
      var init, last := some[..|some| - 1], some[|some| - 1];
      EffortOfSome(t, init, pred, m);
      assert some == init + [last];
      EffortMore(t.rules, init, last, m);
      EffortMore(t.rules, RulesFor(t, init, pred), last, m);
      assert RulesFor(t, init, pred) + [] == RulesFor(t, init, pred);
    }
  }

  // ------------------------------------------------------------------ what the search promises

  /** The evidence is for the condition as it is grounded. */
  ghost predicate Documents(t: Theory, p: Pattern, b: Bindings, e: Evidence) {
    && e.claim == Ground(t, p, b) && Grounded(e.claim) && 0.0 <= e.confidence <= 1.0
    && (p.negated ==> e.confidence == 1.0 && e.proof == None)
  }

  /** The evidence given, and one more piece for each condition. */
  ghost predicate Documented(t: Theory, conditions: seq<Pattern>, evidence: seq<Evidence>, branch: Branch) {
    && evidence <= branch.evidence && |branch.evidence| == |evidence| + |conditions|
    && forall p | p in conditions :: exists e :: e in branch.evidence && Documents(t, p, branch.bindings, e)
  }

  /** Every condition is satisfied under the bindings of the branch, which only add to those given, and documented. */
  ghost predicate GoodBranch(t: Theory, conditions: seq<Pattern>, b: Bindings, evidence: seq<Evidence>, branch: Branch, n: nat) {
    && Extends(b, branch.bindings)
    && (forall p | p in conditions && !p.negated :: Satisfied(t, p, branch.bindings, n))
    && Documented(t, conditions, evidence, branch)
  }

  ghost predicate Derivable(t: Theory, c: Claim, A: set<ActiveKey>) {
    exists h: nat :: Guarded(t, c, h, A)
  }

  ghost predicate CanHold(t: Theory, c: Claim, A: set<ActiveKey>) {
    Grounded(c) && (Derivable(t, c, A) || OracleHolds(t, c))
  }

  ghost predicate RuleWorks(t: Theory, r: Rule, c: Claim, A: set<ActiveKey>) {
    KeyOf(t, r, c) !in A && exists h: nat :: GuardedApplies(t, r, c, h, A + {KeyOf(t, r, c)})
  }

  ghost predicate AllCanHold(t: Theory, conditions: seq<Pattern>, b: Bindings, A: set<ActiveKey>) {
    forall p | p in conditions :: CanHold(t, Ground(t, p, b), A)
  }

  /** Nothing is left to search for. */
  ghost predicate AllBound(t: Theory, conditions: seq<Pattern>, b: Bindings) {
    forall p | p in conditions :: !p.negated && BothBound(p, b)
  }

  /** A positive answer is true, and so is a negative one unless a limit was hit. */
  ghost predicate Right(answer: bool, truth: bool, capped: bool) {
    (answer ==> truth) && (truth && !capped ==> answer)
  }

  /** The branch satisfies the remaining conditions, starting from one of the branches. */
  ghost predicate Continues(t: Theory, rest: seq<Pattern>, branches: seq<Branch>, evidence: seq<Evidence>, x: Branch, n: nat) {
    exists first :: first in branches && GoodBranch(t, rest, first.bindings, evidence + first.evidence, x, n)
  }

  /** What holding with this confidence rests on: the base, else the rules, else the oracle. */
  ghost predicate HeldWith(t: Theory, c: Claim, confidence: real, n: nat) {
    if BaseEntails(t, c) then confidence == t.base(c).value.confidence
    else (Follows(t, c, n) && 0.0 <= confidence <= 1.0) || (OracleHolds(t, c) && confidence == t.holds(c).value.confidence)
  }

  /** An exception that vetoes: a negated one that neither base nor oracle knows, or one that holds with enough confidence. */
  ghost predicate Vetoes(t: Theory, e: Pattern, b: Bindings, n: nat) {
    && Grounded(Ground(t, e, b))
    && if e.negated then !Known(t, Ground(t, e, b))
       else exists confidence :: confidence >= t.cfg.exceptionThreshold && HeldWith(t, Ground(t, e, b), confidence, n)
  }

  /** An exception that cannot fail to veto: a negated one that is not satisfied, or one for which base, or oracle where
      the rules yield nothing, vouch with enough confidence. */
  ghost predicate MustVeto(t: Theory, e: Pattern, b: Bindings, n: nat) {
    var c := Ground(t, e, b);
    && Grounded(c)
    && if e.negated then !Satisfied(t, e, b, n)
       else || (BaseEntails(t, c) && t.base(c).value.confidence >= t.cfg.exceptionThreshold)
            || (!Follows(t, c, n) && OracleHolds(t, c) && t.holds(c).value.confidence >= t.cfg.exceptionThreshold)
  }

  /** The rule concludes the claim under bindings for which no exception must veto. */
  ghost predicate RuleStands(t: Theory, r: Rule, c: Claim, n: nat) {
    exists b :: Concludes(t, r, b, c, n) && Standing(t, r, b, n)
  }

  ghost predicate Standing(t: Theory, r: Rule, b: Bindings, n: nat) {
    forall e | e in r.exceptions :: !MustVeto(t, e, b, n)
  }

  /** Some exception of the rule vetoes under the bindings. */
  ghost predicate Vetoed(t: Theory, r: Rule, b: Bindings, n: nat) {
    exists e :: e in r.exceptions && Vetoes(t, e, b, n)
  }

  ghost predicate SomeRuleStands(t: Theory, c: Claim, n: int) {
    n > 0 && exists r :: r in t.rules && RuleStands(t, r, c, n - 1)
  }

  lemma RankedProofs(c: Claim, proofs: seq<Proof>)
    requires proofs != [] && forall p | p in proofs :: ProofFor(c, p)
    ensures Ranked(c, RankedResult(proofs)) && RankedResult(proofs).verdict == Entailed
  {
    hide ProofFor, SameInOrder, Sorted;
    SortedInOrder(proofs);
    SameElements(Sorted(proofs), proofs);
  }

  lemma OneStands(t: Theory, r: Rule, c: Claim, n: int)
    requires n > 0 && r in t.rules && RuleStands(t, r, c, n - 1)
    ensures SomeRuleStands(t, c, n)
  {
    hide RuleStands;
  }

  lemma BranchStands(t: Theory, r: Rule, c: Claim, branch: Branch, n: nat)
    requires !r.consequent.negated && Grounded(c) && UnifyConsequent(t, r.consequent, c).Some? && Standing(t, r, branch.bindings, n)
    requires GoodBranch(t, r.conditions, UnifyConsequent(t, r.consequent, c).value, [], branch, n)
    ensures RuleStands(t, r, c, n)
  {
    hide Satisfied, Standing;
    assert Concludes(t, r, branch.bindings, c, n);
  }

  /** A claim the base leaves open can be derived exactly if some candidate rule works. */
  lemma SomeRuleWorks(t: Theory, c: Claim, A: set<ActiveKey>)
    requires !BaseEntails(t, c) && !BaseContradicts(t, c)
    ensures Derivable(t, c, A) <==> SomeWorks(t, RulesFor(t, t.rules, c.pred), c, A)
    ensures Derivable(t, c, A) ==> Grounded(c)
  {
    RulesForHasAll(t, t.rules, c.pred);
    if h: nat :| Guarded(t, c, h, A) {
      var r :| r in t.rules && KeyOf(t, r, c) !in A && GuardedApplies(t, r, c, h - 1, A + {KeyOf(t, r, c)});
      assert RuleWorks(t, r, c, A);
    }
    if r :| r in RulesFor(t, t.rules, c.pred) && RuleWorks(t, r, c, A) {
      var h: nat :| GuardedApplies(t, r, c, h, A + {KeyOf(t, r, c)});
      assert Guarded(t, c, h + 1, A);
    }
  }

  /** Conditions that each hold within some height all hold within one. */
  lemma {:induction false} CommonHeight(t: Theory, conditions: seq<Pattern>, b: Bindings, A: set<ActiveKey>) returns (h: nat)
    requires AllCanHold(t, conditions, b, A)
    ensures forall p | p in conditions :: GuardedHolds(t, Ground(t, p, b), h, A)
    decreases |conditions|
  {
    h := 0;
    if conditions != [] {
      var first, rest := conditions[0], conditions[1..];
      assert first in conditions && CanHold(t, Ground(t, first, b), A);
      var k := CommonHeight(t, rest, b, A);
      h := k;
      if Derivable(t, Ground(t, first, b), A) {
        var m: nat :| Guarded(t, Ground(t, first, b), m, A);
        h := if m > k then m else k;
        GuardedMore(t, Ground(t, first, b), m, h, A);
      }
      forall p | p in conditions ensures GuardedHolds(t, Ground(t, p, b), h, A) {
        if p in rest {
          assert GuardedHolds(t, Ground(t, p, b), k, A);
          if Guarded(t, Ground(t, p, b), k, A) {
            GuardedMore(t, Ground(t, p, b), k, h, A);
          }
        }
      }
    }
  }

  ghost predicate SomeWorks(t: Theory, rules: seq<Rule>, c: Claim, A: set<ActiveKey>) {
    exists r :: r in rules && RuleWorks(t, r, c, A)
  }

  lemma NoneWorks(t: Theory, c: Claim, A: set<ActiveKey>)
    ensures !SomeWorks(t, [], c, A)
  {}

  lemma SomeWorksMore(t: Theory, rules: seq<Rule>, i: nat, c: Claim, A: set<ActiveKey>)
    requires i < |rules|
    ensures SomeWorks(t, rules[..i + 1], c, A) <==> SomeWorks(t, rules[..i], c, A) || RuleWorks(t, rules[i], c, A)
    ensures SomeWorks(t, rules[..i], c, A) ==> SomeWorks(t, rules, c, A)
  {
    hide RuleWorks;
    assert rules[..i + 1] == rules[..i] + [rules[i]];
    assert rules == rules[..i] + rules[i..];
  }

  lemma NegatedNeverWorks(t: Theory, r: Rule, c: Claim, A: set<ActiveKey>)
    ensures r.consequent.negated || UnifyConsequent(t, r.consequent, c).None? ==> !RuleWorks(t, r, c, A)
  {}

  lemma ActiveNeverWorks(t: Theory, r: Rule, c: Claim, A: set<ActiveKey>)
    ensures KeyOf(t, r, c) in A ==> !RuleWorks(t, r, c, A)
  {}

  /** A plain rule that unifies with the claim works exactly if all its conditions can hold. */
  lemma WorksIffConditionsHold(t: Theory, r: Rule, c: Claim, A: set<ActiveKey>)
    requires r in t.rules && InFragment(t) && Grounded(c) && !r.consequent.negated && UnifyConsequent(t, r.consequent, c).Some?
    requires KeyOf(t, r, c) !in A
    ensures r.exceptions == [] && AllBound(t, r.conditions, UnifyConsequent(t, r.consequent, c).value)
    ensures RuleWorks(t, r, c, A) <==>
              AllCanHold(t, r.conditions, UnifyConsequent(t, r.consequent, c).value, A + {KeyOf(t, r, c)})
  {
    var b, A' := UnifyConsequent(t, r.consequent, c).value, A + {KeyOf(t, r, c)};
    assert PlainRule(r);
    PlainIsBound(t, r, c);
    if RuleWorks(t, r, c, A) {
      var h: nat :| GuardedApplies(t, r, c, h, A');
      forall p | p in r.conditions ensures CanHold(t, Ground(t, p, b), A') {
        assert GuardedHolds(t, Ground(t, p, b), h, A');
        assert Guarded(t, Ground(t, p, b), h, A') ==> Derivable(t, Ground(t, p, b), A');
      }
    }
    if AllCanHold(t, r.conditions, b, A') {
      var h := CommonHeight(t, r.conditions, b, A');
      assert GuardedApplies(t, r, c, h, A');
    }
  }

  /** After unification a plain rule leaves nothing to search for. */
  lemma PlainIsBound(t: Theory, r: Rule, c: Claim)
    requires PlainRule(r) && UnifyConsequent(t, r.consequent, c).Some?
    ensures AllBound(t, r.conditions, UnifyConsequent(t, r.consequent, c).value)
  {
    forall p | p in r.conditions ensures BothBound(p, UnifyConsequent(t, r.consequent, c).value) {
      BoundAfterUnify(t, r, c, p.subj);
      BoundAfterUnify(t, r, c, p.obj);
    }
  }

  /** A branch concludes the claim. */
  lemma BranchConcludes(t: Theory, r: Rule, c: Claim, branch: Branch, n: nat)
    requires r in t.rules && !r.consequent.negated && Grounded(c) && UnifyConsequent(t, r.consequent, c).Some?
    requires GoodBranch(t, r.conditions, UnifyConsequent(t, r.consequent, c).value, [], branch, n)
    requires !BaseContradicts(t, c)
    ensures Follows(t, c, n + 1)
  {
    assert Concludes(t, r, branch.bindings, c, n);
    assert ByRule(t, r, c, n);
  }

  /** In the fragment the loop guard loses no answer, provided base and oracle treat alike what it does not tell
      apart. */
  lemma GuardIsHarmless(t: Theory, c: Claim)
    requires IsTheory(t) && MatchesFolded(t) && TreatsAlike(t) && InFragment(t) && t.canon(c.pred) == c.pred
    ensures Derivable(t, c, {}) <==> FollowsAtAll(t, c)
  {
    if h: nat :| Guarded(t, c, h, {}) {
      GuardedDerives(t, c, h, {});
      FollowsIffDerives(t, c, h);
    }
    if n: nat :| Follows(t, c, n) {
      FollowsIffDerives(t, c, n);
      DerivesGuarded(t, c, n, {});
    }
  }

  /** With each of the values the condition is a base fact. */
  ghost predicate AllInBase(t: Theory, p: Pattern, b: Bindings, free: Var, values: seq<Name>) {
    forall v | v in values :: InBase(t, p, b, free, v)
  }

  ghost predicate InBase(t: Theory, p: Pattern, b: Bindings, free: Var, v: Name) {
    v != NoName ==> BothBound(p, b[free := v]) && BaseEntails(t, Ground(t, p, b[free := v]))
  }

  /** Base and oracle always answer. */
  ghost predicate NeverFails(t: Theory) {
    (forall c :: t.base(c).Done? && t.holds(c).Done?) && forall pred, subj, obj :: t.bindings(pred, subj, obj).Done?
  }

  class ConditionalReasoner {
    const t: Theory
    // Whether the caller may give up at any time.
    const cancellable: bool

    constructor (t: Theory, cancellable: bool)
      ensures this.t == t && this.cancellable == cancellable
    {
      this.t, this.cancellable := t, cancellable;
    }

    /** Nothing that the search asks fails, and nobody cancels it. */
    ghost predicate Undisturbed() {
      !cancellable && NeverFails(t)
    }

    /** Is the claim entailed, by the base or else by the rules? */
    method EntailsIn(c: Claim, s: ConditionalState) returns (r: Outcome<EntailResult>)
      requires IsTheory(t) && s.Within(t.cfg)
      modifies s
      ensures s.Within(t.cfg) && s.Restored()
      ensures Undisturbed() ==> r.Done?
      ensures r.Done? && s.CanContinue(t.cfg) ==>
                r.value == AnswerTo(t, c, s.active, t.cfg.maxRuleDepth - s.depth)
      ensures s.InScope(t) && NamesIn(c, s.scope) ==> s.Costs(t.cfg, Work(t.rules, s.Left(t)))
      ensures r.Done? && r.value.verdict == Entailed ==> Follows(t, c, t.cfg.maxRuleDepth - s.depth)
      ensures r.Done? && (BaseEntails(t, c) || BaseContradicts(t, c)) ==> r == t.base(c) && s.Costs(t.cfg, 0)
      ensures r.Done? && r.value.verdict == Entailed && !BaseEntails(t, c) ==> SomeRuleStands(t, c, t.cfg.maxRuleDepth - s.depth)
      ensures r.Done? && r.value.verdict == Entailed && !BaseEntails(t, c) ==> 0.0 <= r.value.confidence <= 1.0
      ensures r.Done? && InFragment(t) ==> Right(r.value.verdict == Entailed, Derivable(t, c, s.active), s.capped)
      decreases t.cfg.maxRuleDepth - s.depth, 2
    {
      hide SomeRuleStands;
      hide AnswerTo, ProofsBy, ProofBy, BestOf, Stopped, Stops, HoldingOf, BranchesOf, RestOf, BranchesFor, BranchIf, ValuesOf, BranchWith;
      var cancelled: bool := *;
      if cancellable && cancelled {
        return Failed;
      }
      var base := t.base(c);
      if base.Failed? {
        return Failed;
      }
      AnswerStep(t, c, s.active, t.cfg.maxRuleDepth - s.depth);
      if base.value.verdict == Entailed || base.value.verdict == Contradicted {
        assert base.value.verdict == Entailed <==> Guarded(t, c, 0, s.active);
        return base;
      }
      r := ByRules(c, s);
      if r.Done? && r.value.verdict == Entailed {
        assert r.value.all[0] in r.value.all;
      }
    }

    /** Try the rules for the claim's predicate. */
    method ByRules(c: Claim, s: ConditionalState) returns (r: Outcome<EntailResult>)
      requires IsTheory(t) && s.Within(t.cfg)
      requires t.base(c).Done? && t.base(c).value.verdict != Entailed && t.base(c).value.verdict != Contradicted
      modifies s
      ensures s.Within(t.cfg) && s.Restored()
      ensures Undisturbed() ==> r.Done?
      ensures r.Done? && s.CanContinue(t.cfg) ==>
                r.value == (if Grounded(c) then RankedResult(ProofsBy(t, RulesFor(t, t.rules, c.pred), c, s.active, t.cfg.maxRuleDepth - s.depth)) else NO_SUPPORT)
      ensures s.InScope(t) && NamesIn(c, s.scope) ==> s.Costs(t.cfg, Work(t.rules, s.Left(t)))
      ensures r.Done? ==> r.value.verdict == Unsupported || (r.value.verdict == Entailed && Ranked(c, r.value))
      ensures r.Done? && r.value.verdict == Entailed ==>
                Follows(t, c, t.cfg.maxRuleDepth - s.depth) && SomeRuleStands(t, c, t.cfg.maxRuleDepth - s.depth)
      ensures r.Done? && InFragment(t) ==> Right(r.value.verdict == Entailed, Derivable(t, c, s.active), s.capped)
      decreases t.cfg.maxRuleDepth - s.depth, 1
    {
      hide AnswerTo, ProofsBy, ProofBy, BestOf, Stopped, Stops, HoldingOf, BranchesOf, RestOf, BranchesFor, BranchIf, ValuesOf, BranchWith;
      hide SomeWorks, Ranked, Descending, SameInOrder, SomeRuleStands, Follows, InFragment, Derivable, RuleWorks, RulesFor, ProofFor, Grounded, IsTheory, Expected, KeysLeft, Work, Effort;
      var candidates := RulesFor(t, t.rules, c.pred);
      RulesForHasAll(t, t.rules, c.pred);
      SomeRuleWorks(t, c, s.active);
      NoneWorks(t, c, s.active);
      NoProofs(t, c, s.active, t.cfg.maxRuleDepth - s.depth);
      if !Grounded(c) || candidates == [] {
        return Done(NO_SUPPORT);
      }
      EffortOfSome(t, t.rules, c.pred, s.Left(t));
      WorkIsEffort(t, s.Left(t));
      var proofs := TryAll(candidates, c, s);
      if proofs.Failed? {
        return Failed;
      }
      if proofs.value == [] {
        return Done(NO_SUPPORT);
      }
      RankedProofs(c, proofs.value);
      var sorted := SortProofs(proofs.value);
      return Done(EntailResult(Entailed, sorted[0].confidence, Some(sorted[0]), sorted));
    }

    /** The proofs of those rules that conclude the claim, as far as the budgets go. */
    method TryAll(candidates: seq<Rule>, c: Claim, s: ConditionalState) returns (res: Outcome<seq<Proof>>)
      requires IsTheory(t) && s.Within(t.cfg) && Grounded(c) && forall x | x in candidates :: x in t.rules
      requires t.base(c).Done? && t.base(c).value.verdict != Entailed && t.base(c).value.verdict != Contradicted
      modifies s
      ensures s.Within(t.cfg) && s.Restored()
      ensures Undisturbed() ==> res.Done?
      ensures res.Done? && s.CanContinue(t.cfg) ==>
                res.value == ProofsBy(t, candidates, c, s.active, t.cfg.maxRuleDepth - s.depth)
      ensures s.InScope(t) && NamesIn(c, s.scope) ==> s.Costs(t.cfg, Effort(t.rules, candidates, s.Left(t)))
      ensures res.Done? ==> forall p | p in res.value :: ProofFor(c, p)
      ensures res.Done? && res.value != [] ==>
                Follows(t, c, t.cfg.maxRuleDepth - s.depth) && SomeRuleStands(t, c, t.cfg.maxRuleDepth - s.depth)
      ensures res.Done? && InFragment(t) ==>
                Right(res.value != [], SomeWorks(t, candidates, c, s.active), s.capped)
      decreases t.cfg.maxRuleDepth - s.depth, 0, 2
    {
      hide AnswerTo, ProofsBy, ProofBy, BestOf, Stopped, Stops, HoldingOf, BranchesOf, RestOf, BranchesFor, BranchIf, ValuesOf, BranchWith;
      hide SomeWorks, SomeRuleStands, RuleStands, Follows, InFragment, Derivable, RuleWorks, ProofFor, Grounded, IsTheory, Expected, KeysLeft, RuleWork, Effort;
      ghost var A, m := s.active, s.Left(t);
      ghost var scoped := s.InScope(t) && NamesIn(c, s.scope);
      var proofs: seq<Proof> := [];
      NoEffort(t, candidates, m);
      NoProofs(t, c, A, t.cfg.maxRuleDepth - s.depth);
      assert candidates[..0] == [];
      NoneWorks(t, c, A);
      var i := 0;
      while i < |candidates|
        invariant 0 <= i <= |candidates|
        invariant s.Within(t.cfg) && s.Restored()
        invariant scoped ==> s.Costs(t.cfg, Effort(t.rules, candidates[..i], m))
        invariant s.CanContinue(t.cfg) ==> proofs == ProofsBy(t, candidates[..i], c, A, t.cfg.maxRuleDepth - s.depth)
        invariant forall p | p in proofs :: ProofFor(c, p)
        invariant proofs != [] ==> Follows(t, c, t.cfg.maxRuleDepth - s.depth) && SomeRuleStands(t, c, t.cfg.maxRuleDepth - s.depth)
        invariant InFragment(t) ==> Right(proofs != [], SomeWorks(t, candidates[..i], c, A), s.capped)
        decreases |candidates| - i
      {
        WorkOfNext(t, candidates, i, m);
        SomeWorksMore(t, candidates, i, c, A);
        ProofsMore(t, candidates, i, c, A, t.cfg.maxRuleDepth - s.depth);
        var cancelled: bool := *;
        if cancellable && cancelled {
          return Failed;
        }
        var tried, considered := ConsiderAndTry(candidates[i], c, s);
        if !considered {
          break;
        }
        if tried.Failed? {
          return Failed;
        }
        if tried.value.Some? {
          proofs := proofs + [tried.value.value];
        }
        i := i + 1;
      }
      assert candidates[..|candidates|] == candidates;
      return Done(proofs);
    }

    /** Try one rule if the budgets allow another. */
    method ConsiderAndTry(r: Rule, c: Claim, s: ConditionalState) returns (res: Outcome<Option<Proof>>, considered: bool)
      requires IsTheory(t) && s.Within(t.cfg) && r in t.rules && Grounded(c)
      requires t.base(c).Done? && t.base(c).value.verdict != Entailed && t.base(c).value.verdict != Contradicted
      modifies s
      ensures s.Within(t.cfg) && s.Restored() && (!considered ==> s.capped)
      ensures Undisturbed() ==> res.Done?
      ensures considered && res.Done? && s.CanContinue(t.cfg) ==>
                res.value == ProofBy(t, r, c, s.active, t.cfg.maxRuleDepth - s.depth)
      ensures s.InScope(t) && NamesIn(c, s.scope) ==> s.Costs(t.cfg, 1 + RuleWork(t.rules, r, s.Left(t)))
      ensures res.Done? && res.value.Some? ==>
                ProofFor(c, res.value.value) && Follows(t, c, t.cfg.maxRuleDepth - s.depth) && SomeRuleStands(t, c, t.cfg.maxRuleDepth - s.depth)
      ensures considered && res.Done? && InFragment(t) ==> Right(res.value.Some?, RuleWorks(t, r, c, s.active), s.capped)
      decreases t.cfg.maxRuleDepth - s.depth, 0, 1
    {
      hide ProofBy, RuleStands, SomeRuleStands, Follows, InFragment, RuleWorks, ProofFor, Grounded, IsTheory, Expected, KeysLeft, RuleWork;
      considered := s.ConsiderRule(t.cfg);
      if !considered {
        return Done(None), false;
      }
      res := TryRule(r, c, s);
      if res.Done? && res.value.Some? {
        OneStands(t, r, c, t.cfg.maxRuleDepth - s.depth);
      }
    }

    /** Try one rule on the claim, unless it is already being tried on it. */
    method TryRule(r: Rule, c: Claim, s: ConditionalState) returns (res: Outcome<Option<Proof>>)
      requires IsTheory(t) && s.Within(t.cfg) && r in t.rules && Grounded(c)
      requires t.base(c).Done? && t.base(c).value.verdict != Entailed && t.base(c).value.verdict != Contradicted
      modifies s
      ensures s.Within(t.cfg) && s.Restored()
      ensures Undisturbed() ==> res.Done?
      ensures res.Done? && s.CanContinue(t.cfg) ==>
                res.value == ProofBy(t, r, c, s.active, t.cfg.maxRuleDepth - s.depth)
      ensures s.InScope(t) && NamesIn(c, s.scope) ==> s.Costs(t.cfg, RuleWork(t.rules, r, s.Left(t)))
      ensures res.Done? && res.value.Some? ==> ProofFor(c, res.value.value) && Follows(t, c, t.cfg.maxRuleDepth - s.depth)
      ensures res.Done? && res.value.Some? ==> s.depth < t.cfg.maxRuleDepth && RuleStands(t, r, c, t.cfg.maxRuleDepth - s.depth - 1)
      ensures res.Done? && InFragment(t) ==> Right(res.value.Some?, RuleWorks(t, r, c, s.active), s.capped)
      decreases t.cfg.maxRuleDepth - s.depth, 0, 0
    {
      hide AnswerTo, ProofsBy, ProofBy, BestOf, Stopped, Stops, HoldingOf, BranchesOf, RestOf, BranchesFor, BranchIf, ValuesOf, BranchWith;
      hide RuleStands, Follows, InFragment, RuleWorks, AllCanHold, AllBound, GoodBranch, ProofFor, UnifyConsequent, Grounded, IsTheory;
      hide Expected, KeysLeft, ConditionWork, AllNamesIn;
      ProofByStep(t, r, c, s.active, t.cfg.maxRuleDepth - s.depth);
      ghost var roomy := s.InScope(t) && NamesIn(c, s.scope);
      if roomy {
        DepthSuffices(t, s.scope, s.active, s.depth);
        ExpectedFragment(t, s.scope, s.active, s.depth);
      }
      if r.consequent.negated || s.depth >= t.cfg.maxRuleDepth {
        NegatedNeverWorks(t, r, c, s.active);
        s.capped := s.capped || s.depth >= t.cfg.maxRuleDepth;
        return Done(None);
      }
      var unified := UnifyConsequent(t, r.consequent, c);
      if unified == None {
        NegatedNeverWorks(t, r, c, s.active);
        return Done(None);
      }
      var key := KeyOf(t, r, c);
      if key in s.active {
        ActiveNeverWorks(t, r, c, s.active);
        return Done(None);
      }
      ghost var A, d := s.active, s.depth;
      if InFragment(t) {
        WorksIffConditionsHold(t, r, c, A);
      }
      if roomy {
        TakesKey(t, s.scope, A, d, r, c);
      }
      s.active := s.active + {key};
      s.depth := s.depth + 1;
      s.deepest := if s.depth > s.deepest then s.depth else s.deepest;
      res := Conclude(r, c, unified.value, s);
      s.depth, s.active := s.depth - 1, s.active - {key};
      assert s.active == A;
    }

    /** Evaluate the conditions of a rule that unifies with the claim, and compose the best proof. */
    method Conclude(r: Rule, c: Claim, b: Bindings, s: ConditionalState) returns (res: Outcome<Option<Proof>>)
      requires IsTheory(t) && s.Within(t.cfg) && r in t.rules && Grounded(c) && !r.consequent.negated
      requires !BaseContradicts(t, c) && UnifyConsequent(t, r.consequent, c) == Some(b)
      modifies s
      ensures s.Within(t.cfg) && s.Restored()
      ensures Undisturbed() ==> res.Done?
      ensures res.Done? && s.CanContinue(t.cfg) ==>
                res.value == BestOf(t, r, c, BranchesOf(t, r.conditions, b, [], s.active, t.cfg.maxRuleDepth - s.depth), s.active, t.cfg.maxRuleDepth - s.depth)
      ensures s.InScope(t) && r.exceptions == [] && AllBound(t, r.conditions, b) && AllNamesIn(t, r.conditions, b, s.scope) ==>
                s.Costs(t.cfg, ConditionWork(t.rules, |r.conditions|, s.Left(t)))
      ensures res.Done? && res.value.Some? ==> ProofFor(c, res.value.value) && Follows(t, c, t.cfg.maxRuleDepth - s.depth + 1)
      ensures res.Done? && res.value.Some? ==> RuleStands(t, r, c, t.cfg.maxRuleDepth - s.depth)
      ensures res.Done? && InFragment(t) && r.exceptions == [] && AllBound(t, r.conditions, b) ==>
                Right(res.value.Some?, AllCanHold(t, r.conditions, b, s.active), s.capped)
      decreases t.cfg.maxRuleDepth - s.depth, 8
    {
      hide AnswerTo, ProofsBy, ProofBy, BestOf, Stopped, Stops, HoldingOf, BranchesOf, RestOf, BranchesFor, BranchIf, ValuesOf, BranchWith;
      hide RuleStands, Standing, Vetoed, Follows, InFragment, AllCanHold, AllBound, GoodBranch, ProofFor, UnifyConsequent, Grounded, IsTheory, BaseContradicts;
      hide Expected, KeysLeft, ConditionWork, AllNamesIn;
      var branches := EvalConditions(r.conditions, b, [], s);
      if branches.Failed? {
        return Failed;
      }
      res := BestProof(r, c, branches.value, s);
    }

    /** The most confident proof among the branches no exception vetoes. */
    method BestProof(r: Rule, c: Claim, branches: seq<Branch>, s: ConditionalState) returns (res: Outcome<Option<Proof>>)
      requires IsTheory(t) && s.Within(t.cfg) && r in t.rules && Grounded(c) && !r.consequent.negated
      requires !BaseContradicts(t, c) && UnifyConsequent(t, r.consequent, c).Some?
      requires forall x | x in branches ::
                 GoodBranch(t, r.conditions, UnifyConsequent(t, r.consequent, c).value, [], x, t.cfg.maxRuleDepth - s.depth)
      modifies s
      ensures s.Within(t.cfg) && s.Restored()
      ensures Undisturbed() ==> res.Done?
      ensures res.Done? && s.CanContinue(t.cfg) ==>
                res.value == BestOf(t, r, c, branches, s.active, t.cfg.maxRuleDepth - s.depth)
      ensures r.exceptions == [] ==> s.Costs(t.cfg, 0)
      ensures res.Done? && res.value.Some? ==>
                && ProofFor(c, res.value.value) && Follows(t, c, t.cfg.maxRuleDepth - s.depth + 1)
                && (exists x :: x in branches && res.value.value == ComposeProof(t, r, c, x)
                               && Standing(t, r, x.bindings, t.cfg.maxRuleDepth - s.depth))
      ensures res.Done? && res.value.Some? ==> RuleStands(t, r, c, t.cfg.maxRuleDepth - s.depth)
      ensures res == Done(None) ==>
                forall x | x in branches :: Vetoed(t, r, x.bindings, t.cfg.maxRuleDepth - s.depth)
      ensures res.Done? && r.exceptions == [] && branches != [] ==>
                res.value.Some? && forall x | x in branches :: ComposeProof(t, r, c, x).confidence <= res.value.value.confidence
      decreases t.cfg.maxRuleDepth - s.depth, 7
    {
      hide AnswerTo, ProofsBy, ProofBy, BestOf, Stopped, Stops, HoldingOf, BranchesOf, RestOf, BranchesFor, BranchIf, ValuesOf, BranchWith;
      hide RuleStands, MustVeto, Vetoes, Follows, GoodBranch, ProofFor, ComposeProof, UnifyConsequent, BaseContradicts;
      ghost var d, A := s.depth, s.active;
      ghost var n := t.cfg.maxRuleDepth - d;
      assert forall x | x in branches :: GoodBranch(t, r.conditions, UnifyConsequent(t, r.consequent, c).value, [], x, n);
      var best: Option<Proof> := None;
      NoBranches(t, r, c, A, n);
      assert branches[..0] == [];
      for i := 0 to |branches|
        invariant s.Within(t.cfg) && s.Restored()
        invariant r.exceptions == [] ==> s.Costs(t.cfg, 0)
        invariant s.CanContinue(t.cfg) ==> best == BestOf(t, r, c, branches[..i], A, n)
        invariant best.Some? ==> ProofFor(c, best.value) && Follows(t, c, n + 1) && RuleStands(t, r, c, n)
                                 && exists x :: x in branches && best.value == ComposeProof(t, r, c, x) && Standing(t, r, x.bindings, n)
        invariant best.None? ==> forall j | 0 <= j < i :: Vetoed(t, r, branches[j].bindings, n)
        invariant r.exceptions == [] && i > 0 ==>
                    best.Some? && forall j | 0 <= j < i :: ComposeProof(t, r, c, branches[j]).confidence <= best.value.confidence
      {
        var branch := branches[i];
        BestMore(t, r, c, branches, i, A, n);
        var veto := ExceptionVeto(r.exceptions, branch.bindings, s);
        if veto.Failed? {
          return Failed;
        }
        if veto.value {
          assert Vetoed(t, r, branch.bindings, n);
          continue;
        }
        assert Standing(t, r, branch.bindings, n);
        assert branch in branches;
        var proof := Compose(t, r, c, branch);
        ComposedProof(t, r, c, branch);
        BranchConcludes(t, r, c, branch, n);
        BranchStands(t, r, c, branch, n);
        if best == None || proof.confidence > best.value.confidence {
          best := Some(proof);
        }
      }
      assert branches[..|branches|] == branches;
      return Done(best);
    }

    /** All ways, as far as the budget goes, in which the conditions hold together. */
    method EvalConditions(conditions: seq<Pattern>, b: Bindings, evidence: seq<Evidence>, s: ConditionalState)
      returns (res: Outcome<seq<Branch>>)
      requires IsTheory(t) && s.Within(t.cfg)
      modifies s
      ensures s.Within(t.cfg) && s.Restored()
      ensures Undisturbed() ==> res.Done?
      ensures res.Done? && s.CanContinue(t.cfg) ==>
                res.value == BranchesOf(t, conditions, b, evidence, s.active, t.cfg.maxRuleDepth - s.depth)
      ensures s.InScope(t) && AllBound(t, conditions, b) && AllNamesIn(t, conditions, b, s.scope) ==>
                s.Costs(t.cfg, ConditionWork(t.rules, |conditions|, s.Left(t)))
      ensures res.Done? ==> forall x | x in res.value :: GoodBranch(t, conditions, b, evidence, x, t.cfg.maxRuleDepth - s.depth)
      ensures res.Done? && InFragment(t) && AllBound(t, conditions, b) ==>
                Right(res.value != [], AllCanHold(t, conditions, b, s.active), s.capped)
      decreases t.cfg.maxRuleDepth - s.depth, 6, |conditions|, 0
    {
      hide AnswerTo, ProofsBy, ProofBy, BestOf, Stopped, Stops, HoldingOf, BranchesOf, RestOf, BranchesFor, BranchIf, ValuesOf, BranchWith;
      hide Follows, InFragment, AllCanHold, AllBound, BothBound, CanHold, GoodBranch, Satisfied, Extends;
      hide Continues, Score, Ground, IsTheory, Resolve, Grounded, Expected, KeysLeft, AllNamesIn, Work, ConditionWork, NamesIn;
      BranchesStep(t, conditions, b, evidence, s.active, t.cfg.maxRuleDepth - s.depth);
      if conditions == [] {
        NoneLeft(t, b, evidence, t.cfg.maxRuleDepth - s.depth, s.active);
        return Done([Branch(b, evidence)]);
      }
      OneConditionMore(t.rules, |conditions| - 1, s.Left(t));
      var consumed := s.ConsumeWork(1, t.cfg);
      if !consumed {
        return Done([]);
      }
      ghost var n := t.cfg.maxRuleDepth - s.depth;
      var idx := ChooseCondition(conditions, b);
      var condition, rest := conditions[idx], conditions[..idx] + conditions[idx + 1..];
      assert rest == RemoveAt(conditions, idx);
      Removed(conditions, idx);
      AllParts(t, conditions, b, s.active, condition, rest);
      NamesParts(t, conditions, b, s.scope, condition, rest);
      var branches := EvalCondition(condition, b, s);
      NoneToContinue(t, rest, evidence, s.active, n);
      if branches.Failed? || branches.value == [] {
        return branches;
      }
      res := EvalRest(rest, branches.value, evidence, s, b);
      if res.Done? {
        AllTogether(t, conditions, condition, rest, b, evidence, branches.value, res.value, n);
      }
    }

    /** Continue every branch with the other conditions. */
    method EvalRest(rest: seq<Pattern>, branches: seq<Branch>, evidence: seq<Evidence>, s: ConditionalState, ghost b: Bindings)
      returns (res: Outcome<seq<Branch>>)
      requires IsTheory(t) && s.Within(t.cfg) && branches != []
      modifies s
      ensures s.Within(t.cfg) && s.Restored()
      ensures Undisturbed() ==> res.Done?
      ensures res.Done? && s.CanContinue(t.cfg) ==>
                res.value == RestOf(t, rest, branches, evidence, s.active, t.cfg.maxRuleDepth - s.depth)
      ensures s.InScope(t) && AllBound(t, rest, b) && AllNamesIn(t, rest, b, s.scope) && |branches| <= 1 && (forall x | x in branches :: x.bindings == b) ==>
                s.Costs(t.cfg, ConditionWork(t.rules, |rest|, s.Left(t)))
      ensures res.Done? ==> forall x | x in res.value :: Continues(t, rest, branches, evidence, x, t.cfg.maxRuleDepth - s.depth)
      ensures res.Done? && InFragment(t) && AllBound(t, rest, b) && (forall x | x in branches :: x.bindings == b) ==>
                Right(res.value != [], AllCanHold(t, rest, b, s.active), s.capped)
      decreases t.cfg.maxRuleDepth - s.depth, 6, |rest|, 1
    {
      hide AnswerTo, ProofsBy, ProofBy, BestOf, Stopped, Stops, HoldingOf, BranchesOf, RestOf, BranchesFor, BranchIf, ValuesOf, BranchWith;
      hide Follows, InFragment, AllCanHold, AllBound, BothBound, GoodBranch, Expected, KeysLeft, AllNamesIn, ConditionWork;
      ghost var cost := ConditionWork(t.rules, |rest|, s.Left(t));
      ghost var roomy := s.InScope(t) && AllBound(t, rest, b) && AllNamesIn(t, rest, b, s.scope) && |branches| <= 1
                         && (forall x | x in branches :: x.bindings == b) && s.Affords(t.cfg, cost);
      ghost var d, A := s.depth, s.active;
      ghost var n := t.cfg.maxRuleDepth - d;
      ghost var bound := InFragment(t) && AllBound(t, rest, b) && forall x | x in branches :: x.bindings == b;
      var out: seq<Branch> := [];
      NoneToContinue(t, rest, evidence, A, n);
      assert branches[..0] == [];
      for i := 0 to |branches|
        invariant s.Within(t.cfg) && s.Restored()
        invariant forall x | x in out :: Continues(t, rest, branches, evidence, x, n)
        invariant s.CanContinue(t.cfg) ==> out == RestOf(t, rest, branches[..i], evidence, A, n)
        invariant roomy && i == 0 ==> s.Costs(t.cfg, 0)
        invariant roomy && i > 0 ==> s.Costs(t.cfg, cost)
        invariant bound && out != [] ==> AllCanHold(t, rest, b, A)
        invariant bound && !s.capped && i > 0 && AllCanHold(t, rest, b, A) ==> out != []
      {
        var branch := branches[i];
        assert branch in branches;
        RestMore(t, rest, branches, i, evidence, A, n);
        var next := EvalConditions(rest, branch.bindings, evidence + branch.evidence, s);
        if next.Failed? {
          return Failed;
        }
        out := out + next.value;
        if !s.CanContinue(t.cfg) {
          break;
        }
      }
      assert branches[..|branches|] == branches;
      return Done(out);
    }

    /** All ways in which one condition holds. With both ends bound there is at most one, and it binds nothing. */
    method EvalCondition(p: Pattern, b: Bindings, s: ConditionalState) returns (res: Outcome<seq<Branch>>)
      requires IsTheory(t) && s.Within(t.cfg)
      modifies s
      ensures s.Within(t.cfg) && s.Restored()
      ensures Undisturbed() ==> res.Done?
      ensures res.Done? && s.CanContinue(t.cfg) ==>
                res.value == BranchesFor(t, p, b, s.active, t.cfg.maxRuleDepth - s.depth)
      ensures s.InScope(t) && BothBound(p, b) && NamesIn(Ground(t, p, b), s.scope) ==> s.Costs(t.cfg, Work(t.rules, s.Left(t)))
      ensures res.Done? ==> forall x | x in res.value :: GoodBranch(t, [p], b, [], x, t.cfg.maxRuleDepth - s.depth)
      ensures res.Done? && BothBound(p, b) ==> |res.value| <= 1 && forall x | x in res.value :: x.bindings == b
      ensures res.Done? && InFragment(t) && !p.negated && BothBound(p, b) ==>
                Right(res.value != [], CanHold(t, Ground(t, p, b), s.active), s.capped)
      decreases t.cfg.maxRuleDepth - s.depth, 5
    {
      hide AnswerTo, ProofsBy, ProofBy, BestOf, Stopped, Stops, HoldingOf, BranchesOf, RestOf, BranchesFor, BranchIf, ValuesOf, BranchWith;
      var cancelled: bool := *;
      if cancellable && cancelled {
        return Failed;
      }
      BranchesForStep(t, p, b, s.active, t.cfg.maxRuleDepth - s.depth);
      var claim := Ground(t, p, b);
      if claim.pred == NO_PRED {
        return Done([]);
      }
      if claim.subj != NoName && claim.obj != NoName {
        res := EvalGrounded(p, claim, b, s);
        ghost var n := t.cfg.maxRuleDepth - s.depth;
        if res.Done? {
          forall x | x in res.value ensures GoodBranch(t, [p], b, [], x, n) {
            OneBranch(t, p, b, b, x, n);
          }
        }
        return;
      }
      if claim.subj == claim.obj == NoName || p.negated {
        return Done([]);
      }
      var free := if claim.subj != NoName then p.obj.variable else p.subj.variable;
      if free == None {
        return Done([]);
      }
      var values := t.bindings(claim.pred, claim.subj, claim.obj);
      if values.Failed? {
        return Failed;
      }
      var offered := values.value;
      if |offered| > t.cfg.maxBindings {
        offered := offered[..t.cfg.maxBindings];
      }
      res := TryValues(p, b, free.value, offered, s);
    }

    /** Try the values the oracle offers for the free end of a condition. */
    method TryValues(p: Pattern, b: Bindings, free: Var, values: seq<Name>, s: ConditionalState) returns (res: Outcome<seq<Branch>>)
      requires IsTheory(t) && s.Within(t.cfg) && !p.negated && t.canon(p.pred) != NO_PRED
      requires free in b ==> b[free] == NoName
      modifies s
      ensures s.Within(t.cfg) && s.Restored()
      ensures Undisturbed() ==> res.Done?
      ensures res.Done? ==> |res.value| <= s.work - old(s.work)
      ensures res.Done? && AllInBase(t, p, b, free, values) && old(s.CanContinue(t.cfg)) ==> !s.capped
      ensures res.Done? && AllInBase(t, p, b, free, values) ==> s.Costs(t.cfg, |values|)
      ensures res.Done? && s.CanContinue(t.cfg) ==>
                res.value == ValuesOf(t, p, b, free, values, s.active, t.cfg.maxRuleDepth - s.depth)
      ensures res.Done? ==> forall x | x in res.value :: GoodBranch(t, [p], b, [], x, t.cfg.maxRuleDepth - s.depth)
      decreases t.cfg.maxRuleDepth - s.depth, 4, 2
    {
      hide ValuesOf, BranchWith, GoodBranch, InBase;
      ghost var A, n := s.active, t.cfg.maxRuleDepth - s.depth;
      ghost var easy := AllInBase(t, p, b, free, values) && s.CanContinue(t.cfg);
      var out: seq<Branch> := [];
      NoValues(t, p, b, free, A, n);
      assert values[..0] == [];
      for i := 0 to |values|
        invariant s.Within(t.cfg) && s.Restored()
        invariant |out| <= s.work - old(s.work)
        invariant easy ==> s.CanContinue(t.cfg)
        invariant AllInBase(t, p, b, free, values) && old(s.Affords(t.cfg, |values|)) ==> s.Costs(t.cfg, i)
        invariant s.CanContinue(t.cfg) ==> out == ValuesOf(t, p, b, free, values[..i], A, n)
        invariant forall x | x in out :: GoodBranch(t, [p], b, [], x, n)
      {
        ValuesMore(t, p, b, free, values, i, A, n);
        assert values[i] in values;
        var found, tried := TryValue(p, b, free, values[i], s);
        if found.Failed? {
          return Failed;
        }
        out := out + found.value;
        if tried && !s.CanContinue(t.cfg) {
          break;
        }
      }
      assert values[..|values|] == values;
      return Done(out);
    }

    /** Try one value. Also says whether it came to evaluating the condition. */
    method TryValue(p: Pattern, b: Bindings, free: Var, value: Name, s: ConditionalState) returns (res: Outcome<seq<Branch>>, tried: bool)
      requires IsTheory(t) && s.Within(t.cfg) && !p.negated && t.canon(p.pred) != NO_PRED
      requires free in b ==> b[free] == NoName
      modifies s
      ensures s.Within(t.cfg) && s.Restored()
      ensures Undisturbed() ==> res.Done?
      ensures res.Done? ==> |res.value| <= s.work - old(s.work)
      ensures res.Done? && InBase(t, p, b, free, value) && old(s.CanContinue(t.cfg)) ==> !s.capped && (tried || s.CanContinue(t.cfg))
      ensures res.Done? && InBase(t, p, b, free, value) ==> s.Costs(t.cfg, 1)
      ensures res.Done? && s.CanContinue(t.cfg) ==>
                res.value == BranchWith(t, p, b, free, value, s.active, t.cfg.maxRuleDepth - s.depth)
      ensures res.Done? ==> forall x | x in res.value :: GoodBranch(t, [p], b, [], x, t.cfg.maxRuleDepth - s.depth)
      decreases t.cfg.maxRuleDepth - s.depth, 4, 1
    {
      hide AnswerTo, HoldingOf, BranchIf, BranchWith, Follows, CanHold, Satisfied, InFragment;
      ghost var n := t.cfg.maxRuleDepth - s.depth;
      BranchWithStep(t, p, b, free, value, s.active, n);
      if value == NoName {
        return Done([]), false;
      }
      var consumed := s.ConsumeWork(1, t.cfg);
      if !consumed {
        return Done([]), false;
      }
      var next := Bind(t, b, free, value);
      if next == None {
        return Done([]), false;
      }
      var claim := Ground(t, p, next.value);
      if claim.subj == NoName || claim.obj == NoName {
        return Done([]), false;
      }
      res := EvalGrounded(p, claim, next.value, s);
      tried := true;
      if res.Done? {
        forall x | x in res.value ensures GoodBranch(t, [p], b, [], x, n) {
          assert Extends(b, next.value);
          OneBranch(t, p, b, next.value, x, n);
        }
      }
    }

    /** A condition with both ends bound holds, or fails, as it stands. */
    method EvalGrounded(p: Pattern, claim: Claim, b: Bindings, s: ConditionalState) returns (res: Outcome<seq<Branch>>)
      requires IsTheory(t) && s.Within(t.cfg) && claim == Ground(t, p, b) && Grounded(claim)
      modifies s
      ensures s.Within(t.cfg) && s.Restored()
      ensures Undisturbed() ==> res.Done?
      ensures res.Done? && BaseEntails(t, claim) ==> s.Costs(t.cfg, 0)
      ensures res.Done? && s.CanContinue(t.cfg) ==>
                res.value == BranchIf(t, p, claim, b, s.active, t.cfg.maxRuleDepth - s.depth)
      ensures s.InScope(t) && NamesIn(claim, s.scope) ==> s.Costs(t.cfg, Work(t.rules, s.Left(t)))
      ensures res.Done? ==> |res.value| <= 1 && forall x | x in res.value :: x.bindings == b
      ensures res.Done? ==> forall x | x in res.value :: |x.evidence| == 1 && Documents(t, p, b, x.evidence[0])
      ensures res.Done? && res.value != [] && !p.negated ==> Satisfied(t, p, b, t.cfg.maxRuleDepth - s.depth)
      ensures res.Done? && InFragment(t) && !p.negated ==> Right(res.value != [], CanHold(t, claim, s.active), s.capped)
      decreases t.cfg.maxRuleDepth - s.depth, 4, 0
    {
      hide AnswerTo, ProofsBy, ProofBy, BestOf, Stopped, Stops, HoldingOf, BranchesOf, RestOf, BranchesFor, ValuesOf, BranchWith;
      assert CanonicalClaim(t, claim) == claim;
      hide InFragment, CanHold, Follows;
      var held := Holds(claim, s);
      if held.Failed? {
        return Failed;
      }
      if p.negated {
        if held.value.ok {
          return Done([]);
        }
        return Done([Branch(b, [Evidence(claim, 1.0, None)])]);
      }
      if !held.value.ok {
        return Done([]);
      }
      return Done([Branch(b, [Evidence(claim, Clamp01(held.value.confidence), held.value.proof)])]);
    }

    /** Does the claim hold: entailed by base or rules, or else by the oracle's word? */
    method Holds(given: Claim, s: ConditionalState) returns (res: Outcome<Held>)
      requires IsTheory(t) && s.Within(t.cfg)
      modifies s
      ensures s.Within(t.cfg) && s.Restored()
      ensures Undisturbed() ==> res.Done?
      ensures res.Done? && BaseEntails(t, CanonicalClaim(t, given)) ==> s.Costs(t.cfg, 0)
      ensures res.Done? && s.CanContinue(t.cfg) ==>
                res.value == HoldingOf(t, given, s.active, t.cfg.maxRuleDepth - s.depth)
      ensures s.InScope(t) && NamesIn(given, s.scope) ==> s.Costs(t.cfg, Work(t.rules, s.Left(t)))
      ensures res.Done? && res.value.ok ==>
                && Grounded(CanonicalClaim(t, given))
                && (Follows(t, CanonicalClaim(t, given), t.cfg.maxRuleDepth - s.depth) || OracleHolds(t, CanonicalClaim(t, given)))
                && HeldWith(t, CanonicalClaim(t, given), res.value.confidence, t.cfg.maxRuleDepth - s.depth)
      ensures res.Done? && Grounded(CanonicalClaim(t, given)) && Known(t, CanonicalClaim(t, given)) ==> res.value.ok
      ensures res.Done? && Grounded(CanonicalClaim(t, given)) && !Follows(t, CanonicalClaim(t, given), t.cfg.maxRuleDepth - s.depth) ==>
                res == t.holds(CanonicalClaim(t, given))
      ensures res.Done? && InFragment(t) ==> Right(res.value.ok, CanHold(t, CanonicalClaim(t, given), s.active), s.capped)
      decreases t.cfg.maxRuleDepth - s.depth, 3
    {
      hide AnswerTo, ProofsBy, ProofBy, BestOf, Stopped, Stops, BranchesOf, RestOf, BranchesFor, BranchIf, ValuesOf, BranchWith;
      var c := Claim(given.subj, t.canon(given.pred), given.obj);
      hide InFragment, Follows, Derivable;
      if !Grounded(c) {
        return Done(Held(false, 0.0, None));
      }
      var r := EntailsIn(c, s);
      if r.Failed? {
        return Failed;
      }
      if r.value.verdict == Entailed {
        return Done(Held(true, r.value.confidence, r.value.best));
      }
      return t.holds(c);
    }

    /** Does some exception apply: one that holds with enough confidence, or a negated one that does not hold? */
    method ExceptionVeto(exceptions: seq<Pattern>, b: Bindings, s: ConditionalState) returns (res: Outcome<bool>)
      requires IsTheory(t) && s.Within(t.cfg)
      modifies s
      ensures s.Within(t.cfg) && s.Restored()
      ensures Undisturbed() ==> res.Done?
      ensures res.Done? && s.CanContinue(t.cfg) ==>
                res.value == Stopped(t, exceptions, b, s.active, t.cfg.maxRuleDepth - s.depth)
      ensures exceptions == [] ==> s.Costs(t.cfg, 0)
      ensures exceptions == [] ==> res == Done(false)
      ensures res == Done(true) ==> exists e :: e in exceptions && Vetoes(t, e, b, t.cfg.maxRuleDepth - s.depth)
      ensures res == Done(false) ==> forall e | e in exceptions :: !MustVeto(t, e, b, t.cfg.maxRuleDepth - s.depth)
      decreases t.cfg.maxRuleDepth - s.depth, 6
    {
      hide AnswerTo, ProofsBy, ProofBy, BestOf, HoldingOf, BranchesOf, RestOf, BranchesFor, BranchIf, ValuesOf, BranchWith;
      hide Follows, InFragment, CanHold, BaseEntails, OracleHolds;
      ghost var d, A := s.depth, s.active;
      ghost var n := t.cfg.maxRuleDepth - d;
      for i := 0 to |exceptions|
        invariant s.Within(t.cfg) && s.Restored()
        invariant i == 0 ==> s.Costs(t.cfg, 0)
        invariant s.CanContinue(t.cfg) ==> forall j | 0 <= j < i :: !Stops(t, exceptions[j], b, A, n)
        invariant forall j | 0 <= j < i :: !MustVeto(t, exceptions[j], b, n)
      {
        var e := exceptions[i];
        assert e in exceptions;
        var claim := Ground(t, e, b);
        if !Grounded(claim) {
          continue;
        }
        var held := Holds(claim, s);
        if held.Failed? {
          return Failed;
        }
        assert CanonicalClaim(t, claim) == claim;
        if e.negated {
          if !held.value.ok {
            return Done(true);
          }
          continue;
        }
        if held.value.ok && held.value.confidence >= t.cfg.exceptionThreshold {
          return Done(true);
        }
      }
      return Done(false);
    }

    /** Is the claim entailed? Also says whether a depth or work limit was hit on the way, and whether work was left, so
        that no value offered was passed over for lack of it. */
    method Entails(given: Claim) returns (r: Outcome<EntailResult>, capped: bool, ghost spare: bool)
      requires IsTheory(t)
      ensures Undisturbed() ==> r.Done?
      ensures r.Done? && spare ==> r.value == AnswerTo(t, CanonicalClaim(t, given), {}, t.cfg.maxRuleDepth)
      ensures r.Done? && BaseContradicts(t, CanonicalClaim(t, given)) ==> r.value.verdict == Contradicted
      ensures r.Done? && r.value.verdict == Entailed ==>
                && Follows(t, CanonicalClaim(t, given), t.cfg.maxRuleDepth)
                && (BaseEntails(t, CanonicalClaim(t, given)) || SomeRuleStands(t, CanonicalClaim(t, given), t.cfg.maxRuleDepth))
      ensures r.Done? && InFragment(t) ==> Right(r.value.verdict == Entailed, Derivable(t, CanonicalClaim(t, given), {}), capped)
      ensures r.Done? && InFragment(t) && MatchesFolded(t) && TreatsAlike(t) && !capped ==>
                (r.value.verdict == Entailed <==> FollowsAtAll(t, CanonicalClaim(t, given)))
      ensures spare ==> !capped
      ensures InFragment(t) && EnoughFor(t, CanonicalClaim(t, given)) ==> !capped
      ensures InFragment(t) && MoreThanEnoughFor(t, CanonicalClaim(t, given)) ==> spare
    {
      hide InFragment, Follows, FollowsAtAll, Derivable, TreatsAlike, MatchesFolded, Expected, KeysLeft, Work, AnswerTo, SomeRuleStands;
      var c := Claim(given.subj, t.canon(given.pred), given.obj);
      if InFragment(t) && MatchesFolded(t) && TreatsAlike(t) {
        GuardIsHarmless(t, c);
      }
      if InFragment(t) && EnoughFor(t, c) {
        StartExpected(t, Scope(t, c), Work(t.rules, |Keys(t, Scope(t, c))|));
      }
      var s := new ConditionalState(Scope(t, c));
      r := EntailsIn(c, s);
      capped := s.capped;
      spare := s.CanContinue(t.cfg);
    }
  }

  /** The condition with the fewest free ends, the first of several. */
  method ChooseCondition(conditions: seq<Pattern>, b: Bindings) returns (best: nat)
    requires conditions != []
    ensures best == Chosen(conditions, b)
    ensures forall i | 0 <= i < |conditions| :: Score(conditions[best], b) <= Score(conditions[i], b)
    ensures forall i | 0 <= i < best :: Score(conditions[best], b) < Score(conditions[i], b)
  {
    hide Chosen, Resolve;
    best := 0;
    var lowest := ScoreOf(conditions[0], b);
    ChosenOfOne(conditions, b);
    for i := 1 to |conditions|
      invariant best < i && best == Chosen(conditions[..i], b) && lowest == Score(conditions[best], b)
    {
      ChosenMore(conditions, i, b);
      var score := ScoreOf(conditions[i], b);
      if score < lowest {
        best, lowest := i, score;
      }
    }
    assert conditions[..|conditions|] == conditions;
  }

  /** The number of free ends, and ten more for a negated condition that has any. */
  method ScoreOf(p: Pattern, b: Bindings) returns (score: nat)
    ensures score == Score(p, b)
  {
    score := 0;
    if Resolve(p.subj, b) == NoName {
      score := score + 1;
    }
    if Resolve(p.obj, b) == NoName {
      score := score + 1;
    }
    if p.negated && score > 0 {
      score := score + 10;
    }
  }

  lemma Removed<T>(q: seq<T>, i: nat)
    requires i < |q|
    ensures |RemoveAt(q, i)| == |q| - 1 && forall x :: x in q <==> x == q[i] || x in RemoveAt(q, i)
  {
    assert q == q[..i] + [q[i]] + q[i + 1..];
  }

  lemma AllParts(t: Theory, conditions: seq<Pattern>, b: Bindings, A: set<ActiveKey>, p: Pattern, rest: seq<Pattern>)
    requires forall x :: x in conditions <==> x == p || x in rest
    ensures AllCanHold(t, conditions, b, A) <==> CanHold(t, Ground(t, p, b), A) && AllCanHold(t, rest, b, A)
    ensures AllBound(t, conditions, b) <==> !p.negated && BothBound(p, b) && AllBound(t, rest, b)
  {}

  lemma NamesParts(t: Theory, conditions: seq<Pattern>, b: Bindings, scope: set<Name>, p: Pattern, rest: seq<Pattern>)
    requires forall x :: x in conditions <==> x == p || x in rest
    ensures AllNamesIn(t, conditions, b, scope) <==> NamesIn(Ground(t, p, b), scope) && AllNamesIn(t, rest, b, scope)
  {}

  lemma NoProofs(t: Theory, c: Claim, A: set<ActiveKey>, n: nat)
    ensures ProofsBy(t, [], c, A, n) == [] && RankedResult([]) == NO_SUPPORT
  {}

  lemma NoBranches(t: Theory, r: Rule, c: Claim, A: set<ActiveKey>, n: nat)
    ensures BestOf(t, r, c, [], A, n) == None
  {}

  lemma NoneToContinue(t: Theory, rest: seq<Pattern>, evidence: seq<Evidence>, A: set<ActiveKey>, n: nat)
    ensures RestOf(t, rest, [], evidence, A, n) == []
  {}

  lemma NoValues(t: Theory, p: Pattern, b: Bindings, free: Var, A: set<ActiveKey>, n: nat)
    ensures ValuesOf(t, p, b, free, [], A, n) == []
  {}

  lemma BranchWithStep(t: Theory, p: Pattern, b: Bindings, free: Var, value: Name, A: set<ActiveKey>, n: nat)
    ensures var next := Bind(t, b, free, value);
            BranchWith(t, p, b, free, value, A, n)
            == if next == None || Resolve(p.subj, next.value) == NoName || Resolve(p.obj, next.value) == NoName then []
               else BranchIf(t, p, Ground(t, p, next.value), next.value, A, n)
  {
    hide BranchIf;
  }

  lemma NoneLeft(t: Theory, b: Bindings, evidence: seq<Evidence>, n: nat, A: set<ActiveKey>)
    ensures GoodBranch(t, [], b, evidence, Branch(b, evidence), n) && AllCanHold(t, [], b, A)
  {}

  /** A grounded condition with its own evidence is a branch by itself. */
  lemma OneBranch(t: Theory, p: Pattern, b: Bindings, b': Bindings, x: Branch, n: nat)
    requires Extends(b, b') && x.bindings == b' && |x.evidence| == 1 && Documents(t, p, b', x.evidence[0])
    requires !p.negated ==> Satisfied(t, p, b', n)
    ensures GoodBranch(t, [p], b, [], x, n)
  {
    assert x.evidence[0] in x.evidence;
  }

  lemma DocumentedTogether(t: Theory, conditions: seq<Pattern>, p: Pattern, rest: seq<Pattern>, evidence: seq<Evidence>,
                           first: Branch, x: Branch)
    requires |conditions| == |rest| + 1 && forall q :: q in conditions <==> q == p || q in rest
    requires Documented(t, [p], [], first) && Documented(t, rest, evidence + first.evidence, x)
    requires Extends(first.bindings, x.bindings)
    ensures Documented(t, conditions, evidence, x)
  {
    assert p in [p];
    var e :| e in first.evidence && Documents(t, p, first.bindings, e);
    assert e in evidence + first.evidence;
    assert forall k | 0 <= k < |evidence + first.evidence| :: (evidence + first.evidence)[k] == x.evidence[k];
    GroundKept(t, p, first.bindings, x.bindings);
    assert e in x.evidence && Documents(t, p, x.bindings, e);
  }

  /** A branch for one condition, continued for the others, satisfies them all. */
  lemma Together(t: Theory, conditions: seq<Pattern>, p: Pattern, rest: seq<Pattern>, b: Bindings, evidence: seq<Evidence>,
                 first: Branch, x: Branch, n: nat)
    requires |conditions| == |rest| + 1 && forall q :: q in conditions <==> q == p || q in rest
    requires GoodBranch(t, [p], b, [], first, n) && GoodBranch(t, rest, first.bindings, evidence + first.evidence, x, n)
    ensures GoodBranch(t, conditions, b, evidence, x, n)
  {
    hide Documented;
    DocumentedTogether(t, conditions, p, rest, evidence, first, x);
    if !p.negated {
      assert p in [p];
      SatisfiedKept(t, p, first.bindings, x.bindings, n);
    }
  }

  lemma AllTogether(t: Theory, conditions: seq<Pattern>, p: Pattern, rest: seq<Pattern>, b: Bindings, evidence: seq<Evidence>,
                    firsts: seq<Branch>, out: seq<Branch>, n: nat)
    requires |conditions| == |rest| + 1 && forall q :: q in conditions <==> q == p || q in rest
    requires forall x | x in firsts :: GoodBranch(t, [p], b, [], x, n)
    requires forall x | x in out :: Continues(t, rest, firsts, evidence, x, n)
    ensures forall x | x in out :: GoodBranch(t, conditions, b, evidence, x, n)
  {
    hide GoodBranch;
    forall x | x in out ensures GoodBranch(t, conditions, b, evidence, x, n) {
      var first :| first in firsts && GoodBranch(t, rest, first.bindings, evidence + first.evidence, x, n);
      Together(t, conditions, p, rest, b, evidence, first, x, n);
    }
  }
}
