/** Exactly when the chainer's loop guard loses no answer, whatever the rules are (pkg/reasoning/conditional.go). */
module GuardExact {
  import opened Claims
  import opened Options
  import opened Rules
  import opened Proofs
  import opened Chainer

  function WithRules(t: Theory, rules: seq<Rule>): Theory {
    t.(rules := rules)
  }

  /** For every rule list of the fragment the guarded search can find every canonical claim that follows. */
  ghost predicate GuardHarmless(t: Theory) {
    forall rules: seq<Rule>, c: Claim :: !LosesClaim(t, rules, c)
  }

  /** The claim follows from the rules, but no guarded search finds it. */
  ghost predicate LosesClaim(t: Theory, rules: seq<Rule>, c: Claim) {
    && InFragment(WithRules(t, rules)) && t.canon(c.pred) == c.pred
    && FollowsAtAll(WithRules(t, rules), c) && !Derivable(WithRules(t, rules), c, {})
  }

  /** Base and oracle say nothing about the predicate. */
  ghost predicate Unused(t: Theory, p: Pred) {
    && p != NO_PRED && t.canon(p) == p
    && forall a, b :: !Known(t, Claim(a, p, b)) && !BaseContradicts(t, Claim(a, p, b))
  }

  // ------------------------------------------------------------------ one condition at a time

  /** A rule with one condition passes it on. */
  lemma StepUp(t: Theory, r: Rule, c: Claim, n: nat)
    requires r in t.rules && |r.conditions| == 1 && !r.consequent.negated && Grounded(c) && !BaseContradicts(t, c)
    requires UnifyConsequent(t, r.consequent, c).Some?
    requires Satisfied(t, r.conditions[0], UnifyConsequent(t, r.consequent, c).value, n)
    ensures Follows(t, c, n + 1)
  {
    assert Concludes(t, r, UnifyConsequent(t, r.consequent, c).value, c, n);
    assert ByRule(t, r, c, n);
  }

  /** What the guarded search finds without the base, some rule concludes that the guard lets through. */
  lemma SomeRuleConcludes(t: Theory, c: Claim, h: nat, A: set<ActiveKey>) returns (r: Rule)
    requires Guarded(t, c, h, A) && !BaseEntails(t, c)
    ensures !BaseContradicts(t, c) && h > 0
    ensures r in t.rules && t.canon(r.consequent.pred) == c.pred && KeyOf(t, r, c) !in A
    ensures GuardedApplies(t, r, c, h - 1, A + {KeyOf(t, r, c)})
  {
    r :| r in t.rules && KeyOf(t, r, c) !in A && GuardedApplies(t, r, c, h - 1, A + {KeyOf(t, r, c)});
  }

  /** The one condition of a rule that applies can be found. */
  lemma ItsCondition(t: Theory, r: Rule, c: Claim, h: nat, A: set<ActiveKey>)
    requires GuardedApplies(t, r, c, h, A) && |r.conditions| == 1
    ensures var x := Ground(t, r.conditions[0], UnifyConsequent(t, r.consequent, c).value);
            Known(t, x) || Guarded(t, x, h, A)
  {
    assert r.conditions[0] in r.conditions;
    assert GuardedHolds(t, Ground(t, r.conditions[0], UnifyConsequent(t, r.consequent, c).value), h, A);
  }

  // ------------------------------------------------------------------ rules that show a difference

  function Variable(name: string): Term {
    Term(NoName, Some(Var(name)))
  }

  function Constant(n: Name): Term {
    Term(n, None)
  }

  function Any(p: Pred): Pattern {
    Pattern(Variable("x"), p, Variable("y"), false)
  }

  /** p(x, y) if u(x, y). */
  function First(p: Pred, u: Pred): Rule {
    Rule("first", [Any(u)], Any(p), [], 1.0)
  }

  /** u(x, y) if q(x, y). */
  function Second(u: Pred, q: Pred): Rule {
    Rule("second", [Any(q)], Any(u), [], 1.0)
  }

  /** u(x, y) if p(a, b). */
  function Third(u: Pred, p: Pred, a: Name, b: Name): Rule {
    Rule("third", [Pattern(Constant(a), p, Constant(b), false)], Any(u), [], 1.0)
  }

  /** q(x, y), always. */
  function Fourth(q: Pred): Rule {
    Rule("fourth", [], Any(q), [], 1.0)
  }

  function Telling(p: Pred, u: Pred, c: Claim, always: bool): seq<Rule> {
    [First(p, u), Second(u, c.pred), Third(u, p, c.subj, c.obj)] + if always then [Fourth(c.pred)] else []
  }

  function Like(c: Claim, p: Pred): Claim {
    Claim(c.subj, p, c.obj)
  }

  /** How the patterns with two variables meet a claim. */
  lemma Meets(t: Theory, p: Pred, q: Pred, c: Claim)
    requires Grounded(c) && t.canon(p) == c.pred && t.canon(q) == q
    ensures UnifyConsequent(t, Any(p), c).Some?
    ensures Ground(t, Any(q), UnifyConsequent(t, Any(p), c).value) == Like(c, q)
  {}

  /** The base and the oracle are those of the theory, whatever the rules. */
  lemma SameBase(t: Theory, rules: seq<Rule>)
    ensures var t' := WithRules(t, rules);
            (forall c :: (Known(t', c) <==> Known(t, c)) && (BaseEntails(t', c) <==> BaseEntails(t, c))
                         && (BaseContradicts(t', c) <==> BaseContradicts(t, c)))
            && (IsTheory(t') <==> IsTheory(t)) && (MatchesFolded(t') <==> MatchesFolded(t))
  {}

  lemma SameTreatment(t: Theory, rules: seq<Rule>)
    requires TreatsAlike(t)
    ensures TreatsAlike(WithRules(t, rules))
  {
    var t' := WithRules(t, rules);
    forall c, c' | Canonical(t', c) && Canonical(t', c') && Alike(t', c, c')
      ensures (Known(t', c) <==> Known(t', c')) && (!Known(t', c) ==> (BaseContradicts(t', c) <==> BaseContradicts(t', c')))
    {
      SameBase(t, rules);
      assert Canonical(t, c) && Canonical(t, c') && Alike(t, c, c');
    }
  }

  /** Claims that look the same of which the second holds, or can be concluded, and the first does not. */
  ghost predicate ToldApart(t: Theory, c: Claim, c': Claim) {
    && Canonical(t, c) && Canonical(t, c') && Alike(t, c, c') && !Known(t, c)
    && (Known(t, c') || (BaseContradicts(t, c) && !BaseContradicts(t, c')))
  }

  /** A setting in which the rules above tell: two unused predicates and claims that are told apart. */
  ghost predicate Setting(t: Theory, p: Pred, u: Pred, c: Claim, c': Claim) {
    IsTheory(t) && Unused(t, p) && Unused(t, u) && p != u && ToldApart(t, c, c')
  }

  lemma OtherPredicate(t: Theory, p: Pred, u: Pred, c: Claim, c': Claim)
    requires Setting(t, p, u, c, c')
    ensures c.pred == c'.pred && c.pred != p && c.pred != u
  {
    assert c == Claim(c.subj, c.pred, c.obj) && c' == Claim(c'.subj, c'.pred, c'.obj);
  }

  ghost function Told(t: Theory, p: Pred, u: Pred, c': Claim): Theory {
    WithRules(t, Telling(p, u, c', !Known(t, c')))
  }

  lemma SecondHolds(t: Theory, p: Pred, u: Pred, c: Claim, c': Claim)
    requires Setting(t, p, u, c, c')
    ensures Known(Told(t, p, u, c'), c') || Follows(Told(t, p, u, c'), c', 1)
  {
    var t' := Told(t, p, u, c');
    SameBase(t, t'.rules);
    if !Known(t, c') {
      var r := Fourth(c'.pred);
      Meets(t', c'.pred, c'.pred, c');
      assert r in t'.rules;
      assert Concludes(t', r, UnifyConsequent(t', r.consequent, c').value, c', 0);
      assert ByRule(t', r, c', 0);
    }
  }

  /** p of the first claim follows by way of p of the second. */
  lemma FirstFollows(t: Theory, p: Pred, u: Pred, c: Claim, c': Claim)
    requires Setting(t, p, u, c, c')
    ensures Follows(Told(t, p, u, c'), Like(c, p), 5)
  {
    var t' := Told(t, p, u, c');
    SameBase(t, t'.rules);
    SecondHolds(t, p, u, c, c');
    OtherPredicate(t, p, u, c, c');
    FollowsOne(t', u, c');
    assert t'.rules[1] == Second(u, c'.pred) && t'.rules[0] == First(p, u) && t'.rules[2] == Third(u, p, c'.subj, c'.obj);
    Meets(t', u, c'.pred, Like(c', u));
    StepUp(t', Second(u, c'.pred), Like(c', u), 1);
    Meets(t', p, u, Like(c', p));
    StepUp(t', First(p, u), Like(c', p), 2);
    Meets(t', u, u, Like(c, u));
    StepUp(t', Third(u, p, c'.subj, c'.obj), Like(c, u), 3);
    Meets(t', p, u, Like(c, p));
    StepUp(t', First(p, u), Like(c, p), 4);
  }

  lemma FollowsOne(t: Theory, u: Pred, c: Claim)
    requires Known(t, c) || Follows(t, c, 1)
    ensures Follows(t, c, 1) || OracleHolds(t, c)
  {}

  // ------------------------------------------------------------------ and is not found

  lemma Rules4(t: Theory, p: Pred, u: Pred, c': Claim, r: Rule)
    requires r in Telling(p, u, c', !Known(t, c'))
    ensures r in [First(p, u), Second(u, c'.pred), Third(u, p, c'.subj, c'.obj), Fourth(c'.pred)]
    ensures r == Fourth(c'.pred) ==> !Known(t, c')
  {}

  /** p of the second claim is blocked: the rule for it is being tried on a claim that looks the same. */
  lemma SecondBlocked(t: Theory, p: Pred, u: Pred, c: Claim, c': Claim, h: nat, A: set<ActiveKey>)
    requires Setting(t, p, u, c, c') && KeyOf(t, First(p, u), Like(c, p)) in A
    ensures !Guarded(Told(t, p, u, c'), Like(c', p), h, A)
  {
    var t' := Told(t, p, u, c');
    SameBase(t, t'.rules);
    OtherPredicate(t, p, u, c, c');
    if Guarded(t', Like(c', p), h, A) {
      var r := SomeRuleConcludes(t', Like(c', p), h, A);
      Rules4(t, p, u, c', r);
    }
  }

  /** The first claim is not found either: nothing concludes it, or the base contradicts it. */
  lemma FirstNotFound(t: Theory, p: Pred, u: Pred, c: Claim, c': Claim, h: nat, A: set<ActiveKey>)
    requires Setting(t, p, u, c, c')
    ensures !Guarded(Told(t, p, u, c'), c, h, A)
  {
    var t' := Told(t, p, u, c');
    SameBase(t, t'.rules);
    OtherPredicate(t, p, u, c, c');
    if Guarded(t', c, h, A) {
      var r := SomeRuleConcludes(t', c, h, A);
      Rules4(t, p, u, c', r);
    }
  }

  lemma MiddleNotFound(t: Theory, p: Pred, u: Pred, c: Claim, c': Claim, h: nat, A: set<ActiveKey>)
    requires Setting(t, p, u, c, c') && KeyOf(t, First(p, u), Like(c, p)) in A
    ensures !Guarded(Told(t, p, u, c'), Like(c, u), h, A)
  {
    var t' := Told(t, p, u, c');
    SameBase(t, t'.rules);
    OtherPredicate(t, p, u, c, c');
    if Guarded(t', Like(c, u), h, A) {
      var r := SomeRuleConcludes(t', Like(c, u), h, A);
      Rules4(t, p, u, c', r);
      var A' := A + {KeyOf(t', r, Like(c, u))};
      ItsCondition(t', r, Like(c, u), h - 1, A');
      Meets(t', u, c'.pred, Like(c, u));
      FirstNotFound(t, p, u, c, c', h - 1, A');
      SecondBlocked(t, p, u, c, c', h - 1, A');
    }
  }

  lemma LikeNotFound(t: Theory, p: Pred, u: Pred, c: Claim, c': Claim, h: nat)
    requires Setting(t, p, u, c, c')
    ensures !Guarded(Told(t, p, u, c'), Like(c, p), h, {})
  {
    var t' := Told(t, p, u, c');
    SameBase(t, t'.rules);
    OtherPredicate(t, p, u, c, c');
    if Guarded(t', Like(c, p), h, {}) {
      var r := SomeRuleConcludes(t', Like(c, p), h, {});
      Rules4(t, p, u, c', r);
      var A' := {} + {KeyOf(t', r, Like(c, p))};
      ItsCondition(t', r, Like(c, p), h - 1, A');
      Meets(t', p, u, Like(c, p));
      MiddleNotFound(t, p, u, c, c', h - 1, A');
    }
  }

  lemma ToldApartLoses(t: Theory, p: Pred, u: Pred, c: Claim, c': Claim)
    requires Setting(t, p, u, c, c')
    ensures LosesClaim(t, Telling(p, u, c', !Known(t, c')), Like(c, p))
  {
    var t' := Told(t, p, u, c');
    FirstFollows(t, p, u, c, c');
    forall h: nat ensures !Guarded(t', Like(c, p), h, {}) {
      LikeNotFound(t, p, u, c, c', h);
    }
    TellingIsPlain(p, u, c', !Known(t, c'));
  }

  lemma TellingIsPlain(p: Pred, u: Pred, c: Claim, always: bool)
    requires Grounded(c)
    ensures forall r | r in Telling(p, u, c, always) :: PlainRule(r)
  {}

  lemma AlikeLosesNothing(t: Theory, rules: seq<Rule>, c: Claim)
    requires IsTheory(t) && MatchesFolded(t) && TreatsAlike(t)
    ensures !LosesClaim(t, rules, c)
  {
    if InFragment(WithRules(t, rules)) && t.canon(c.pred) == c.pred {
      SameBase(t, rules);
      SameTreatment(t, rules);
      GuardIsHarmless(WithRules(t, rules), c);
    }
  }

  /** Given two predicates that base and oracle leave alone, the guard loses no answer, whatever rules of the fragment
      are added, if and only if base and oracle treat alike the claims that it does not tell apart. */
  lemma GuardHarmlessIff(t: Theory, p: Pred, u: Pred)
    requires IsTheory(t) && MatchesFolded(t) && Unused(t, p) && Unused(t, u) && p != u
    ensures GuardHarmless(t) <==> TreatsAlike(t)
  {
    if TreatsAlike(t) {
      forall rules: seq<Rule>, c: Claim ensures !LosesClaim(t, rules, c) {
        AlikeLosesNothing(t, rules, c);
      }
    } else {
      var c, c' :| Canonical(t, c) && Canonical(t, c') && Alike(t, c, c')
                   && !((Known(t, c) <==> Known(t, c')) && (!Known(t, c) ==> (BaseContradicts(t, c) <==> BaseContradicts(t, c'))));
      if ToldApart(t, c, c') {
        ToldApartLoses(t, p, u, c, c');
      } else {
        ToldApartLoses(t, p, u, c', c);
      }
    }
  }
}
