/** How much depth, work and rule applications a backward search can need in the fragment
    (pkg/reasoning/conditional.go): the loop guard lets each rule be tried once on each pair of names, so the search
    ends by itself if the limits leave room for that. */
module Budgets {
  import opened Claims
  import opened Rules
  import opened Sets

  // ------------------------------------------------------------------ what the search can meet

  /** The entities that the conditions name. */
  ghost function Constants(rules: seq<Rule>): set<Name> {
    (set r, p | r in rules && p in r.conditions :: p.subj.entity) + (set r, p | r in rules && p in r.conditions :: p.obj.entity)
  }

  ghost predicate NamesIn(c: Claim, scope: set<Name>) {
    c.subj in scope && c.obj in scope
  }

  ghost predicate AllNamesIn(t: Theory, conditions: seq<Pattern>, b: Bindings, scope: set<Name>) {
    forall p | p in conditions :: NamesIn(Ground(t, p, b), scope)
  }

  /** What the guard can ever remember: a rule on a pair of names. The rule fixes the predicate. */
  ghost function Keys(t: Theory, scope: set<Name>): set<ActiveKey> {
    set r, x, y | r in t.rules && x in scope && y in scope :: KeyFor(t, r, x, y)
  }

  lemma KeyInKeys(t: Theory, r: Rule, c: Claim, scope: set<Name>)
    requires r in t.rules && NamesIn(c, scope) && UnifyConsequent(t, r.consequent, c).Some?
    ensures KeyOf(t, r, c) in Keys(t, scope)
  {}

  lemma TermInScope(t: Theory, r: Rule, c: Claim, term: Term, scope: set<Name>)
    requires UnifyConsequent(t, r.consequent, c).Some? && BoundBy(term, r.consequent) && NamesIn(c, scope)
    requires term.entity != NoName ==> term.entity in scope
    ensures Resolve(term, UnifyConsequent(t, r.consequent, c).value) in scope
  {}

  /** A plain rule asks about nothing but constants and the names in the claim. */
  lemma ConditionsInScope(t: Theory, r: Rule, c: Claim, scope: set<Name>)
    requires r in t.rules && PlainRule(r) && Constants(t.rules) <= scope && NamesIn(c, scope)
    requires UnifyConsequent(t, r.consequent, c).Some?
    ensures AllNamesIn(t, r.conditions, UnifyConsequent(t, r.consequent, c).value, scope)
  {
    hide UnifyConsequent;
    forall p | p in r.conditions ensures NamesIn(Ground(t, p, UnifyConsequent(t, r.consequent, c).value), scope) {
      assert p.subj.entity in Constants(t.rules) && p.obj.entity in Constants(t.rules);
      TermInScope(t, r, c, p.subj, scope);
      TermInScope(t, r, c, p.obj, scope);
    }
  }

  ghost function KeyFor(t: Theory, r: Rule, x: Name, y: Name): ActiveKey {
    ActiveKey(r.id, t.fold(x), t.canon(r.consequent.pred), t.fold(y))
  }

  lemma {:induction false} RowOfKeys(t: Theory, r: Rule, x: Name, ys: set<Name>)
    ensures |set y | y in ys :: KeyFor(t, r, x, y)| <= |ys|
    decreases ys
  {
    if y :| y in ys {
      RowOfKeys(t, r, x, ys - {y});
      assert (set z | z in ys :: KeyFor(t, r, x, z)) == (set z | z in ys - {y} :: KeyFor(t, r, x, z)) + {KeyFor(t, r, x, y)};
    }
  }

  ghost function KeysFor(t: Theory, r: Rule, xs: set<Name>, ys: set<Name>): set<ActiveKey> {
    set x, y | x in xs && y in ys :: KeyFor(t, r, x, y)
  }

  lemma {:induction false} TableOfKeys(t: Theory, r: Rule, xs: set<Name>, ys: set<Name>)
    ensures |KeysFor(t, r, xs, ys)| <= |xs| * |ys|
    decreases xs
  {
    if x :| x in xs {
      TableOfKeys(t, r, xs - {x}, ys);
      RowOfKeys(t, r, x, ys);
      assert KeysFor(t, r, xs, ys) == KeysFor(t, r, xs - {x}, ys) + (set y | y in ys :: KeyFor(t, r, x, y));
      OneMore(|xs|, |ys|);
    }
  }

  lemma KeysOfLast(t: Theory, init: Theory, scope: set<Name>)
    requires t.rules != [] && init == t.(rules := t.rules[..|t.rules| - 1])
    ensures Keys(t, scope) <= Keys(init, scope) + KeysFor(t, t.rules[|t.rules| - 1], scope, scope)
  {
    forall k | k in Keys(t, scope) ensures k in Keys(init, scope) + KeysFor(t, t.rules[|t.rules| - 1], scope, scope) {
      var r, x, y :| r in t.rules && x in scope && y in scope && k == KeyFor(t, r, x, y);
      assert t.rules == init.rules + [t.rules[|t.rules| - 1]];
      assert k == KeyFor(init, r, x, y);
    }
  }

  lemma OneMore(n: nat, m: nat)
    requires n > 0
    ensures n * m == (n - 1) * m + m
  {}

  lemma NoKeys(t: Theory, scope: set<Name>)
    requires t.rules == []
    ensures Keys(t, scope) == {}
  {}

  /** There are no more keys than rules times pairs of names. */
  lemma {:induction false} KeysBound(t: Theory, scope: set<Name>)
    ensures |Keys(t, scope)| <= |t.rules| * (|scope| * |scope|)
    decreases |t.rules|
  {
    hide Keys, KeysFor;
    if t.rules == [] {
      NoKeys(t, scope);
    } else {
      var init, last := t.(rules := t.rules[..|t.rules| - 1]), t.rules[|t.rules| - 1];
      KeysBound(init, scope);
      TableOfKeys(t, last, scope, scope);
      KeysOfLast(t, init, scope);
      SubsetIsSmaller(Keys(t, scope), Keys(init, scope) + KeysFor(t, last, scope, scope));
      OneMore(|t.rules|, |scope| * |scope|);
    }
  }

  // ------------------------------------------------------------------ what it can cost

  /** The work of a question when the guard can still remember m more keys. */
  ghost function Work(rules: seq<Rule>, m: nat): nat
    decreases m, 1, 0
  {
    Effort(rules, rules, m)
  }

  /** Considering each of the rules costs one, and trying it what its conditions cost. */
  ghost function Effort(rules: seq<Rule>, some: seq<Rule>, m: nat): nat
    decreases m, 0, |some|
  {
    if some == [] then 0
    else Effort(rules, some[..|some| - 1], m) + 1 + if m == 0 then 0 else |some[|some| - 1].conditions| * (1 + Work(rules, m - 1))
  }

  /** The work of a number of conditions. */
  ghost function ConditionWork(rules: seq<Rule>, conditions: nat, m: nat): nat {
    conditions * (1 + Work(rules, m))
  }

  ghost function RuleWork(rules: seq<Rule>, r: Rule, m: nat): nat {
    if m == 0 then 0 else ConditionWork(rules, |r.conditions|, m - 1)
  }

  lemma EffortMore(rules: seq<Rule>, some: seq<Rule>, r: Rule, m: nat)
    ensures Effort(rules, some + [r], m) == Effort(rules, some, m) + 1 + RuleWork(rules, r, m)
  {
    assert (some + [r])[..|some|] == some;
  }

  lemma {:induction false} EffortOfPrefix(rules: seq<Rule>, some: seq<Rule>, i: nat, m: nat)
    requires i <= |some|
    ensures Effort(rules, some[..i], m) <= Effort(rules, some, m)
    decreases |some|
  {
    hide Work;
    if i < |some| {
      var init := some[..|some| - 1];
      assert some == init + [some[|some| - 1]] && some[..i] == init[..i];
      EffortMore(rules, init, some[|some| - 1], m);
      EffortOfPrefix(rules, init, i, m);
    } else {
      assert some[..i] == some;
    }
  }

  lemma OneConditionMore(rules: seq<Rule>, n: nat, m: nat)
    ensures ConditionWork(rules, 0, m) == 0
    ensures ConditionWork(rules, n + 1, m) == 1 + Work(rules, m) + ConditionWork(rules, n, m)
  {}

  // ------------------------------------------------------------------ when the limits suffice

  /** The names that a search for the claim can meet. */
  ghost function Scope(t: Theory, c: Claim): set<Name> {
    Constants(t.rules) + {c.subj, c.obj}
  }

  /** There is more depth than keys, and as much work and as many rules as a question can need. */
  ghost predicate LimitsSuffice(t: Theory, scope: set<Name>, needed: nat) {
    |Keys(t, scope)| < t.cfg.maxRuleDepth && needed <= t.cfg.maxWork && needed <= t.cfg.maxRulesConsidered
  }

  ghost predicate EnoughFor(t: Theory, c: Claim) {
    LimitsSuffice(t, Scope(t, c), Work(t.rules, |Keys(t, Scope(t, c))|))
  }

  /** With some work to spare. */
  ghost predicate MoreThanEnoughFor(t: Theory, c: Claim) {
    EnoughFor(t, c) && Work(t.rules, |Keys(t, Scope(t, c))|) < t.cfg.maxWork
  }

  lemma SameKeys(t: Theory, cfg: Config, c: Claim)
    ensures Keys(t.(cfg := cfg), Scope(t.(cfg := cfg), c)) == Keys(t, Scope(t, c))
  {}

  /** For every claim some limits suffice, and then all greater ones. */
  lemma SomeLimitsSuffice(t: Theory, c: Claim) returns (depth: nat, work: nat)
    ensures forall cfg: Config | depth <= cfg.maxRuleDepth && work <= cfg.maxWork && work <= cfg.maxRulesConsidered ::
              EnoughFor(t.(cfg := cfg), c)
  {
    hide Work, Keys, Scope;
    depth := |Keys(t, Scope(t, c))| + 1;
    work := Work(t.rules, depth - 1);
    forall cfg: Config | depth <= cfg.maxRuleDepth && work <= cfg.maxWork && work <= cfg.maxRulesConsidered
      ensures EnoughFor(t.(cfg := cfg), c)
    {
      SameKeys(t, cfg, c);
    }
  }
}
