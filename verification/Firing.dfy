/** Compiling conditional rules into indexes, and firing the rules that the assumed facts touch
    (pkg/reasoning/conditional.go). */
module Firing {
  import opened Claims
  import opened Options
  import opened Rules
  import opened Proofs
  import opened Answers
  import opened Chainer
  import opened Budgets
  import opened Sets

  datatype RuleSet = RuleSet(rules: seq<Rule>, skipped: nat,
                             byConsequent: map<Pred, seq<nat>>, byConditionEntity: map<string, seq<nat>>)

  // ------------------------------------------------------------------ the indexes

  function ListAt(index: map<string, seq<nat>>, key: string): seq<nat> {
    if key in index then index[key] else []
  }

  function Added(index: map<string, seq<nat>>, key: string, i: nat): map<string, seq<nat>> {
    index[key := ListAt(index, key) + [i]]
  }

  function NumbersFor(index: map<Pred, seq<nat>>, pred: Pred): seq<nat> {
    if pred in index then index[pred] else []
  }

  /** The numbers of the rules that conclude the predicate, in order. */
  function Concluding(t: Theory, rules: seq<Rule>, pred: Pred): seq<nat> {
    if rules == [] then []
    else Concluding(t, rules[..|rules| - 1], pred)
         + if t.canon(rules[|rules| - 1].consequent.pred) == pred then [|rules| - 1] else []
  }

  /** Some condition of the rule names the entity. */
  ghost predicate Mentions(t: Theory, r: Rule, key: string) {
    MentionsIn(t, r.conditions, key)
  }

  ghost predicate MentionedBy(t: Theory, rules: seq<Rule>, key: string, i: nat) {
    i < |rules| && Mentions(t, rules[i], key)
  }

  /** The index lists the number under the entity. */
  ghost predicate Lists(index: map<string, seq<nat>>, key: string, i: nat) {
    i in ListAt(index, key)
  }

  ghost predicate MentionIndex(t: Theory, rules: seq<Rule>, index: map<string, seq<nat>>) {
    forall key: string, i: nat :: Lists(index, key, i) <==> MentionedBy(t, rules, key, i)
  }

  /** The rules that are valid and conclude something. */
  function Usable(t: Theory, valid: Rule -> bool, rules: seq<Rule>): seq<Rule> {
    if rules == [] then []
    else Usable(t, valid, rules[..|rules| - 1])
         + if valid(rules[|rules| - 1]) && t.canon(rules[|rules| - 1].consequent.pred) != NO_PRED then [rules[|rules| - 1]] else []
  }

  /** Index the entities that the conditions of rule number i name. */
  method IndexConditions(t: Theory, r: Rule, i: nat, index: map<string, seq<nat>>) returns (next: map<string, seq<nat>>)
    ensures forall key: string, j: nat :: Lists(next, key, j) <==> Lists(index, key, j) || (j == i && Mentions(t, r, key))
  {
    hide MentionsIn, Lists, Added;
    next := index;
    NoneMentioned(t);
    assert r.conditions[..0] == [];
    for k := 0 to |r.conditions|
      invariant forall key: string, j: nat :: Lists(next, key, j) <==>
                                              Lists(index, key, j) || (j == i && MentionsIn(t, r.conditions[..k], key))
    {
      assert r.conditions[..k + 1] == r.conditions[..k] + [r.conditions[k]];
      MentionsMore(t, r.conditions[..k], r.conditions[k]);
      var subject, other := t.matchKey(r.conditions[k].subj.entity), t.matchKey(r.conditions[k].obj.entity);
      if subject.Some? {
        AddedLists(next, subject.value, i);
        next := Added(next, subject.value, i);
      }
      if other.Some? {
        AddedLists(next, other.value, i);
        next := Added(next, other.value, i);
      }
    }
    assert r.conditions[..|r.conditions|] == r.conditions;
  }

  lemma NoneMentioned(t: Theory)
    ensures forall key :: !MentionsIn(t, [], key)
  {}

  lemma AddedLists(index: map<string, seq<nat>>, key: string, i: nat)
    ensures forall k: string, j: nat :: Lists(Added(index, key, i), k, j) <==> Lists(index, k, j) || (k == key && j == i)
  {}

  ghost predicate MentionsIn(t: Theory, conditions: seq<Pattern>, key: string) {
    exists p :: p in conditions && (t.matchKey(p.subj.entity) == Some(key) || t.matchKey(p.obj.entity) == Some(key))
  }

  lemma MentionsMore(t: Theory, conditions: seq<Pattern>, p: Pattern)
    ensures forall key :: MentionsIn(t, conditions + [p], key) <==>
                          MentionsIn(t, conditions, key) || t.matchKey(p.subj.entity) == Some(key) || t.matchKey(p.obj.entity) == Some(key)
  {
    assert p in conditions + [p];
  }

  ghost predicate ConsequentIndex(t: Theory, rules: seq<Rule>, index: map<Pred, seq<nat>>) {
    forall pred :: NumbersFor(index, pred) == Concluding(t, rules, pred)
  }

  /** Compile the rules: skip and count those that are invalid or conclude nothing, and index the others. */
  method CompileRules(t: Theory, valid: Rule -> bool, rules: seq<Rule>) returns (rs: RuleSet)
    ensures rs.rules == Usable(t, valid, rules) && rs.skipped + |rs.rules| == |rules|
    ensures ConsequentIndex(t, rs.rules, rs.byConsequent) && MentionIndex(t, rs.rules, rs.byConditionEntity)
  {
    hide ConsequentIndex, MentionIndex, Mentions, Lists;
    rs := RuleSet([], 0, map[], map[]);
    NothingMentioned(t);
    for i := 0 to |rules|
      invariant rs.rules == Usable(t, valid, rules[..i]) && rs.skipped + |rs.rules| == i
      invariant ConsequentIndex(t, rs.rules, rs.byConsequent) && MentionIndex(t, rs.rules, rs.byConditionEntity)
    {
      assert rules[..i + 1][..i] == rules[..i];
      var pred := t.canon(rules[i].consequent.pred);
      if !valid(rules[i]) || pred == NO_PRED {
        rs := rs.(skipped := rs.skipped + 1);
        continue;
      }
      var n := |rs.rules|;
      var mentioned := IndexConditions(t, rules[i], n, rs.byConditionEntity);
      IndexedOneMore(t, rs.rules, rules[i], rs.byConsequent);
      MentionedOneMore(t, rs.rules, rules[i], rs.byConditionEntity, mentioned);
      rs := RuleSet(rs.rules + [rules[i]], rs.skipped, rs.byConsequent[pred := NumbersFor(rs.byConsequent, pred) + [n]], mentioned);
    }
    assert rules[..|rules|] == rules;
  }

  lemma NothingMentioned(t: Theory)
    ensures MentionIndex(t, [], map[]) && ConsequentIndex(t, [], map[])
  {
    forall key: string, i: nat ensures !Lists(map[], key, i) {}
  }

  lemma IndexedOneMore(t: Theory, rules: seq<Rule>, r: Rule, index: map<Pred, seq<nat>>)
    requires ConsequentIndex(t, rules, index)
    ensures var pred := t.canon(r.consequent.pred);
            ConsequentIndex(t, rules + [r], index[pred := NumbersFor(index, pred) + [|rules|]])
  {
    var all := rules + [r];
    assert all[..|all| - 1] == rules && all[|all| - 1] == r;
    forall p ensures Concluding(t, all, p) == Concluding(t, rules, p) + if t.canon(r.consequent.pred) == p then [|rules|] else [] {
    }
  }

  lemma MentionedOneMore(t: Theory, rules: seq<Rule>, r: Rule, index: map<string, seq<nat>>, next: map<string, seq<nat>>)
    requires MentionIndex(t, rules, index)
    requires forall key: string, j: nat :: Lists(next, key, j) <==> Lists(index, key, j) || (j == |rules| && Mentions(t, r, key))
    ensures MentionIndex(t, rules + [r], next)
  {
    hide Mentions, Lists;
    var all := rules + [r];
    forall key: string, i: nat ensures Lists(next, key, i) <==> MentionedBy(t, all, key, i) {
      assert Lists(index, key, i) <==> MentionedBy(t, rules, key, i);
      assert i < |rules| ==> all[i] == rules[i];
    }
  }

  function Select(rules: seq<Rule>, numbers: seq<nat>): seq<Rule> {
    if numbers == [] then []
    else Select(rules, numbers[..|numbers| - 1])
         + if numbers[|numbers| - 1] < |rules| then [rules[numbers[|numbers| - 1]]] else []
  }

  lemma {:induction false} SelectConcluding(t: Theory, rules: seq<Rule>, all: seq<Rule>, pred: Pred)
    requires rules <= all
    ensures Select(all, Concluding(t, rules, pred)) == RulesFor(t, rules, pred)
    decreases |rules|
  {
    hide Select;
    NothingSelected(all);
    if rules != [] {
      var init := rules[..|rules| - 1];
      SelectConcluding(t, init, all, pred);
      SelectMore(all, Concluding(t, init, pred), |rules| - 1);
      assert Concluding(t, init, pred) + [] == Concluding(t, init, pred);
    }
  }

  lemma NothingSelected(all: seq<Rule>)
    ensures Select(all, []) == []
  {}

  lemma SelectMore(all: seq<Rule>, numbers: seq<nat>, n: nat)
    requires n < |all|
    ensures Select(all, numbers + [n]) == Select(all, numbers) + [all[n]]
  {
    assert (numbers + [n])[..|numbers|] == numbers;
  }

  /** The rules found through the index are those that conclude the predicate, in their order. */
  lemma IndexFindsRules(t: Theory, rs: RuleSet, pred: Pred)
    requires ConsequentIndex(t, rs.rules, rs.byConsequent)
    ensures Select(rs.rules, NumbersFor(rs.byConsequent, pred)) == RulesFor(t, rs.rules, pred)
  {
    SelectConcluding(t, rs.rules, rs.rules, pred);
  }

  // ------------------------------------------------------------------ firing

  datatype Assumption = Assumption(subj: Name, obj: Name)

  /** The rule has a condition that names one of the assumed entities. */
  ghost predicate Touched(t: Theory, r: Rule, facts: seq<Assumption>) {
    exists f, key :: f in facts && (t.matchKey(f.subj) == Some(key) || t.matchKey(f.obj) == Some(key)) && Mentions(t, r, key)
  }

  /** The rules to try: those that the facts touch, each once; all of them if nothing is assumed. */
  method ForwardCandidates(t: Theory, rs: RuleSet, facts: seq<Assumption>) returns (out: seq<nat>)
    requires MentionIndex(t, rs.rules, rs.byConditionEntity)
    ensures Distinct(out)
    ensures forall i | i in out :: i < |rs.rules| && (facts != [] ==> Touched(t, rs.rules[i], facts))
    ensures forall i: nat | i < |rs.rules| && (facts == [] || Touched(t, rs.rules[i], facts)) :: i in out
  {
    if facts == [] {
      out := seq(|rs.rules|, i => i);
      forall i: nat | i < |rs.rules| ensures i in out {
        assert out[i] == i;
      }
      return;
    }
    out := [];
    for n := 0 to |facts|
      invariant Distinct(out)
      invariant forall i: nat :: i in out <==> i < |rs.rules| && Touched(t, rs.rules[i], facts[..n])
    {
      TouchedMore(t, rs.rules, facts[..n], facts[n]);
      assert facts[..n + 1] == facts[..n] + [facts[n]];
      out := AddMentioned(t, rs, t.matchKey(facts[n].subj), out);
      out := AddMentioned(t, rs, t.matchKey(facts[n].obj), out);
    }
    assert facts[..|facts|] == facts;
  }

  lemma TouchedMore(t: Theory, rules: seq<Rule>, facts: seq<Assumption>, f: Assumption)
    ensures forall r :: Touched(t, r, facts + [f]) <==>
              Touched(t, r, facts) || MentionsKey(t, r, t.matchKey(f.subj)) || MentionsKey(t, r, t.matchKey(f.obj))
  {
    hide Mentions;
    assert forall x :: x in facts + [f] <==> x in facts || x == f;
    forall r ensures Touched(t, r, facts + [f]) <==>
              Touched(t, r, facts) || MentionsKey(t, r, t.matchKey(f.subj)) || MentionsKey(t, r, t.matchKey(f.obj))
    {
      if MentionsKey(t, r, t.matchKey(f.subj)) || MentionsKey(t, r, t.matchKey(f.obj)) {
        assert f in facts + [f];
      }
    }
  }

  ghost predicate MentionsKey(t: Theory, r: Rule, key: Option<string>) {
    key.Some? && Mentions(t, r, key.value)
  }

  method AddMentioned(t: Theory, rs: RuleSet, key: Option<string>, found: seq<nat>) returns (out: seq<nat>)
    requires MentionIndex(t, rs.rules, rs.byConditionEntity) && Distinct(found)
    ensures Distinct(out)
    ensures forall i: nat :: i in out <==> i in found || (i < |rs.rules| && MentionsKey(t, rs.rules[i], key))
  {
    out := found;
    if key == None {
      return;
    }
    var listed := ListAt(rs.byConditionEntity, key.value);
    assert forall i: nat :: i in listed <==> Lists(rs.byConditionEntity, key.value, i);
    for n := 0 to |listed|
      invariant Distinct(out)
      invariant forall i: nat :: i in out <==> i in found || i in listed[..n]
    {
      assert listed[..n + 1] == listed[..n] + [listed[n]];
      if listed[n] !in out {
        out := out + [listed[n]];
      }
    }
    assert listed[..|listed|] == listed;
  }

  datatype Fired = Fired(ruleId: string, consequent: Claim, proof: Proof)

  /** The rule concludes the claim from conditions that hold, within the depth the chainer allows, and no exception must
      veto. */
  ghost predicate Fires(t: Theory, r: Rule, c: Claim) {
    exists b :: FiresUnder(t, r, c, b)
  }

  ghost predicate FiresUnder(t: Theory, r: Rule, c: Claim, b: Bindings) {
    && !r.consequent.negated && c == Ground(t, r.consequent, b) && Grounded(c)
    && (forall p | p in r.conditions && !p.negated :: Satisfied(t, p, b, t.cfg.maxRuleDepth))
    && Standing(t, r, b, t.cfg.maxRuleDepth)
  }

  ghost predicate FiredBy(t: Theory, rules: seq<Rule>, f: Fired) {
    exists r :: r in rules && r.id == f.ruleId && Fires(t, r, f.consequent) && ProofFor(f.consequent, f.proof)
  }

  /** What firing gives: the conclusion under the first bindings that no exception stops and that leave nothing open. */
  ghost function FiringOf(t: Theory, r: Rule, branches: seq<Branch>): Option<Fired> {
    if branches == [] then None
    else
      var c := Ground(t, r.consequent, branches[0].bindings);
      if Stopped(t, r.exceptions, branches[0].bindings, {}, t.cfg.maxRuleDepth) || !Grounded(c) then FiringOf(t, r, branches[1..])
      else Some(Fired(r.id, c, ComposeProof(t, r, c, branches[0])))
  }

  ghost function FiringBranches(t: Theory, r: Rule): seq<Branch> {
    BranchesOf(t, r.conditions, map[], [], {}, t.cfg.maxRuleDepth)
  }

  /** The conditions lead to bindings that no exception stops and that leave nothing of the consequent open. */
  ghost predicate CanFire(t: Theory, r: Rule) {
    exists b :: CanFireUnder(t, r, b)
  }

  ghost predicate CanFireUnder(t: Theory, r: Rule, b: Bindings) {
    && LeadsThrough(t, r.conditions, map[], b, {}, t.cfg.maxRuleDepth)
    && !Stopped(t, r.exceptions, b, {}, t.cfg.maxRuleDepth)
    && BothBound(r.consequent, b) && t.canon(r.consequent.pred) != NO_PRED
  }

  lemma {:induction false} FiringAmong(t: Theory, r: Rule, branches: seq<Branch>)
    ensures var f := FiringOf(t, r, branches);
            && (f.Some? <==> exists x :: x in branches && !Stopped(t, r.exceptions, x.bindings, {}, t.cfg.maxRuleDepth)
                                         && Grounded(Ground(t, r.consequent, x.bindings)))
            && (f.Some? ==> exists x :: x in branches && !Stopped(t, r.exceptions, x.bindings, {}, t.cfg.maxRuleDepth)
                                        && Grounded(Ground(t, r.consequent, x.bindings)) && f.value.consequent == Ground(t, r.consequent, x.bindings))
    decreases |branches|
  {
    hide Stopped, Grounded, Ground, ComposeProof;
    if branches != [] {
      FiringAmong(t, r, branches[1..]);
      assert branches == [branches[0]] + branches[1..];
      assert branches[0] in branches;
    }
  }

  /** A rule fires exactly if its conditions lead to such bindings, exceptions, negated conditions and values offered by the
      oracle included, and concludes its consequent under them. */
  lemma FiresIff(t: Theory, r: Rule)
    ensures FiringOf(t, r, FiringBranches(t, r)).Some? <==> CanFire(t, r)
    ensures FiringOf(t, r, FiringBranches(t, r)).Some? ==>
              exists b :: CanFireUnder(t, r, b) && FiringOf(t, r, FiringBranches(t, r)).value.consequent == Ground(t, r.consequent, b)
  {
    hide Stopped, BranchesOf, LeadsThrough, FiringOf;
    var branches := FiringBranches(t, r);
    FiringAmong(t, r, branches);
    forall b ensures HasBindings(branches, b) <==> LeadsThrough(t, r.conditions, map[], b, {}, t.cfg.maxRuleDepth) {
      BranchesIff(t, r.conditions, map[], [], {}, t.cfg.maxRuleDepth, b);
    }
    if FiringOf(t, r, branches).Some? {
      var x :| x in branches && !Stopped(t, r.exceptions, x.bindings, {}, t.cfg.maxRuleDepth)
               && Grounded(Ground(t, r.consequent, x.bindings)) && FiringOf(t, r, branches).value.consequent == Ground(t, r.consequent, x.bindings);
      assert HasBindings(branches, x.bindings);
      assert CanFireUnder(t, r, x.bindings);
    }
    if b :| CanFireUnder(t, r, b) {
      assert HasBindings(branches, b);
    }
  }

  /** Nothing about the rule is left to search for, and no exception can stop it. */
  ghost predicate Ready(t: Theory, r: Rule) {
    && r.exceptions == [] && !r.consequent.negated
    && AllBound(t, r.conditions, map[]) && Grounded(Ground(t, r.consequent, map[]))
  }

  /** All conditions of the rule, as they stand, can be found to hold. */
  ghost predicate ConditionsHold(t: Theory, r: Rule) {
    AllCanHold(t, r.conditions, map[], {})
  }

  /** The names that firing the rule can meet. */
  ghost function FiringScope(t: Theory, r: Rule): set<Name> {
    Constants(t.rules) + Constants([r])
  }

  /** The limits leave room for everything that the conditions of the rule can lead to. */
  ghost predicate EnoughToFire(t: Theory, r: Rule) {
    LimitsSuffice(t, FiringScope(t, r), ConditionWork(t.rules, |r.conditions|, |Keys(t, FiringScope(t, r))|))
  }

  lemma ReadyMeans(t: Theory, r: Rule)
    requires Ready(t, r)
    ensures r.exceptions == [] && AllBound(t, r.conditions, map[]) && Grounded(Ground(t, r.consequent, map[]))
  {}

  lemma StartFiring(t: Theory, r: Rule)
    requires InFragment(t) && Ready(t, r) && EnoughToFire(t, r)
    ensures var scope, needed := FiringScope(t, r), ConditionWork(t.rules, |r.conditions|, KeysLeft(t, FiringScope(t, r), {}));
            Expected(t, scope, {}, 0) && needed <= t.cfg.maxWork && needed <= t.cfg.maxRulesConsidered
  {
    hide ConditionWork;
    StartExpected(t, FiringScope(t, r), ConditionWork(t.rules, |r.conditions|, |Keys(t, FiringScope(t, r))|));
  }

  lemma ReadyIsNamed(t: Theory, r: Rule)
    requires Ready(t, r)
    ensures AllNamesIn(t, r.conditions, map[], FiringScope(t, r))
  {
    assert r in [r];
    forall p | p in r.conditions ensures NamesIn(Ground(t, p, map[]), FiringScope(t, r)) {
      assert BothBound(p, map[]);
      assert p.subj.entity in Constants([r]) && p.obj.entity in Constants([r]);
    }
  }

  lemma FiringNext(t: Theory, r: Rule, branches: seq<Branch>, i: nat)
    requires i < |branches|
    ensures var c := Ground(t, r.consequent, branches[i].bindings);
            FiringOf(t, r, branches[i..])
            == if Stopped(t, r.exceptions, branches[i].bindings, {}, t.cfg.maxRuleDepth) || !Grounded(c) then FiringOf(t, r, branches[i + 1..])
               else Some(Fired(r.id, c, ComposeProof(t, r, c, branches[i])))
  {
    hide Stopped, Grounded, Ground, ComposeProof;
    assert branches[i..][1..] == branches[i + 1..];
  }

  lemma FiringEnds(t: Theory, r: Rule, branches: seq<Branch>)
    ensures FiringOf(t, r, branches[|branches|..]) == None && branches[0..] == branches
  {}

  /** Fire one rule: its first branch that no exception vetoes and that binds the consequent. Also says whether a limit
      was hit, and whether work was left. */
  method FireRule(reasoner: ConditionalReasoner, r: Rule) returns (res: Outcome<Option<Fired>>, capped: bool, ghost spare: bool)
    requires IsTheory(reasoner.t) && !r.consequent.negated
    ensures reasoner.Undisturbed() ==> res.Done?
    ensures res.Done? && res.value.Some? ==> FiredBy(reasoner.t, [r], res.value.value)
    ensures res.Done? && spare ==> res.value == FiringOf(reasoner.t, r, FiringBranches(reasoner.t, r))
    ensures res.Done? && InFragment(reasoner.t) && Ready(reasoner.t, r) ==>
              Right(res.value.Some?, ConditionsHold(reasoner.t, r), capped)
    ensures (spare ==> !capped) && (InFragment(reasoner.t) && Ready(reasoner.t, r) && EnoughToFire(reasoner.t, r) ==> !capped)
  {
    hide InFragment, AllCanHold, AllBound, IsTheory, Follows, Expected, KeysLeft, ConditionWork, AllNamesIn, Ready, EnoughToFire;
    hide FiringScope, Grounded, UnifyConsequent, ProofFor, BranchesOf, FiringOf, Stopped, MustVeto;
    var t := reasoner.t;
    ghost var scope := FiringScope(t, r);
    ghost var roomy := InFragment(t) && Ready(t, r) && EnoughToFire(t, r);
    if Ready(t, r) {
      ReadyMeans(t, r);
      ReadyIsNamed(t, r);
    }
    if roomy {
      StartFiring(t, r);
    }
    var s := new ConditionalState(scope);
    var evaluated := reasoner.EvalConditions(r.conditions, map[], [], s);
    if evaluated.Failed? {
      return Failed, s.capped, false;
    }
    var branches := evaluated.value;
    ghost var first := s.capped;
    FiringEnds(t, r, branches);
    for i := 0 to |branches|
      invariant s.Within(t.cfg) && s.depth == 0 && s.active == {} && (first ==> s.capped)
      invariant Ready(t, r) ==> i == 0
      invariant roomy ==> !s.capped
      invariant s.CanContinue(t.cfg) ==> branches == FiringBranches(t, r) && FiringOf(t, r, branches) == FiringOf(t, r, branches[i..])
    {
      var branch := branches[i];
      assert branch in branches;
      FiringNext(t, r, branches, i);
      var veto := reasoner.ExceptionVeto(r.exceptions, branch.bindings, s);
      if veto.Failed? {
        return Failed, s.capped, false;
      }
      var c := Ground(t, r.consequent, branch.bindings);
      if Ready(t, r) {
        GroundKept(t, r.consequent, map[], branch.bindings);
      }
      if veto.value || !Grounded(c) {
        continue;
      }
      ComposedProof(t, r, c, branch);
      assert FiresUnder(t, r, c, branch.bindings);
      assert r in [r];
      var proof := Compose(t, r, c, branch);
      return Done(Some(Fired(r.id, c, proof))), s.capped, s.CanContinue(t.cfg);
    }
    return Done(None), s.capped, s.CanContinue(t.cfg);
  }

  /** The rule has fired, or the limit is reached. */
  ghost predicate Served(r: Rule, out: seq<Fired>, limit: int) {
    |out| >= limit || exists f :: f in out && f.ruleId == r.id
  }

  /** The rule has reason to fire, as far as the limits of the search allow to see it: it has nothing left to search for,
      and its conditions can hold; or no work was used up, and it can fire. */
  ghost predicate HasReason(t: Theory, r: Rule, capped: bool, spare: bool) {
    || (InFragment(t) && Ready(t, r) && ConditionsHold(t, r) && (!capped || EnoughToFire(t, r)))
    || (spare && !r.consequent.negated && CanFire(t, r))
  }

  /** Fire the rules that the assumed facts touch: each identifier at most once, and no more than the limit, which is 500
      if none is given. Also says whether the run came to its end, whether a limit of the search was hit, and whether in
      every rule's search work was left. */
  method FireRules(reasoner: ConditionalReasoner, rs: RuleSet, facts: seq<Assumption>, maxRules: int)
    returns (out: seq<Fired>, complete: bool, capped: bool, ghost spare: bool)
    requires IsTheory(reasoner.t) && MentionIndex(reasoner.t, rs.rules, rs.byConditionEntity)
    ensures forall f | f in out :: FiredBy(reasoner.t, rs.rules, f)
    ensures spare ==> forall f | f in out :: FiredAsFound(reasoner.t, rs.rules, f)
    ensures forall i, j | 0 <= i < j < |out| :: out[i].ruleId != out[j].ruleId
    ensures |out| <= if maxRules <= 0 then 500 else maxRules
    ensures reasoner.Undisturbed() ==> complete
    ensures complete ==>
              forall r | r in rs.rules && (facts == [] || Touched(reasoner.t, r, facts)) && HasReason(reasoner.t, r, capped, spare) ::
                Served(r, out, if maxRules <= 0 then 500 else maxRules)
  {
    hide InFragment, FiredBy, FiredAsFound, Touched, MentionIndex, HasReason, IsTheory, FiringOf;
    var limit := if maxRules <= 0 then 500 else maxRules;
    out, complete, capped, spare := [], false, false, true;
    var seen: set<string> := {};
    var candidates := ForwardCandidates(reasoner.t, rs, facts);
    forall k | 0 <= k < |candidates|
      ensures 0 <= candidates[k] < |rs.rules|
    {
      assert candidates[k] in candidates;
    }
    for n := 0 to |candidates|
      invariant forall f | f in out :: FiredBy(reasoner.t, rs.rules, f) && (spare ==> FiredAsFound(reasoner.t, rs.rules, f))
      invariant forall i, j | 0 <= i < j < |out| :: out[i].ruleId != out[j].ruleId
      invariant |out| < limit && (forall id :: id in seen <==> exists f :: f in out && f.ruleId == id)
      invariant forall k | 0 <= k < n && HasReason(reasoner.t, rs.rules[candidates[k]], capped, spare) ::
                  Served(rs.rules[candidates[k]], out, limit)
    {
      var cancelled: bool := *;
      if reasoner.cancellable && cancelled {
        return;
      }
      assert candidates[n] in candidates;
      var rule := rs.rules[candidates[n]];
      if rule.consequent.negated || rule.id in seen {
        NoReasonIfNegated(reasoner.t, rule, capped, spare);
        continue;
      }
      ghost var hitBefore, spareBefore := capped, spare;
      var fired, hit;
      ghost var left;
      fired, hit, left := FireRule(reasoner, rule);
      capped, spare := capped || hit, spare && left;
      LessReason(reasoner.t, hitBefore, spareBefore, capped, spare);
      if fired.Failed? {
        return;
      }
      if HasReason(reasoner.t, rule, capped, spare) {
        FiresIfReason(reasoner.t, rule, fired.value, hit, left, capped, spare);
      }
      if fired.value.Some? {
        FiredByOne(reasoner.t, rs.rules, rule, fired.value.value);
        if spare {
          FoundByOne(reasoner.t, rs.rules, rule, fired.value.value);
        }
        ghost var before := out;
        out := out + [fired.value.value];
        assert forall f :: f in out <==> f in before || f == fired.value.value;
        seen := seen + {rule.id};
      }
      if |out| >= limit {
        complete := true;
        return;
      }
    }
    complete := true;
    forall r | r in rs.rules && (facts == [] || Touched(reasoner.t, r, facts)) && HasReason(reasoner.t, r, capped, spare)
      ensures Served(r, out, limit)
    {
      var i: nat :| i < |rs.rules| && rs.rules[i] == r;
      assert i in candidates;
    }
  }

  /** What is fired is what the rule fires. */
  ghost predicate FiredAsFound(t: Theory, rules: seq<Rule>, f: Fired) {
    exists r :: r in rules && r.id == f.ruleId && FiringOf(t, r, FiringBranches(t, r)) == Some(f)
  }

  lemma FoundByOne(t: Theory, rules: seq<Rule>, r: Rule, f: Fired)
    requires r in rules && r.id == f.ruleId && FiringOf(t, r, FiringBranches(t, r)) == Some(f)
    ensures FiredAsFound(t, rules, f)
  {}

  lemma LessReason(t: Theory, hit: bool, spare: bool, hit': bool, spare': bool)
    requires (hit ==> hit') && (spare' ==> spare)
    ensures forall r | HasReason(t, r, hit', spare') :: HasReason(t, r, hit, spare)
  {
    hide Ready, ConditionsHold, EnoughToFire, CanFire, InFragment;
  }

  lemma FiresIfReason(t: Theory, r: Rule, fired: Option<Fired>, hit: bool, left: bool, capped: bool, spare: bool)
    requires left ==> fired == FiringOf(t, r, FiringBranches(t, r))
    requires InFragment(t) && Ready(t, r) ==> Right(fired.Some?, ConditionsHold(t, r), hit)
    requires InFragment(t) && Ready(t, r) && EnoughToFire(t, r) ==> !hit
    requires (hit ==> capped) && (spare ==> left) && HasReason(t, r, capped, spare)
    ensures fired.Some?
  {
    hide Ready, ConditionsHold, EnoughToFire, CanFire, InFragment, FiringOf, FiringBranches;
    FiresIff(t, r);
  }

  lemma NoReasonIfNegated(t: Theory, r: Rule, capped: bool, spare: bool)
    ensures r.consequent.negated ==> !HasReason(t, r, capped, spare)
  {}

  lemma FiredByOne(t: Theory, rules: seq<Rule>, r: Rule, f: Fired)
    requires r in rules && FiredBy(t, [r], f)
    ensures FiredBy(t, rules, f) && f.ruleId == r.id
  {}
}
