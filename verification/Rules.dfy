/** Conditional rules, their unification with claims, and what follows from them
    (pkg/reasoning/conditional.go). */
module Rules {
  import opened Claims
  import opened Options

  datatype Var = Var(name: string)

  /** A term may carry an entity, a variable, both or neither. */
  datatype Term = Term(entity: Name, variable: Option<Var>)

  datatype Pattern = Pattern(subj: Term, pred: Pred, obj: Term, negated: bool)

  datatype Rule = Rule(id: string, conditions: seq<Pattern>, consequent: Pattern, exceptions: seq<Pattern>, confidence: real)

  datatype Held = Held(ok: bool, confidence: real, proof: Option<Proof>)

  datatype Config = Config(maxRuleDepth: nat, maxRulesConsidered: nat, maxBindings: nat, maxWork: nat,
                           decay: real, exceptionThreshold: real)

  /** Everything the rule layer is given: the base reasoner, the condition oracle, the rules, the registry's
      canonical names, the loose entity key used for matching, and the folding used by the loop guard. */
  datatype Theory = Theory(base: Claim -> Outcome<EntailResult>,
                           holds: Claim -> Outcome<Held>,
                           bindings: (Pred, Name, Name) -> Outcome<seq<Name>>,
                           rules: seq<Rule>,
                           cfg: Config,
                           canon: Pred -> Pred,
                           matchKey: Name -> Option<string>,
                           fold: Name -> Name)

  type Bindings = map<Var, Name>

  // ------------------------------------------------------------------ terms and unification

  /** Two names denote the same entity for the rule layer. */
  function EntityMatches(t: Theory, a: Name, b: Name): bool {
    t.matchKey(a).Some? && t.matchKey(a) == t.matchKey(b)
  }

  /** The claim as it is asked: by the canonical name of its predicate. */
  ghost function CanonicalClaim(t: Theory, c: Claim): Claim {
    Claim(c.subj, t.canon(c.pred), c.obj)
  }

  predicate Grounded(c: Claim) {
    c.subj != NoName && c.pred != NO_PRED && c.obj != NoName
  }

  /** The value of a term: its entity, or else what its variable is bound to. */
  function Resolve(term: Term, b: Bindings): Name {
    if term.entity != NoName then term.entity
    else if term.variable.Some? && term.variable.value in b then b[term.variable.value]
    else NoName
  }

  function Ground(t: Theory, p: Pattern, b: Bindings): Claim {
    Claim(Resolve(p.subj, b), t.canon(p.pred), Resolve(p.obj, b))
  }

  /** Bind a variable; a bound one must match, and keeps its value. */
  function Bind(t: Theory, b: Bindings, v: Var, value: Name): Option<Bindings> {
    if value == NoName then None
    else if v in b && b[v] != NoName then (if EntityMatches(t, b[v], value) then Some(b) else None)
    else Some(b[v := value])
  }

  function UnifyTerm(t: Theory, term: Term, value: Name, b: Bindings): Option<Bindings> {
    if value == NoName then None
    else if term.variable.Some? then Bind(t, b, term.variable.value, value)
    else if term.entity != NoName && EntityMatches(t, term.entity, value) then Some(b)
    else None
  }

  function UnifyConsequent(t: Theory, p: Pattern, c: Claim): Option<Bindings> {
    if t.canon(p.pred) != c.pred then None
    else match UnifyTerm(t, p.subj, c.subj, map[])
      case None => None
      case Some(b) => UnifyTerm(t, p.obj, c.obj, b)
  }

  /** The matching keys of the two names are there, and the same. */
  ghost predicate SameEntity(t: Theory, a: Name, b: Name) {
    exists key :: t.matchKey(a) == Some(key) && t.matchKey(b) == Some(key)
  }

  /** A term stands for every name by its variable, and without one for those of its own entity. */
  ghost predicate StandsFor(t: Theory, term: Term, x: Name) {
    x != NoName && (term.variable.Some? || (term.entity != NoName && SameEntity(t, term.entity, x)))
  }

  /** A consequent unifies with exactly the claims its terms stand for, a repeated variable for the same entity twice. It
      binds exactly its variables, each to the first name it stands for. */
  lemma UnifiesIff(t: Theory, p: Pattern, c: Claim)
    ensures UnifyConsequent(t, p, c).Some? <==>
              && t.canon(p.pred) == c.pred && StandsFor(t, p.subj, c.subj) && StandsFor(t, p.obj, c.obj)
              && (p.subj.variable.Some? && p.subj.variable == p.obj.variable ==> SameEntity(t, c.subj, c.obj))
    ensures var u := UnifyConsequent(t, p, c);
            u.Some? ==>
              && (forall v :: v in u.value <==> p.subj.variable == Some(v) || p.obj.variable == Some(v))
              && (p.subj.variable.Some? ==> u.value[p.subj.variable.value] == c.subj)
              && (p.obj.variable.Some? && p.obj.variable != p.subj.variable ==> u.value[p.obj.variable.value] == c.obj)
  {
    forall a, b ensures EntityMatches(t, a, b) <==> SameEntity(t, a, b) {
    }
  }

  /** Unified with a claim, a consequent is grounded to that claim again, up to names of the same entity, unless a term
      carries an entity beside its variable. */
  lemma UnifiedIsClaimed(t: Theory, p: Pattern, c: Claim)
    requires UnifyConsequent(t, p, c).Some?
    ensures var g := Ground(t, p, UnifyConsequent(t, p, c).value);
            && g.pred == c.pred
            && (p.subj.variable.None? || p.subj.entity == NoName ==> g.subj == c.subj || SameEntity(t, g.subj, c.subj))
            && (p.obj.variable.None? || p.obj.entity == NoName ==> g.obj == c.obj || SameEntity(t, g.obj, c.obj))
  {
    UnifiesIff(t, p, c);
  }

  /** A term's entity goes before its variable; a variable has the value last bound to it, and other variables theirs. */
  lemma BindingMeans(term: Term, b: Bindings, v: Var, x: Name)
    ensures Resolve(term, map[]) == term.entity
    ensures term.entity != NoName ==> Resolve(term, b) == term.entity
    ensures term.entity == NoName && term.variable == Some(v) ==> Resolve(term, b[v := x]) == x
    ensures term.variable != Some(v) ==> Resolve(term, b[v := x]) == Resolve(term, b)
  {}

  ghost predicate Extends(b: Bindings, b': Bindings) {
    forall v | v in b && b[v] != NoName :: v in b' && b'[v] == b[v]
  }

  lemma GroundKept(t: Theory, p: Pattern, b: Bindings, b': Bindings)
    requires Extends(b, b') && Grounded(Ground(t, p, b))
    ensures Ground(t, p, b') == Ground(t, p, b)
  {}

  // ------------------------------------------------------------------ what follows

  ghost predicate BaseEntails(t: Theory, c: Claim) {
    t.base(c).Done? && t.base(c).value.verdict == Entailed
  }

  ghost predicate BaseContradicts(t: Theory, c: Claim) {
    t.base(c).Done? && t.base(c).value.verdict == Contradicted
  }

  ghost predicate OracleHolds(t: Theory, c: Claim) {
    t.holds(c).Done? && t.holds(c).value.ok
  }

  /** The claim is a base fact, or follows by at most n layers of rules from base and oracle facts. Rules apply
      to claims the base does not contradict; exceptions and negated conditions are disregarded, so this is the
      most the rules could yield. */
  ghost predicate Follows(t: Theory, c: Claim, n: nat)
    decreases n, 0
  {
    BaseEntails(t, c) || (n > 0 && !BaseContradicts(t, c) && exists r :: r in t.rules && ByRule(t, r, c, n - 1))
  }

  ghost predicate ByRule(t: Theory, r: Rule, c: Claim, n: nat)
    decreases n, 3
  {
    exists b :: Concludes(t, r, b, c, n)
  }

  /** Under the bindings b the rule concludes the claim from conditions that hold within n layers. */
  ghost predicate Concludes(t: Theory, r: Rule, b: Bindings, c: Claim, n: nat)
    decreases n, 2
  {
    && !r.consequent.negated && Grounded(c)
    && UnifyConsequent(t, r.consequent, c).Some?
    && Extends(UnifyConsequent(t, r.consequent, c).value, b)
    && forall p | p in r.conditions && !p.negated :: Satisfied(t, p, b, n)
  }

  ghost predicate Satisfied(t: Theory, p: Pattern, b: Bindings, n: nat)
    decreases n, 1
  {
    Grounded(Ground(t, p, b)) && (Follows(t, Ground(t, p, b), n) || OracleHolds(t, Ground(t, p, b)))
  }

  /** The claim is in the least set that has the base facts and is closed under the rules. */
  ghost predicate FollowsAtAll(t: Theory, c: Claim) {
    exists n: nat :: Follows(t, c, n)
  }

  lemma SatisfiedKept(t: Theory, p: Pattern, b: Bindings, b': Bindings, n: nat)
    requires Satisfied(t, p, b, n) && Extends(b, b')
    ensures Satisfied(t, p, b', n)
  {
    GroundKept(t, p, b, b');
  }

  lemma {:induction false} FollowsMore(t: Theory, c: Claim, n: nat)
    requires Follows(t, c, n)
    ensures Follows(t, c, n + 1)
    decreases n
  {
    if !BaseEntails(t, c) {
      var r :| r in t.rules && ByRule(t, r, c, n - 1);
      var b :| Concludes(t, r, b, c, n - 1);
      forall p | p in r.conditions && !p.negated ensures Satisfied(t, p, b, n) {
        assert Satisfied(t, p, b, n - 1);
        if Follows(t, Ground(t, p, b), n - 1) {
          FollowsMore(t, Ground(t, p, b), n - 1);
        }
      }
      assert Concludes(t, r, b, c, n);
      assert ByRule(t, r, c, n);
    }
  }

  // ------------------------------------------------------------------ the loop guard

  /** What the guard remembers of a rule being tried on a claim. */
  datatype ActiveKey = ActiveKey(ruleId: string, subj: Name, pred: Pred, obj: Name)

  function KeyOf(t: Theory, r: Rule, c: Claim): ActiveKey {
    ActiveKey(r.id, t.fold(c.subj), c.pred, t.fold(c.obj))
  }

  /** The claims look the same to the guard. */
  ghost predicate Alike(t: Theory, c: Claim, c': Claim) {
    t.fold(c.subj) == t.fold(c'.subj) && c.pred == c'.pred && t.fold(c.obj) == t.fold(c'.obj)
  }

  /** A derivation of height at most h in which no rule is used on a claim the guard blocks. */
  ghost predicate Derives(t: Theory, c: Claim, h: nat, A: set<ActiveKey>)
    decreases h, 0
  {
    BaseEntails(t, c) || (h > 0 && !BaseContradicts(t, c) && exists r :: r in t.rules && KeyOf(t, r, c) !in A && Applies(t, r, c, h - 1, A))
  }

  ghost predicate Applies(t: Theory, r: Rule, c: Claim, h: nat, A: set<ActiveKey>)
    decreases h, 2
  {
    && !r.consequent.negated && Grounded(c)
    && UnifyConsequent(t, r.consequent, c).Some?
    && forall p | p in r.conditions :: HoldsBy(t, Ground(t, p, UnifyConsequent(t, r.consequent, c).value), h, A)
  }

  ghost predicate HoldsBy(t: Theory, c: Claim, h: nat, A: set<ActiveKey>)
    decreases h, 1
  {
    Grounded(c) && (Derives(t, c, h, A) || OracleHolds(t, c))
  }

  lemma {:induction false} DerivesMore(t: Theory, c: Claim, h: nat, k: nat, A: set<ActiveKey>)
    requires Derives(t, c, h, A) && h <= k
    ensures Derives(t, c, k, A)
    decreases h, 0
  {
    if !BaseEntails(t, c) {
      var r :| r in t.rules && KeyOf(t, r, c) !in A && Applies(t, r, c, h - 1, A);
      AppliesMore(t, r, c, h - 1, k - 1, A);
    }
  }

  lemma {:induction false} AppliesMore(t: Theory, r: Rule, c: Claim, h: nat, k: nat, A: set<ActiveKey>)
    requires Applies(t, r, c, h, A) && h <= k
    ensures Applies(t, r, c, k, A)
    decreases h, 1
  {
    var b := UnifyConsequent(t, r.consequent, c).value;
    forall p | p in r.conditions ensures HoldsBy(t, Ground(t, p, b), k, A) {
      assert HoldsBy(t, Ground(t, p, b), h, A);
      if Derives(t, Ground(t, p, b), h, A) {
        DerivesMore(t, Ground(t, p, b), h, k, A);
      }
    }
  }

  /** Canonicalizing twice is canonicalizing once. */
  ghost predicate IsTheory(t: Theory) {
    forall p :: t.canon(t.canon(p)) == t.canon(p)
  }

  /** Matching sees names no more sharply than the guard: it lower-cases them too. */
  ghost predicate MatchesFolded(t: Theory) {
    forall a, b | t.fold(a) == t.fold(b) :: t.matchKey(a) == t.matchKey(b) && (a == NoName <==> b == NoName)
  }

  /** The claim holds as a condition, without any rule. */
  ghost predicate Known(t: Theory, c: Claim) {
    BaseEntails(t, c) || OracleHolds(t, c)
  }

  /** A claim as the search asks it. */
  ghost predicate Canonical(t: Theory, c: Claim) {
    Grounded(c) && t.canon(c.pred) == c.pred
  }

  /** Base and oracle treat alike the claims that look the same to the guard: they know both or neither, and if
      neither, the base contradicts both or neither. */
  ghost predicate TreatsAlike(t: Theory) {
    forall c, c' | Canonical(t, c) && Canonical(t, c') && Alike(t, c, c') ::
      (Known(t, c) <==> Known(t, c')) && (!Known(t, c) ==> (BaseContradicts(t, c) <==> BaseContradicts(t, c')))
  }

  ghost predicate AlikeBindings(t: Theory, b: Bindings, b': Bindings) {
    b.Keys == b'.Keys && forall v | v in b :: t.fold(b[v]) == t.fold(b'[v])
  }

  lemma AlikeTerm(t: Theory, term: Term, x: Name, x': Name, b: Bindings, b': Bindings)
    requires MatchesFolded(t) && t.fold(x) == t.fold(x') && AlikeBindings(t, b, b')
    ensures UnifyTerm(t, term, x, b).Some? <==> UnifyTerm(t, term, x', b').Some?
    ensures UnifyTerm(t, term, x, b).Some? ==>
              AlikeBindings(t, UnifyTerm(t, term, x, b).value, UnifyTerm(t, term, x', b').value)
  {
    assert x == NoName <==> x' == NoName;
    assert t.matchKey(x) == t.matchKey(x');
    if term.variable.Some? && term.variable.value in b {
      assert t.fold(b[term.variable.value]) == t.fold(b'[term.variable.value]);
    }
  }

  lemma AlikeUnify(t: Theory, p: Pattern, c: Claim, c': Claim)
    requires MatchesFolded(t) && Alike(t, c, c')
    ensures UnifyConsequent(t, p, c).Some? <==> UnifyConsequent(t, p, c').Some?
    ensures UnifyConsequent(t, p, c).Some? ==>
              AlikeBindings(t, UnifyConsequent(t, p, c).value, UnifyConsequent(t, p, c').value)
  {
    AlikeTerm(t, p.subj, c.subj, c'.subj, map[], map[]);
    if t.canon(p.pred) == c.pred && UnifyTerm(t, p.subj, c.subj, map[]).Some? {
      AlikeTerm(t, p.obj, c.obj, c'.obj,
                UnifyTerm(t, p.subj, c.subj, map[]).value, UnifyTerm(t, p.subj, c'.subj, map[]).value);
    }
  }

  /** Conditions grounded alike look the same, and are both canonical or neither. */
  lemma AlikeGround(t: Theory, p: Pattern, b: Bindings, b': Bindings)
    requires IsTheory(t) && MatchesFolded(t) && AlikeBindings(t, b, b')
    ensures Alike(t, Ground(t, p, b), Ground(t, p, b'))
    ensures Grounded(Ground(t, p, b)) ==> Canonical(t, Ground(t, p, b)) && Canonical(t, Ground(t, p, b'))
  {
    forall term: Term ensures t.fold(Resolve(term, b)) == t.fold(Resolve(term, b')) {
    }
  }

  /** A rule that applies to a claim applies to one that looks the same, if alike conditions hold alike. */
  lemma AlikeApplies(t: Theory, r: Rule, c: Claim, c': Claim, h: nat, A: set<ActiveKey>)
    requires IsTheory(t) && MatchesFolded(t) && Alike(t, c, c') && Applies(t, r, c, h, A)
    requires forall x, x' | Canonical(t, x) && Canonical(t, x') && Alike(t, x, x') && HoldsBy(t, x, h, A) :: HoldsBy(t, x', h, A)
    ensures Applies(t, r, c', h, A)
  {
    AlikeUnify(t, r.consequent, c, c');
    var b, b' := UnifyConsequent(t, r.consequent, c).value, UnifyConsequent(t, r.consequent, c').value;
    forall p | p in r.conditions ensures HoldsBy(t, Ground(t, p, b'), h, A) {
      AlikeGround(t, p, b, b');
      assert HoldsBy(t, Ground(t, p, b), h, A);
    }
  }

  /** Claims that look the same to the guard hold alike as conditions. */
  lemma {:induction false} Transport(t: Theory, c: Claim, c': Claim, h: nat, A: set<ActiveKey>)
    requires IsTheory(t) && MatchesFolded(t) && TreatsAlike(t)
    requires Canonical(t, c) && Canonical(t, c') && Alike(t, c, c') && HoldsBy(t, c, h, A)
    ensures HoldsBy(t, c', h, A)
    decreases h
  {
    if !Known(t, c) {
      var r :| r in t.rules && KeyOf(t, r, c) !in A && Applies(t, r, c, h - 1, A);
      forall x, x' | Canonical(t, x) && Canonical(t, x') && Alike(t, x, x') && HoldsBy(t, x, h - 1, A)
        ensures HoldsBy(t, x', h - 1, A)
      {
        Transport(t, x, x', h - 1, A);
      }
      AlikeApplies(t, r, c, c', h - 1, A);
      assert KeyOf(t, r, c') == KeyOf(t, r, c);
    }
  }

  /** The key is used on an unknown claim that looks like c, somewhere within height h. */
  ghost predicate Repeats(t: Theory, c: Claim, h: nat, A: set<ActiveKey>) {
    exists x :: Alike(t, x, c) && !Known(t, x) && Derives(t, x, h, A)
  }

  /** Either the condition does without the key of r and c, or a claim like c is derived inside it. */
  lemma {:induction false} AvoidsOrRepeats(t: Theory, x: Claim, h: nat, A: set<ActiveKey>, r: Rule, c: Claim)
    requires HoldsBy(t, x, h, A)
    ensures HoldsBy(t, x, h, A + {KeyOf(t, r, c)}) || Repeats(t, c, h, A)
    decreases h
  {
    if !Known(t, x) {
      var s :| s in t.rules && KeyOf(t, s, x) !in A && Applies(t, s, x, h - 1, A);
      if KeyOf(t, s, x) == KeyOf(t, r, c) {
        assert Alike(t, x, c);
      } else {
        var b := UnifyConsequent(t, s.consequent, x).value;
        if forall p | p in s.conditions :: HoldsBy(t, Ground(t, p, b), h - 1, A + {KeyOf(t, r, c)}) {
          assert Applies(t, s, x, h - 1, A + {KeyOf(t, r, c)});
        } else {
          var p :| p in s.conditions && !HoldsBy(t, Ground(t, p, b), h - 1, A + {KeyOf(t, r, c)});
          assert HoldsBy(t, Ground(t, p, b), h - 1, A);
          AvoidsOrRepeats(t, Ground(t, p, b), h - 1, A, r, c);
          var y :| Alike(t, y, c) && !Known(t, y) && Derives(t, y, h - 1, A);
          DerivesMore(t, y, h - 1, h, A);
        }
      }
    }
  }

  /** A rule applies to a claim without coming back to it, or the claim can be derived lower. */
  lemma AppliesOrLower(t: Theory, r: Rule, c: Claim, h: nat, A: set<ActiveKey>)
    requires IsTheory(t) && MatchesFolded(t) && TreatsAlike(t) && Canonical(t, c) && Applies(t, r, c, h, A)
    ensures Applies(t, r, c, h, A + {KeyOf(t, r, c)}) || Derives(t, c, h, A)
  {
    var b := UnifyConsequent(t, r.consequent, c).value;
    if p :| p in r.conditions && !HoldsBy(t, Ground(t, p, b), h, A + {KeyOf(t, r, c)}) {
      assert HoldsBy(t, Ground(t, p, b), h, A);
      AvoidsOrRepeats(t, Ground(t, p, b), h, A, r, c);
      var y :| Alike(t, y, c) && !Known(t, y) && Derives(t, y, h, A);
      assert Canonical(t, y);
      Transport(t, y, c, h, A);
      assert !Known(t, c);
    }
  }

  /** A claim that can be derived at all can be derived by some rule whose conditions do not come back to it. */
  lemma {:induction false} GuardLosesNothing(t: Theory, c: Claim, h: nat, A: set<ActiveKey>) returns (r: Rule, k: nat)
    requires IsTheory(t) && MatchesFolded(t) && TreatsAlike(t)
    requires Canonical(t, c) && Derives(t, c, h, A) && !BaseEntails(t, c)
    ensures !BaseContradicts(t, c)
    ensures r in t.rules && KeyOf(t, r, c) !in A && Applies(t, r, c, k, A + {KeyOf(t, r, c)}) && k < h
    decreases h
  {
    hide Applies, TreatsAlike, MatchesFolded, IsTheory;
    r :| r in t.rules && KeyOf(t, r, c) !in A && Applies(t, r, c, h - 1, A);
    k := h - 1;
    AppliesOrLower(t, r, c, k, A);
    if !Applies(t, r, c, k, A + {KeyOf(t, r, c)}) {
      r, k := GuardLosesNothing(t, c, h - 1, A);
    }
  }

  // ------------------------------------------------------------------ what the guarded search can find

  /** A derivation of height at most h in which no rule is used on a claim that looks like one it is already
      being used on further up, nor on one the guard blocks from the start. */
  ghost predicate Guarded(t: Theory, c: Claim, h: nat, A: set<ActiveKey>)
    decreases h, 0
  {
    BaseEntails(t, c)
    || (h > 0 && !BaseContradicts(t, c)
        && exists r :: r in t.rules && KeyOf(t, r, c) !in A && GuardedApplies(t, r, c, h - 1, A + {KeyOf(t, r, c)}))
  }

  ghost predicate GuardedApplies(t: Theory, r: Rule, c: Claim, h: nat, A: set<ActiveKey>)
    decreases h, 2
  {
    && !r.consequent.negated && Grounded(c)
    && UnifyConsequent(t, r.consequent, c).Some?
    && forall p | p in r.conditions :: GuardedHolds(t, Ground(t, p, UnifyConsequent(t, r.consequent, c).value), h, A)
  }

  ghost predicate GuardedHolds(t: Theory, c: Claim, h: nat, A: set<ActiveKey>)
    decreases h, 1
  {
    Grounded(c) && (Guarded(t, c, h, A) || OracleHolds(t, c))
  }

  lemma {:induction false} GuardedMore(t: Theory, c: Claim, h: nat, k: nat, A: set<ActiveKey>)
    requires Guarded(t, c, h, A) && h <= k
    ensures Guarded(t, c, k, A)
    decreases h, 0
  {
    if !BaseEntails(t, c) {
      var r :| r in t.rules && KeyOf(t, r, c) !in A && GuardedApplies(t, r, c, h - 1, A + {KeyOf(t, r, c)});
      GuardedAppliesMore(t, r, c, h - 1, k - 1, A + {KeyOf(t, r, c)});
    }
  }

  lemma {:induction false} GuardedAppliesMore(t: Theory, r: Rule, c: Claim, h: nat, k: nat, A: set<ActiveKey>)
    requires GuardedApplies(t, r, c, h, A) && h <= k
    ensures GuardedApplies(t, r, c, k, A)
    decreases h, 1
  {
    var b := UnifyConsequent(t, r.consequent, c).value;
    forall p | p in r.conditions ensures GuardedHolds(t, Ground(t, p, b), k, A) {
      assert GuardedHolds(t, Ground(t, p, b), h, A);
      if Guarded(t, Ground(t, p, b), h, A) {
        GuardedMore(t, Ground(t, p, b), h, k, A);
      }
    }
  }

  lemma {:induction false} DerivesUnblocked(t: Theory, c: Claim, h: nat, A: set<ActiveKey>, B: set<ActiveKey>)
    requires Derives(t, c, h, A) && B <= A
    ensures Derives(t, c, h, B)
    decreases h
  {
    if !BaseEntails(t, c) {
      var r :| r in t.rules && KeyOf(t, r, c) !in A && Applies(t, r, c, h - 1, A);
      var b := UnifyConsequent(t, r.consequent, c).value;
      forall p | p in r.conditions ensures HoldsBy(t, Ground(t, p, b), h - 1, B) {
        assert HoldsBy(t, Ground(t, p, b), h - 1, A);
        if Derives(t, Ground(t, p, b), h - 1, A) {
          DerivesUnblocked(t, Ground(t, p, b), h - 1, A, B);
        }
      }
      assert Applies(t, r, c, h - 1, B);
    }
  }

  /** What the guarded search can find is derivable. */
  lemma {:induction false} GuardedDerives(t: Theory, c: Claim, h: nat, A: set<ActiveKey>)
    requires Guarded(t, c, h, A)
    ensures Derives(t, c, h, A)
    decreases h
  {
    if !BaseEntails(t, c) {
      var r :| r in t.rules && KeyOf(t, r, c) !in A && GuardedApplies(t, r, c, h - 1, A + {KeyOf(t, r, c)});
      var b := UnifyConsequent(t, r.consequent, c).value;
      forall p | p in r.conditions ensures HoldsBy(t, Ground(t, p, b), h - 1, A) {
        assert GuardedHolds(t, Ground(t, p, b), h - 1, A + {KeyOf(t, r, c)});
        if Guarded(t, Ground(t, p, b), h - 1, A + {KeyOf(t, r, c)}) {
          GuardedDerives(t, Ground(t, p, b), h - 1, A + {KeyOf(t, r, c)});
          DerivesUnblocked(t, Ground(t, p, b), h - 1, A + {KeyOf(t, r, c)}, A);
        }
      }
      assert Applies(t, r, c, h - 1, A);
    }
  }

  /** And what is derivable the guarded search can find, at the same height, if base and oracle treat alike what the
      guard does not tell apart. */
  lemma {:induction false} DerivesGuarded(t: Theory, c: Claim, h: nat, A: set<ActiveKey>)
    requires IsTheory(t) && MatchesFolded(t) && TreatsAlike(t)
    requires Derives(t, c, h, A) && t.canon(c.pred) == c.pred
    ensures Guarded(t, c, h, A)
    decreases h
  {
    if !BaseEntails(t, c) {
      var r, k := GuardLosesNothing(t, c, h, A);
      var A' := A + {KeyOf(t, r, c)};
      var b := UnifyConsequent(t, r.consequent, c).value;
      forall p | p in r.conditions ensures GuardedHolds(t, Ground(t, p, b), k, A') {
        assert HoldsBy(t, Ground(t, p, b), k, A');
        if Derives(t, Ground(t, p, b), k, A') {
          DerivesGuarded(t, Ground(t, p, b), k, A');
        }
      }
      assert GuardedApplies(t, r, c, k, A');
      GuardedAppliesMore(t, r, c, k, h - 1, A');
    }
  }

  // ------------------------------------------------------------------ the fragment without search for values

  ghost predicate BoundBy(term: Term, consequent: Pattern) {
    term.entity != NoName
    || (term.variable.Some? && (term.variable == consequent.subj.variable || term.variable == consequent.obj.variable))
  }

  ghost predicate PlainConditions(conditions: seq<Pattern>, consequent: Pattern) {
    forall p | p in conditions :: !p.negated && BoundBy(p.subj, consequent) && BoundBy(p.obj, consequent)
  }

  ghost predicate PlainRule(r: Rule) {
    r.exceptions == [] && PlainConditions(r.conditions, r.consequent)
  }

  /** No exceptions, no negated conditions, and every condition variable occurs in the consequent. */
  ghost predicate InFragment(t: Theory) {
    forall r | r in t.rules :: PlainRule(r)
  }

  /** What is bound after unification with a consequent. */
  lemma BoundAfterUnify(t: Theory, r: Rule, c: Claim, term: Term)
    requires UnifyConsequent(t, r.consequent, c).Some? && BoundBy(term, r.consequent)
    ensures Resolve(term, UnifyConsequent(t, r.consequent, c).value) != NoName
  {}

  /** In the fragment, following by n layers of rules and having a derivation of height n are the same. */
  lemma {:induction false} FollowsIffDerives(t: Theory, c: Claim, n: nat)
    requires InFragment(t)
    ensures Follows(t, c, n) <==> Derives(t, c, n, {})
    decreases n
  {
    if Follows(t, c, n) && !BaseEntails(t, c) {
      var r :| r in t.rules && ByRule(t, r, c, n - 1);
      var b :| Concludes(t, r, b, c, n - 1);
      var u := UnifyConsequent(t, r.consequent, c).value;
      assert PlainRule(r);
      forall p | p in r.conditions ensures HoldsBy(t, Ground(t, p, u), n - 1, {}) {
        assert Satisfied(t, p, b, n - 1);
        BoundAfterUnify(t, r, c, p.subj);
        BoundAfterUnify(t, r, c, p.obj);
        GroundKept(t, p, u, b);
        FollowsIffDerives(t, Ground(t, p, u), n - 1);
      }
      assert Applies(t, r, c, n - 1, {});
    }
    if Derives(t, c, n, {}) && !BaseEntails(t, c) {
      var r :| r in t.rules && KeyOf(t, r, c) !in {} && Applies(t, r, c, n - 1, {});
      var u := UnifyConsequent(t, r.consequent, c).value;
      forall p | p in r.conditions && !p.negated ensures Satisfied(t, p, u, n - 1) {
        assert HoldsBy(t, Ground(t, p, u), n - 1, {});
        FollowsIffDerives(t, Ground(t, p, u), n - 1);
      }
      assert Concludes(t, r, u, c, n - 1);
      assert ByRule(t, r, c, n - 1);
    }
  }
}
