/** A theory on which the loop guard loses an answer, because it lower-cases names and the base does not. */
module GuardExample {
  import opened Claims
  import opened Options
  import opened Rules
  import opened Proofs
  import opened Chainer
  import opened GuardExact

  const LOWER := Name("a")
  const UPPER := Name("A")
  const OTHER := Name("b")
  const P := "p"
  const S := "s"

  function ToLower(n: Name): Name {
    if n == UPPER then LOWER else n
  }

  function MatchKey(n: Name): Option<string> {
    if n == NoName then None else Some(ToLower(n).text)
  }

  /** Only s(A, b) is known. */
  function Base(c: Claim): Outcome<EntailResult> {
    Done(EntailResult(if c == Claim(UPPER, S, OTHER) then Entailed else Unsupported, 1.0, None, []))
  }

  /** p(x, y) if s(x, y). */
  function First(): Rule {
    Rule("first", [Pattern(Variable("x"), S, Variable("y"), false)], Pattern(Variable("x"), P, Variable("y"), false), [], 1.0)
  }

  /** s(x, y) if p(A, y). */
  function Second(): Rule {
    Rule("second", [Pattern(Term(UPPER, None), P, Variable("y"), false)], Pattern(Variable("x"), S, Variable("y"), false), [], 1.0)
  }

  function Losing(): Theory {
    Theory(Base, c => Done(Held(false, 0.0, None)), (p, a, b) => Done([]), [First(), Second()],
           Config(8, 64, 16, 256, 1.0, 0.5), p => p, MatchKey, ToLower)
  }

  /** How the rules meet the claims about b. */
  lemma Grounds(x: Name)
    requires x == LOWER || x == UPPER
    ensures var u := UnifyConsequent(Losing(), First().consequent, Claim(x, P, OTHER));
            u.Some? && Ground(Losing(), First().conditions[0], u.value) == Claim(x, S, OTHER)
    ensures var u := UnifyConsequent(Losing(), Second().consequent, Claim(x, S, OTHER));
            u.Some? && Ground(Losing(), Second().conditions[0], u.value) == Claim(UPPER, P, OTHER)
  {}

  /** The claim follows, from s(A, b) by the first, the second and the first rule again. */
  lemma LowerFollows()
    ensures Follows(Losing(), Claim(LOWER, P, OTHER), 3)
  {
    Grounds(UPPER);
    StepUp(Losing(), First(), Claim(UPPER, P, OTHER), 0);
    Grounds(LOWER);
    StepUp(Losing(), Second(), Claim(LOWER, S, OTHER), 1);
    StepUp(Losing(), First(), Claim(LOWER, P, OTHER), 2);
  }

  lemma OnlyRule(r: Rule, c: Claim)
    requires r in Losing().rules && UnifyConsequent(Losing(), r.consequent, c).Some?
    ensures (c.pred == P && r == First()) || (c.pred == S && r == Second())
  {}

  /** A claim that is not known can only be found by the one rule for its predicate, from the condition of the rule. */
  lemma Needs(r: Rule, c: Claim, h: nat, A: set<ActiveKey>)
    requires c != Claim(UPPER, S, OTHER) && ((c.pred == P && r == First()) || (c.pred == S && r == Second()))
    requires Guarded(Losing(), c, h, A)
    ensures KeyOf(Losing(), r, c) !in A && h > 0 && UnifyConsequent(Losing(), r.consequent, c).Some?
    ensures Guarded(Losing(), Ground(Losing(), r.conditions[0], UnifyConsequent(Losing(), r.consequent, c).value), h - 1, A + {KeyOf(Losing(), r, c)})
  {
    var t := Losing();
    var x :| x in t.rules && KeyOf(t, x, c) !in A && GuardedApplies(t, x, c, h - 1, A + {KeyOf(t, x, c)});
    OnlyRule(x, c);
    assert r.conditions[0] in r.conditions;
    assert GuardedHolds(t, Ground(t, r.conditions[0], UnifyConsequent(t, r.consequent, c).value), h - 1, A + {KeyOf(t, r, c)});
  }

  /** No search under the guard finds the claim. */
  lemma LowerNotFound(h: nat)
    ensures !Guarded(Losing(), Claim(LOWER, P, OTHER), h, {})
  {
    var t := Losing();
    if Guarded(t, Claim(LOWER, P, OTHER), h, {}) {
      Grounds(LOWER);
      Needs(First(), Claim(LOWER, P, OTHER), h, {});
      Needs(Second(), Claim(LOWER, S, OTHER), h - 1, {} + {KeyOf(t, First(), Claim(LOWER, P, OTHER))});
      Needs(First(), Claim(UPPER, P, OTHER), h - 2,
            {} + {KeyOf(t, First(), Claim(LOWER, P, OTHER))} + {KeyOf(t, Second(), Claim(LOWER, S, OTHER))});
    }
  }

  lemma BaseSeesCase()
    ensures InFragment(Losing()) && !TreatsAlike(Losing())
  {
    assert Alike(Losing(), Claim(LOWER, S, OTHER), Claim(UPPER, S, OTHER));
  }

  /** The claim follows from the rules, but the guarded search does not find it. */
  lemma GuardCanLose()
    ensures InFragment(Losing()) && Follows(Losing(), Claim(LOWER, P, OTHER), 3)
    ensures !Derivable(Losing(), Claim(LOWER, P, OTHER), {}) && !TreatsAlike(Losing())
  {
    hide Losing, First, Second, InFragment, TreatsAlike;
    LowerFollows();
    forall h: nat ensures !Guarded(Losing(), Claim(LOWER, P, OTHER), h, {}) {
      LowerNotFound(h);
    }
    BaseSeesCase();
  }
}
