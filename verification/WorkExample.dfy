/** A value that is passed over although no limit is marked as hit (pkg/reasoning/conditional.go): the search stops trying
    values as soon as its work is used up, and marks a limit only when it asks for more. */
module WorkExample {
  import opened Claims
  import opened Options
  import opened Rules
  import opened Proofs
  import opened Answers
  import opened Chainer

  const LIKES: Pred := "likes"
  const WHO := Var("who")

  function Base(c: Claim): Outcome<EntailResult> {
    Done(if c.pred == LIKES then EntailResult(Entailed, 1.0, None, []) else NO_SUPPORT)
  }

  /** All that is asked is true, and there is work for one value. */
  function Generous(): Theory {
    Theory(Base, c => Done(Held(false, 0.0, None)), (pred, subj, obj) => Done([]), [], Config(1, 1, 2, 1, 1.0, 0.5), p => p, n => None, n => n)
  }

  function Likes(): Pattern {
    Pattern(Term(NoName, Some(WHO)), LIKES, Term(Name("tea"), None), false)
  }

  lemma BothHold(values: seq<Name>)
    requires values == [Name("ann"), Name("bob")]
    ensures AllInBase(Generous(), Likes(), map[], WHO, values)
    ensures |ValuesOf(Generous(), Likes(), map[], WHO, values, {}, 1)| == 2
  {
    var t, p := Generous(), Likes();
    assert values[..0] == [] && values[..2] == values;
    NoValues(t, p, map[], WHO, {}, 1);
    OneHolds(values[0]);
    OneHolds(values[1]);
    ValuesMore(t, p, map[], WHO, values, 0, {}, 1);
    ValuesMore(t, p, map[], WHO, values, 1, {}, 1);
  }

  lemma OneHolds(value: Name)
    requires value != NoName
    ensures |BranchWith(Generous(), Likes(), map[], WHO, value, {}, 1)| == 1
  {
    var t, p, b := Generous(), Likes(), map[WHO := value];
    assert Bind(t, map[], WHO, value) == Some(b);
    AnswerStep(t, Ground(t, p, b), {}, 1);
  }

  /** Of two values with which the condition holds the search finds one, and is not capped. */
  method LosesValue() returns (found: seq<Branch>, capped: bool)
    ensures |found| <= 1 && !capped
    ensures |ValuesOf(Generous(), Likes(), map[], WHO, [Name("ann"), Name("bob")], {}, 1)| == 2
  {
    hide ValuesOf, AllInBase;
    var reasoner := new ConditionalReasoner(Generous(), false);
    var s := new ConditionalState({});
    var values := [Name("ann"), Name("bob")];
    BothHold(values);
    var tried := reasoner.TryValues(Likes(), map[], WHO, values, s);
    found, capped := tried.value, s.capped;
  }
}
