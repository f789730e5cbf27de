/** Claims checked by the graph engine, with the proofs it returns judged by the predicates their steps establish
    (pkg/reasoning/native.go, pkg/reasoning/orientation.go). */
module Native {
  import opened Claims
  import opened Graphs
  import opened Options
  import opened Registry
  import opened Entailment
  import opened Sets
  import AcceptedCodec

  /** One row of the engine's result. */
  datatype EngineRow = EngineRow(verdict: Option<Verdict>, confidence: real, proof: Option<Proof>)

  /** The reasoner over a graph: entity types and spellings in the graph, and the answers of its engine to claims
      with an encoded list of accepted predicates, if they are enforced. */
  datatype Reasoner = Reasoner(reg: Registry, enforce: bool,
                               types: Name -> set<string>,
                               resolve: Name -> Name,
                               contradicts: Claim -> Outcome<(bool, Option<Proof>)>,
                               engine: (Claim, Option<string>) -> Outcome<seq<EngineRow>>)

  // ------------------------------------------------------------------ stored direction

  predicate Intersect(got: set<string>, want: set<string>) {
    got * want != {}
  }

  /** The predicate an edge expresses, judging by the types of its ends. */
  function OrientedPredicate(reg: Registry, pred: Pred, head: set<string>, tail: set<string>): Pred {
    if head == {} || tail == {} || pred !in reg.byRaw then pred
    else
      var m := reg.byRaw[pred];
      if m.domain == {} || m.range == {} || (Intersect(head, m.domain) && Intersect(tail, m.range)) then pred
      else if m.inverseOf == "" || m.inverseOf !in reg.byRaw then pred
      else
        var inv := reg.byRaw[m.inverseOf];
        if inv.domain == {} || inv.range == {} then pred
        else if Intersect(head, inv.domain) && Intersect(tail, inv.range) then inv.canonical
        else pred
  }

  /** Each end has a type that is declared for it. */
  ghost predicate Suits(m: Meta, head: set<string>, tail: set<string>) {
    (exists a :: a in head && a in m.domain) && (exists b :: b in tail && b in m.range)
  }

  /** The predicate declares types, and they do not suit the ends, but those of its inverse do. */
  ghost predicate Reversed(reg: Registry, pred: Pred, head: set<string>, tail: set<string>) {
    && pred in reg.byRaw && reg.byRaw[pred].domain != {} && reg.byRaw[pred].range != {} && !Suits(reg.byRaw[pred], head, tail)
    && reg.byRaw[pred].inverseOf != "" && reg.byRaw[pred].inverseOf in reg.byRaw
    && Suits(reg.byRaw[reg.byRaw[pred].inverseOf], head, tail)
  }

  /** An edge is read by the inverse exactly if it is reversed. */
  lemma OrientedIff(reg: Registry, pred: Pred, head: set<string>, tail: set<string>)
    ensures OrientedPredicate(reg, pred, head, tail)
            == if Reversed(reg, pred, head, tail) then reg.byRaw[reg.byRaw[pred].inverseOf].canonical else pred
  {
    if pred in reg.byRaw {
      IntersectIff(head, reg.byRaw[pred].domain);
      IntersectIff(tail, reg.byRaw[pred].range);
      if reg.byRaw[pred].inverseOf in reg.byRaw {
        IntersectIff(head, reg.byRaw[reg.byRaw[pred].inverseOf].domain);
        IntersectIff(tail, reg.byRaw[reg.byRaw[pred].inverseOf].range);
      }
    }
  }

  lemma IntersectIff(got: set<string>, want: set<string>)
    ensures Intersect(got, want) <==> exists x :: x in got && x in want
  {
    if x :| x in got && x in want {
      assert x in got * want;
    }
  }

  /** If the types of the ends suit the predicate or its inverse, they suit the one by which the edge is read. */
  lemma ReadingSuits(reg: Registry, pred: Pred, head: set<string>, tail: set<string>)
    requires pred in reg.byRaw && reg.byRaw[pred].domain != {} && reg.byRaw[pred].range != {}
    requires reg.byRaw[pred].inverseOf != "" && reg.byRaw[pred].inverseOf in reg.byRaw
    requires Suits(reg.byRaw[pred], head, tail) || Suits(reg.byRaw[reg.byRaw[pred].inverseOf], head, tail)
    ensures var k, m, inv := OrientedPredicate(reg, pred, head, tail), reg.byRaw[pred], reg.byRaw[reg.byRaw[pred].inverseOf];
            (k == pred && Suits(m, head, tail)) || (k == inv.canonical && Suits(inv, head, tail))
  {
    OrientedIff(reg, pred, head, tail);
  }

  /** The edge of the step, whose ends are named, is reversed. */
  ghost predicate StepReversed(n: Reasoner, step: Step) {
    && step.source != NoName && step.target != NoName
    && Reversed(n.reg, step.pred, n.types(step.source), n.types(step.target))
  }

  /** The step as it is to be read. */
  ghost function Oriented(n: Reasoner, step: Step): Step {
    if StepReversed(n, step) then step.(pred := n.reg.byRaw[n.reg.byRaw[step.pred].inverseOf].canonical) else step
  }

  /** Declared inverses are converses. */
  ghost predicate InversesAreConverses(reg: Registry, I: Interpretation) {
    forall k, x, y | k in reg.byRaw && reg.byRaw[k].inverseOf != "" :: I(k, x, y) <==> I(reg.byRaw[k].inverseOf, y, x)
  }

  /** What is related has the declared types. */
  ghost predicate TypesRespected(n: Reasoner, I: Interpretation) {
    forall k, x, y | k in n.reg.byRaw && n.reg.byRaw[k].domain != {} && n.reg.byRaw[k].range != {} && I(k, x, y) ::
      Suits(n.reg.byRaw[k], n.types(x), n.types(y))
  }

  /** A step whose predicate was replaced is true as it is now read, if the stored edge was true in either direction. */
  lemma OrientingRepairs(n: Reasoner, I: Interpretation, step: Step)
    requires Respects(n.reg, I) && InversesAreConverses(n.reg, I) && TypesRespected(n, I)
    requires I(step.pred, step.source, step.target) || I(step.pred, step.target, step.source)
    requires Oriented(n, step) != step
    ensures !I(step.pred, step.source, step.target)
    ensures I(Oriented(n, step).pred, step.source, step.target)
  {
    var inverse := n.reg.byRaw[step.pred].inverseOf;
    assert I(inverse, step.source, step.target);
    assert Canon(n.reg, inverse) == Oriented(n, step).pred;
  }

  // ------------------------------------------------------------------ one question to the engine

  /** The predicates that establish a claim with the given one, if it is known. */
  method NativeAcceptedPredicates(reg: Registry, pred: Pred) returns (out: seq<Pred>)
    requires Settled(reg)
    ensures !HasCanonical(reg, pred) ==> out == []
    ensures HasCanonical(reg, pred) ==> out != [] && IsAcceptedList(reg, pred, out)
  {
    if pred !in reg.byRaw || reg.byRaw[pred].canonical == "" {
      return [];
    }
    assert Canon(reg, Canon(reg, pred)) == Canon(reg, pred);
    out := PredicatesEntailing(reg, reg.byRaw[pred].canonical);
    CanonicalIsBelow(reg, pred);
    BelowIsDeclared(reg, Canon(reg, pred));
    assert Canon(reg, pred) in out;
  }

  /** The registry has a canonical name for the predicate. */
  ghost predicate HasCanonical(reg: Registry, pred: Pred) {
    pred in reg.byRaw && Canon(reg, pred) != ""
  }

  /** Exactly the predicates that imply the given one, each once. */
  ghost predicate IsAcceptedList(reg: Registry, pred: Pred, list: seq<Pred>) {
    Distinct(list) && forall k :: k in list <==> Below(reg, k, Canon(reg, pred))
  }

  lemma BelowIsDeclared(reg: Registry, sup: Pred)
    ensures forall k | Below(reg, k, sup) :: k == sup || k in reg.byCanon
  {
    forall k | Below(reg, k, sup) ensures k == sup || k in reg.byCanon {
      var n: nat :| ReachIn(SuperEdges(reg), k, sup, n);
      if n > 0 {
        var v :| (k, v) in SuperEdges(reg);
      }
    }
  }

  function Preds(steps: seq<Step>): (r: seq<Pred>)
    ensures |r| == |steps| && forall i | 0 <= i < |steps| :: r[i] == steps[i].pred
  {
    if steps == [] then [] else Preds(steps[..|steps| - 1]) + [steps[|steps| - 1].pred]
  }

  ghost function OrientedAll(n: Reasoner, steps: seq<Step>): (r: seq<Step>)
    ensures |r| == |steps| && forall i | 0 <= i < |steps| :: r[i] == Oriented(n, steps[i])
  {
    if steps == [] then [] else OrientedAll(n, steps[..|steps| - 1]) + [Oriented(n, steps[|steps| - 1])]
  }

  method OrientedSteps(n: Reasoner, steps: seq<Step>) returns (out: seq<Step>)
    ensures out == OrientedAll(n, steps)
  {
    out := [];
    for i := 0 to |steps|
      invariant |out| == i && forall j | 0 <= j < i :: out[j] == Oriented(n, steps[j])
    {
      var step := steps[i];
      if step.source != NoName && step.target != NoName {
        OrientedIff(n.reg, step.pred, n.types(step.source), n.types(step.target));
        step := step.(pred := OrientedPredicate(n.reg, step.pred, n.types(step.source), n.types(step.target)));
      }
      out := out + [step];
    }
  }

  /** The engine's first answer to the claim is this proof, and its steps, as oriented, establish its predicate,
      which implies the one claimed. */
  ghost predicate Supports(n: Reasoner, c: Claim, p: Proof) {
    && c.pred in n.reg.byRaw
    && Below(n.reg, p.pred, Canon(n.reg, c.pred))
    && exists steps: seq<Step> :: OrientedAs(n, p.steps, steps) && Establishes(n.reg, CanonAll(n.reg, Preds(steps)), p.pred)
                                  && Answered(n, c, p.steps)
  }

  ghost predicate OrientedAs(n: Reasoner, steps: seq<Step>, out: seq<Step>) {
    |out| == |steps| && forall i | 0 <= i < |steps| :: out[i] == Oriented(n, steps[i])
  }

  /** The engine said that these steps entail the claim. */
  ghost predicate Answered(n: Reasoner, c: Claim, steps: seq<Step>) {
    exists accepted :: Answers(n, c, accepted, steps)
  }

  ghost predicate Answers(n: Reasoner, c: Claim, accepted: Option<string>, steps: seq<Step>) {
    var rows := n.engine(c, accepted);
    && rows.Done? && rows.value != [] && rows.value[0].verdict == Some(Entailed)
    && rows.value[0].proof.Some? && rows.value[0].proof.value.steps == steps
  }

  /** The predicate by which a proof is judged once its steps are oriented. */
  ghost function JudgedBy(n: Reasoner, p: Proof): Option<Pred> {
    EffectiveOf(n.reg, CanonAll(n.reg, Preds(OrientedAll(n, p.steps))))
  }

  /** The engine says entailed, and its proof is judged by a predicate that implies the one claimed. */
  ghost predicate Accepts(n: Reasoner, c: Claim, a: EngineRow) {
    && a.verdict == Some(Entailed) && a.proof.Some? && JudgedBy(n, a.proof.value).Some?
    && Below(n.reg, JudgedBy(n, a.proof.value).value, Canon(n.reg, c.pred))
  }

  /** An answer that is one edge is accepted exactly if the predicate of the edge implies the one claimed, and one that is
      stored the wrong way round, exactly if that of its declared inverse does. */
  lemma SingleEdgeAccepted(n: Reasoner, c: Claim, a: EngineRow)
    requires Settled(n.reg) && a.verdict == Some(Entailed) && a.proof.Some? && |a.proof.value.steps| == 1
    ensures var step := a.proof.value.steps[0];
            var read := if StepReversed(n, step) then n.reg.byRaw[n.reg.byRaw[step.pred].inverseOf].canonical else step.pred;
            Accepts(n, c, a) <==> Below(n.reg, Canon(n.reg, read), Canon(n.reg, c.pred))
  {
    hide Below, StepReversed, Settled;
    var read := OrientedAll(n, a.proof.value.steps);
    var preds := CanonAll(n.reg, Preds(read));
    assert preds == [Canon(n.reg, read[0].pred)];
    BelowIsNamed(n.reg, preds[0], Canon(n.reg, c.pred));
  }

  lemma BelowIsNamed(reg: Registry, k: Pred, sup: Pred)
    ensures Below(reg, k, sup) ==> k != ""
  {}

  ghost predicate FirstAccepted(n: Reasoner, c: Claim, rows: seq<EngineRow>) {
    rows != [] && Accepts(n, c, rows[0])
  }

  /** What the engine is asked about the claim, the accepted predicates in some order. */
  ghost predicate Asked(n: Reasoner, c: Claim, text: string) {
    exists list :: IsAcceptedList(n.reg, c.pred, list) && text == AcceptedCodec.Encoded(list)
  }

  /** A row as it is when it is not judged. */
  ghost function PassedOn(row: EngineRow): EntailResult {
    EntailResult(if row.verdict == None then Unsupported else row.verdict.value, row.confidence, row.proof, [])
  }

  /** The result agrees with the engine's answer to the text: it fails if that does; it is entailed exactly if the first row
      is accepted, and then with the predicate that its proof is judged by; a first row that says entailed and is not
      accepted is no support, and one that says otherwise is passed on. */
  ghost predicate Judged(n: Reasoner, c: Claim, text: string, r: Outcome<EntailResult>) {
    var rows := n.engine(c, Some(text));
    && (r.Failed? <==> rows.Failed?)
    && (r.Done? ==> (r.value.verdict == Entailed <==> FirstAccepted(n, c, rows.value)))
    && (r.Done? && r.value.verdict == Entailed ==>
          && r.value.confidence == rows.value[0].confidence
          && r.value.best == Some(rows.value[0].proof.value.(pred := JudgedBy(n, rows.value[0].proof.value).value)))
    && (r.Done? && r.value.verdict != Entailed ==>
          r.value == if rows.value == [] || rows.value[0].verdict == Some(Entailed) then NO_SUPPORT else PassedOn(rows.value[0]))
  }

  ghost predicate JudgedAsAsked(n: Reasoner, c: Claim, r: Outcome<EntailResult>) {
    exists text :: Asked(n, c, text) && Judged(n, c, text, r)
  }

  method EntailsDirected(n: Reasoner, c: Claim) returns (r: Outcome<EntailResult>)
    requires Settled(n.reg)
    ensures n.enforce && HasCanonical(n.reg, c.pred) ==> JudgedAsAsked(n, c, r)
    ensures n.enforce && !HasCanonical(n.reg, c.pred) ==> r == Done(NO_SUPPORT)
    ensures !n.enforce ==>
              var rows := n.engine(c, None);
              r == if rows.Failed? then Failed else if rows.value == [] then Done(NO_SUPPORT) else Done(PassedOn(rows.value[0]))
    ensures n.enforce && r.Done? && r.value.verdict == Entailed ==> r.value.best.Some? && Supports(n, c, r.value.best.value)
  {
    hide Below, Establishes, Settled, EffectiveOf, Accepts, IsAcceptedList, Supports, JudgedBy, CanonAll;
    var accepted: seq<Pred> := [];
    var encoded: Option<string> := None;
    if n.enforce {
      accepted := NativeAcceptedPredicates(n.reg, c.pred);
      if accepted == [] {
        return Done(NO_SUPPORT);
      }
      var text := AcceptedCodec.Encode(accepted);
      encoded := Some(text);
      assert Asked(n, c, text);
    }
    var rows := n.engine(c, encoded);
    if rows.Failed? {
      return Failed;
    }
    if rows.value == [] {
      return Done(NO_SUPPORT);
    }
    var row := rows.value[0];
    var verdict := if row.verdict.Some? then row.verdict.value else Unsupported;
    if !n.enforce || verdict != Entailed {
      OthersNotAccepted(n, c, row);
      return Done(EntailResult(verdict, row.confidence, row.proof, []));
    }
    var result := Judge(n, c, accepted, row);
    r := Done(result);
    if result.verdict == Entailed {
      AcceptedSupports(n, c, encoded, row);
    }
  }

  lemma OthersNotAccepted(n: Reasoner, c: Claim, row: EngineRow)
    ensures row.verdict != Some(Entailed) ==> !Accepts(n, c, row)
  {}

  /** Judge an answer that says entailed by the predicate its oriented steps establish. */
  method Judge(n: Reasoner, c: Claim, accepted: seq<Pred>, row: EngineRow) returns (r: EntailResult)
    requires Settled(n.reg) && row.verdict == Some(Entailed) && IsAcceptedList(n.reg, c.pred, accepted)
    ensures r.verdict == Entailed <==> Accepts(n, c, row)
    ensures r.verdict != Entailed ==> r == NO_SUPPORT
    ensures r.verdict == Entailed ==> row.proof.Some? && JudgedBy(n, row.proof.value).Some?
    ensures r.verdict == Entailed ==>
              r == EntailResult(Entailed, row.confidence, Some(row.proof.value.(pred := JudgedBy(n, row.proof.value).value)), [])
  {
    hide Establishes, Settled, EffectiveOf;
    if row.proof == None {
      return NO_SUPPORT;
    }
    var steps := OrientedSteps(n, row.proof.value.steps);
    var effective := EffectivePredicate(n.reg, Preds(steps));
    if effective == None || effective.value == "" || effective.value !in accepted {
      return NO_SUPPORT;
    }
    return EntailResult(Entailed, row.confidence, Some(row.proof.value.(pred := effective.value)), []);
  }

  lemma AcceptedSupports(n: Reasoner, c: Claim, text: Option<string>, row: EngineRow)
    requires Settled(n.reg) && c.pred in n.reg.byRaw && Accepts(n, c, row)
    requires n.engine(c, text).Done? && n.engine(c, text).value != [] && n.engine(c, text).value[0] == row
    ensures Supports(n, c, row.proof.value.(pred := JudgedBy(n, row.proof.value).value))
  {
    var proof := row.proof.value;
    var steps := OrientedAll(n, proof.steps);
    hide Below, Establishes, EffectiveOf;
    EffectiveIsEstablished(n.reg, CanonAll(n.reg, Preds(steps)));
    assert Answers(n, c, text, proof.steps);
    assert OrientedAs(n, proof.steps, steps);
  }

  lemma CanonicalIsBelow(reg: Registry, k: Pred)
    ensures Canon(reg, k) != "" ==> Below(reg, Canon(reg, k), Canon(reg, k))
  {
    ReachSelf(SuperEdges(reg), Canon(reg, k));
  }

  // ------------------------------------------------------------------ claims stated the other way round

  /** The claim with its ends exchanged and the declared inverse for its predicate. */
  ghost function InverseClaim(reg: Registry, c: Claim): Option<Claim> {
    if c.pred in reg.byRaw && reg.byRaw[c.pred].inverseOf != "" then Some(Claim(c.obj, reg.byRaw[c.pred].inverseOf, c.subj))
    else None
  }

  ghost function Anchored(n: Reasoner, c: Claim): Claim {
    Claim(n.resolve(c.subj), c.pred, n.resolve(c.obj))
  }

  /** The proof supports the claim, as stated or the other way round. */
  ghost predicate SupportsEitherWay(n: Reasoner, c: Claim, p: Proof) {
    Supports(n, c, p) || (InverseClaim(n.reg, c).Some? && Supports(n, InverseClaim(n.reg, c).value, p))
  }

  /** The engine answers the claim, in whichever order it is given the accepted predicates. */
  ghost predicate AlwaysAnswers(n: Reasoner, c: Claim) {
    forall text | Asked(n, c, text) :: n.engine(c, Some(text)).Done?
  }

  /** And its answer is accepted. */
  ghost predicate AlwaysAccepted(n: Reasoner, c: Claim) {
    HasCanonical(n.reg, c.pred) && AlwaysAnswers(n, c) && forall text | Asked(n, c, text) :: FirstAccepted(n, c, n.engine(c, Some(text)).value)
  }

  /** In some order of the accepted predicates it is. */
  ghost predicate OnceAccepted(n: Reasoner, c: Claim) {
    && HasCanonical(n.reg, c.pred)
    && exists text :: Asked(n, c, text) && n.engine(c, Some(text)).Done? && FirstAccepted(n, c, n.engine(c, Some(text)).value)
  }

  lemma JudgedMeans(n: Reasoner, c: Claim, r: Outcome<EntailResult>)
    requires if HasCanonical(n.reg, c.pred) then JudgedAsAsked(n, c, r) else r == Done(NO_SUPPORT)
    ensures AlwaysAnswers(n, c) ==> r.Done?
    ensures AlwaysAccepted(n, c) ==> r.Done? && r.value.verdict == Entailed
    ensures r.Done? && r.value.verdict == Entailed ==> OnceAccepted(n, c)
  {}

  method Entails(n: Reasoner, c: Claim) returns (r: Outcome<EntailResult>)
    requires Settled(n.reg)
    ensures n.contradicts(c).Done? && n.contradicts(c).value.0 ==>
              r == Done(EntailResult(Contradicted, 1.0, n.contradicts(c).value.1, []))
    ensures n.enforce && r.Done? && r.value.verdict == Entailed ==>
              && r.value.best.Some? && SupportsEitherWay(n, Anchored(n, c), r.value.best.value)
              && var inverse := InverseClaim(n.reg, Anchored(n, c));
                 OnceAccepted(n, Anchored(n, c)) || (inverse.Some? && OnceAccepted(n, inverse.value))
    ensures n.enforce && !(n.contradicts(c).Done? && n.contradicts(c).value.0) && AlwaysAnswers(n, Anchored(n, c)) ==>
              && r.Done?
              && var inverse := InverseClaim(n.reg, Anchored(n, c));
                 (AlwaysAccepted(n, Anchored(n, c)) || (inverse.Some? && AlwaysAccepted(n, inverse.value)) ==>
                    r.value.verdict == Entailed)
  {
    hide Supports, Settled, AlwaysAnswers, AlwaysAccepted, OnceAccepted, JudgedAsAsked;
    var conflict := n.contradicts(c);
    if conflict.Done? && conflict.value.0 {
      return Done(EntailResult(Contradicted, 1.0, conflict.value.1, []));
    }
    var anchored := Claim(n.resolve(c.subj), c.pred, n.resolve(c.obj));
    r := EntailsDirected(n, anchored);
    if n.enforce {
      JudgedMeans(n, anchored, r);
    }
    if r.Failed? || r.value.verdict == Entailed {
      return;
    }
    if anchored.pred in n.reg.byRaw && n.reg.byRaw[anchored.pred].inverseOf != "" {
      var inverse := Claim(anchored.obj, n.reg.byRaw[anchored.pred].inverseOf, anchored.subj);
      var again := EntailsDirected(n, inverse);
      if n.enforce {
        JudgedMeans(n, inverse, again);
      }
      if again.Done? && again.value.verdict == Entailed {
        return again;
      }
    }
  }

  // ------------------------------------------------------------------ what an entailed claim means

  /** The steps lead from the one entity to the other, and each is true as oriented. */
  ghost predicate PathFrom(n: Reasoner, I: Interpretation, a: Name, b: Name, steps: seq<Step>) {
    && steps != [] && steps[0].source == a && steps[|steps| - 1].target == b
    && (forall i | 0 < i < |steps| :: steps[i].source == steps[i - 1].target)
    && (forall i | 0 <= i < |steps| :: I(Oriented(n, steps[i]).pred, steps[i].source, steps[i].target))
  }

  /** The engine's proofs are true paths between the ends of the claim. */
  ghost predicate Honest(n: Reasoner, I: Interpretation) {
    forall c, steps | Answered(n, c, steps) :: steps != [] ==> PathFrom(n, I, c.subj, c.obj, steps)
  }

  function Nodes(steps: seq<Step>): (r: seq<Name>)
    requires steps != []
    ensures |r| == |steps| + 1 && r[0] == steps[0].source && forall i | 0 <= i < |steps| :: r[i + 1] == steps[i].target
  {
    if |steps| == 1 then [steps[0].source, steps[0].target] else Nodes(steps[..|steps| - 1]) + [steps[|steps| - 1].target]
  }

  lemma CanonTwice(reg: Registry, preds: seq<Pred>)
    requires Settled(reg)
    ensures forall p | p in CanonAll(reg, preds) :: Canon(reg, p) == p
  {}

  lemma NotEmpty(reg: Registry, preds: seq<Pred>, k: Pred)
    requires Establishes(reg, preds, k)
    ensures preds != []
  {}

  lemma StepsAreTrue(n: Reasoner, I: Interpretation, a: Name, b: Name, stored: seq<Step>, steps: seq<Step>)
    requires Respects(n.reg, I) && stored != [] && PathFrom(n, I, a, b, stored) && OrientedAs(n, stored, steps)
    ensures PathTrue(I, CanonAll(n.reg, Preds(steps)), Nodes(stored))
    ensures Nodes(stored)[0] == a && Nodes(stored)[|stored|] == b
  {
    var preds, nodes := CanonAll(n.reg, Preds(steps)), Nodes(stored);
    forall i | 0 <= i < |preds| ensures I(preds[i], nodes[i], nodes[i + 1]) {
      assert I(Oriented(n, stored[i]).pred, stored[i].source, stored[i].target);
      assert preds[i] == Canon(n.reg, steps[i].pred);
      assert i > 0 ==> nodes[(i - 1) + 1] == stored[i - 1].target;
    }
    assert nodes[(|stored| - 1) + 1] == b;
  }

  /** A supported claim is true. */
  lemma SupportedIsTrue(n: Reasoner, I: Interpretation, c: Claim, p: Proof)
    requires Settled(n.reg) && Respects(n.reg, I) && Honest(n, I) && Supports(n, c, p)
    ensures I(c.pred, c.subj, c.obj)
  {
    var steps: seq<Step> :| OrientedAs(n, p.steps, steps) && Establishes(n.reg, CanonAll(n.reg, Preds(steps)), p.pred);
    hide Establishes, Oriented, Below;
    CanonTwice(n.reg, Preds(steps));
    NotEmpty(n.reg, CanonAll(n.reg, Preds(steps)), p.pred);
    assert PathFrom(n, I, c.subj, c.obj, p.steps);
    StepsAreTrue(n, I, c.subj, c.obj, p.steps, steps);
    EstablishesMeans(n.reg, I, CanonAll(n.reg, Preds(steps)), p.pred, Nodes(p.steps));
    BelowMeans(n.reg, I, p.pred, Canon(n.reg, c.pred), c.subj, c.obj);
    assert I(Canon(n.reg, c.pred), c.subj, c.obj);
  }

  /** A claim found entailed is true in its own direction, also after it was asked the other way round. */
  lemma EntailedIsTrue(n: Reasoner, I: Interpretation, c: Claim, p: Proof)
    requires Settled(n.reg) && Respects(n.reg, I) && InversesAreConverses(n.reg, I) && Honest(n, I)
    requires SupportsEitherWay(n, c, p)
    ensures I(c.pred, c.subj, c.obj)
  {
    hide Supports, Honest, Respects, Settled;
    if Supports(n, c, p) {
      SupportedIsTrue(n, I, c, p);
    } else {
      SupportedIsTrue(n, I, InverseClaim(n.reg, c).value, p);
    }
  }
}
