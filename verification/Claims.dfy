/** Claims, proofs and verdicts, as the base reasoner, the rule layer and the graph engine exchange them
    (pkg/reasoning/types.go). */
module Claims {
  import opened Options

  /** An entity name; a blank one is NoName. */
  datatype Name = NoName | Name(text: string)

  /** A predicate name after trimming and lower-casing. */
  type Pred = string

  const NO_PRED: Pred := ""

  datatype Claim = Claim(subj: Name, pred: Pred, obj: Name)

  datatype Step = Step(edgeId: string, rule: string, pred: Pred, source: Name, target: Name, confidence: real)

  datatype Proof = Proof(source: Name, target: Name, pred: Pred, ruleClass: string, steps: seq<Step>, confidence: real)

  datatype Verdict = Entailed | Contradicted | Unsupported | Other(text: string)

  datatype EntailResult = EntailResult(verdict: Verdict, confidence: real, best: Option<Proof>, all: seq<Proof>)

  const NO_SUPPORT := EntailResult(Unsupported, 0.0, None, [])
}
