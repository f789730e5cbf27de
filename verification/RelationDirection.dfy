/** Source relations turned the way the types of their ends say (pkg/generalization/direction.go). */
module RelationDirection {
  import opened Claims
  import opened Registry
  import opened Entailment
  import opened Native

  datatype SourceRelation = SourceRelation(source: Name, pred: Pred, target: Name)

  /** The types say that the relation holds the other way round, and the two predicates are each other's inverses. */
  ghost predicate Flips(n: Reasoner, row: SourceRelation) {
    && Reversed(n.reg, row.pred, n.types(row.source), n.types(row.target))
    && var k := n.reg.byRaw[n.reg.byRaw[row.pred].inverseOf].canonical;
       k != "" && k != row.pred && k in n.reg.byRaw && n.reg.byRaw[k].inverseOf == Canon(n.reg, row.pred)
  }

  ghost function Normalized(n: Reasoner, row: SourceRelation): SourceRelation {
    if Flips(n, row) then SourceRelation(row.target, row.pred, row.source) else row
  }

  ghost function Flipped(n: Reasoner, rows: seq<SourceRelation>): nat {
    if rows == [] then 0 else Flipped(n, rows[..|rows| - 1]) + if Flips(n, rows[|rows| - 1]) then 1 else 0
  }

  lemma FlipsIff(n: Reasoner, row: SourceRelation)
    ensures var k := OrientedPredicate(n.reg, row.pred, n.types(row.source), n.types(row.target));
            Flips(n, row) <==> k != "" && k != row.pred && k in n.reg.byRaw && n.reg.byRaw[k].inverseOf == Canon(n.reg, row.pred)
  {
    OrientedIff(n.reg, row.pred, n.types(row.source), n.types(row.target));
  }

  lemma NothingFlipped(n: Reasoner)
    ensures Flipped(n, []) == 0
  {}

  lemma FlippedMore(n: Reasoner, rows: seq<SourceRelation>, i: nat)
    requires i < |rows|
    ensures Flipped(n, rows[..i + 1]) == Flipped(n, rows[..i]) + if Flips(n, rows[i]) then 1 else 0
  {
    assert rows[..i + 1][..i] == rows[..i];
  }

  /** Normalize all rows in place, and count those that were turned. */
  method ApplyRelationDirection(n: Reasoner, rows: array<SourceRelation>) returns (flipped: nat)
    modifies rows
    ensures forall i | 0 <= i < rows.Length :: rows[i] == Normalized(n, old(rows[i]))
    ensures flipped == Flipped(n, old(rows[..]))
  {
    hide Flipped, Flips;
    ghost var was := rows[..];
    NothingFlipped(n);
    flipped := 0;
    for i := 0 to rows.Length
      invariant forall j | 0 <= j < i :: rows[j] == Normalized(n, was[j])
      invariant forall j | i <= j < rows.Length :: rows[j] == was[j]
      invariant flipped == Flipped(n, was[..i])
    {
      FlippedMore(n, was, i);
      var row := rows[i];
      var oriented := OrientedPredicate(n.reg, row.pred, n.types(row.source), n.types(row.target));
      FlipsIff(n, row);
      if oriented != "" && oriented != row.pred && oriented in n.reg.byRaw && n.reg.byRaw[oriented].inverseOf == Canon(n.reg, row.pred) {
        rows[i] := SourceRelation(row.target, row.pred, row.source);
        flipped := flipped + 1;
      }
    }
    assert was[..rows.Length] == was;
  }

  /** If the graph is right about the relation but not necessarily about its direction, and what is related has the
      declared types, then a relation that is turned was wrong as stored and is right as turned. */
  lemma FlippedIsTrue(n: Reasoner, I: Interpretation, row: SourceRelation)
    requires InversesAreConverses(n.reg, I) && TypesRespected(n, I) && Flips(n, row)
    requires I(row.pred, row.source, row.target) || I(row.pred, row.target, row.source)
    ensures !I(row.pred, row.source, row.target)
    ensures I(row.pred, Normalized(n, row).source, Normalized(n, row).target)
  {}

  /** Inverses are declared with each other's types. */
  ghost predicate ShapesMirrored(reg: Registry) {
    forall k | k in reg.byRaw && reg.byRaw[k].inverseOf in reg.byRaw ::
      var m, inv := reg.byRaw[k], reg.byRaw[reg.byRaw[k].inverseOf];
      inv.domain == m.range && inv.range == m.domain
  }

  /** Then normalizing twice is normalizing once. */
  lemma FlippingSettles(n: Reasoner, row: SourceRelation)
    requires ShapesMirrored(n.reg)
    ensures Normalized(n, Normalized(n, row)) == Normalized(n, row)
  {
    if Flips(n, row) {
      assert Suits(n.reg.byRaw[row.pred], n.types(row.target), n.types(row.source));
    }
  }
}
