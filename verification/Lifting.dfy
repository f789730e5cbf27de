/** Lifting relations level by level onto parents (pkg/generalization/builder.go, `liftRelations`). */
module Lifting {
  import opened Iteration
  import opened Components
  import opened Hierarchy
  import opened Parents
  import opened Sets

  /** What a relation says about its source: a predicate and a target. */
  datatype Fact = Fact(pred: string, target: Key)

  /** The id of a stored relation; a blank id counts as none. */
  datatype RelId = NoId | RelId(name: string)

  datatype DirectRow = DirectRow(id: RelId, fact: Fact, confidence: real)

  datatype LiftInput = LiftInput(fact: Fact, sources: set<RelId>, confidence: real)

  datatype Relation = Relation(parent: Key, fact: Fact, sources: set<RelId>, confidence: real, support: nat)

  datatype Bucket = Bucket(children: set<Key>, sources: set<RelId>, confSum: real, count: nat)

  type Direct = map<Key, seq<DirectRow>>
  type Carried = map<Key, seq<LiftInput>>
  type Buckets = map<(Key, Fact), Bucket>

  function IdSet(id: RelId): set<RelId> {
    if id == NoId then {} else {id}
  }

  function InputOf(row: DirectRow): LiftInput {
    LiftInput(row.fact, IdSet(row.id), PositiveOr(row.confidence, 1.0))
  }

  function InputsOf(rows: seq<DirectRow>): seq<LiftInput> {
    seq(|rows|, i requires 0 <= i < |rows| => InputOf(rows[i]))
  }

  // ------------------------------------------------------------------ sums over children

  /** The sum of all values, whatever the order. */
  ghost function Total(m: map<Key, real>): real
    decreases |m|
  {
    if m == map[] then 0.0
    else
      var k :| k in m;
      assert |m - {k}| < |m| by { assert (m - {k}).Keys == m.Keys - {k}; }
      m[k] + Total(m - {k})
  }

  lemma {:induction false} TotalWithout(m: map<Key, real>, k: Key)
    requires k in m
    ensures Total(m) == m[k] + Total(m - {k})
    decreases |m|
  {
    var j :| j in m && Total(m) == m[j] + Total(m - {j});
    if j != k {
      assert (m - {j}).Keys == m.Keys - {j} && (m - {k}).Keys == m.Keys - {k};
      TotalWithout(m - {j}, k);
      TotalWithout(m - {k}, j);
      assert m - {j} - {k} == m - {k} - {j};
    }
  }

  lemma TotalWith(m: map<Key, real>, k: Key, v: real)
    requires k !in m
    ensures Total(m[k := v]) == Total(m) + v
  {
    TotalWithout(m[k := v], k);
    assert m[k := v] - {k} == m;
  }

  lemma {:induction false} TotalBounds(a: map<Key, real>, b: map<Key, real>)
    requires a.Keys == b.Keys && forall k | k in a :: 0.0 < a[k] <= b[k]
    ensures 0.0 <= Total(a) <= Total(b) && (a != map[] ==> 0.0 < Total(a))
    decreases |a|
  {
    if a != map[] {
      var k :| k in a;
      TotalWithout(a, k);
      TotalWithout(b, k);
      assert (a - {k}).Keys == a.Keys - {k} == (b - {k}).Keys;
      TotalBounds(a - {k}, b - {k});
    }
  }

  // ------------------------------------------------------------------ one child's rows

  ghost predicate Has(rows: seq<LiftInput>, f: Fact) {
    exists i :: 0 <= i < |rows| && rows[i].fact == f
  }

  ghost function RowSum(rows: seq<LiftInput>, f: Fact): real
    decreases |rows|
  {
    if rows == [] then 0.0
    else RowSum(rows[..|rows| - 1], f)
         + if rows[|rows| - 1].fact == f then PositiveOr(rows[|rows| - 1].confidence, 1.0) else 0.0
  }

  ghost function RowCount(rows: seq<LiftInput>, f: Fact): nat
    decreases |rows|
  {
    if rows == [] then 0
    else RowCount(rows[..|rows| - 1], f) + if rows[|rows| - 1].fact == f then 1 else 0
  }

  ghost function RowSources(rows: seq<LiftInput>, f: Fact): set<RelId> {
    set i, s | 0 <= i < |rows| && rows[i].fact == f && s in rows[i].sources :: s
  }

  lemma OneMoreInput(rows: seq<LiftInput>, x: LiftInput, f: Fact)
    ensures Has(rows + [x], f) <==> Has(rows, f) || x.fact == f
    ensures RowSum(rows + [x], f) == RowSum(rows, f) + if x.fact == f then PositiveOr(x.confidence, 1.0) else 0.0
    ensures RowCount(rows + [x], f) == RowCount(rows, f) + if x.fact == f then 1 else 0
    ensures RowSources(rows + [x], f) == RowSources(rows, f) + if x.fact == f then x.sources else {}
  {
    var more := rows + [x];
    assert more[..|more| - 1] == rows && more[|rows|] == x;
    if Has(rows, f) {
      var i :| 0 <= i < |rows| && rows[i].fact == f;
      assert more[i].fact == f;
    }
    forall s ensures s in RowSources(more, f) <==> s in RowSources(rows, f) + if x.fact == f then x.sources else {} {
      if s in RowSources(rows, f) {
        var i :| 0 <= i < |rows| && rows[i].fact == f && s in rows[i].sources;
        assert more[i] == rows[i];
      }
    }
  }

  lemma {:induction false} NothingHad(rows: seq<LiftInput>, f: Fact)
    requires !Has(rows, f)
    ensures RowSum(rows, f) == 0.0 && RowCount(rows, f) == 0 && RowSources(rows, f) == {}
    decreases |rows|
  {
    if rows != [] {
      var init := rows[..|rows| - 1];
      assert init + [rows[|rows| - 1]] == rows;
      OneMoreInput(init, rows[|rows| - 1], f);
      NothingHad(init, f);
    }
  }

  lemma {:induction false} RowBounds(rows: seq<LiftInput>, f: Fact)
    requires forall i | 0 <= i < |rows| :: rows[i].confidence <= 1.0
    ensures 0.0 <= RowSum(rows, f) <= RowCount(rows, f) as real
    ensures Has(rows, f) ==> 0.0 < RowSum(rows, f) && 0 < RowCount(rows, f)
    decreases |rows|
  {
    if rows != [] {
      var init := rows[..|rows| - 1];
      assert init + [rows[|rows| - 1]] == rows;
      OneMoreInput(init, rows[|rows| - 1], f);
      RowBounds(init, f);
    }
  }

  // ------------------------------------------------------------------ what lifting is meant to compute

  /** What is given: the kept parents and the direct rows of each scope entity. */
  datatype Given = Given(parents: ParentMap, direct: Direct)

  ghost function DirectInputs(g: Given, n: Key): seq<LiftInput> {
    if n in g.direct then InputsOf(g.direct[n]) else []
  }

  /** n has the fact after the given number of lifting rounds: directly at level 0, and above that
      because some child has it one level down. */
  ghost predicate Carries(g: Given, level: nat, n: Key, f: Fact)
    decreases level
  {
    if level == 0 then Has(DirectInputs(g, n), f)
    else n in g.parents && exists c :: c in g.parents[n].children && Carries(g, level - 1, c, f)
  }

  /** The children from which n gets the fact at a level. */
  ghost function Supporters(g: Given, level: nat, n: Key, f: Fact): set<Key>
    requires level > 0
  {
    if n in g.parents then set c | c in g.parents[n].children && Carries(g, level - 1, c, f) else {}
  }

  /** The ids of the direct rows from which n has the fact at a level. */
  ghost function SourcesAt(g: Given, level: nat, n: Key, f: Fact): set<RelId>
    decreases level, 0
  {
    if level == 0 then RowSources(DirectInputs(g, n), f)
    else AllSources(g, level - 1, Supporters(g, level, n, f), f)
  }

  ghost function AllSources(g: Given, level: nat, S: set<Key>, f: Fact): set<RelId>
    decreases level, 2
  {
    set c, s | c in S && s in SourcesAt(g, level, c, f) :: s
  }

  /** The confidences and the number of the inputs that n passes on for the fact from a level. */
  ghost function SumAt(g: Given, level: nat, n: Key, f: Fact): real
    decreases level, 1
  {
    if level == 0 then RowSum(DirectInputs(g, n), f) else ConfidenceAt(g, level, n, f)
  }

  ghost function CountAt(g: Given, level: nat, n: Key, f: Fact): nat {
    if level == 0 then RowCount(DirectInputs(g, n), f) else 1
  }

  /** The mean confidence of all inputs, times the share of the parent's children that support the fact. */
  ghost function ConfidenceAt(g: Given, level: nat, n: Key, f: Fact): real
    requires level > 0
    decreases level, 0
  {
    var S := Supporters(g, level, n, f);
    Confidence(Total(SumsAt(g, level - 1, S, f)), Total(CountsAt(g, level - 1, S, f)), |S|,
               if n in g.parents then |g.parents[n].children| else 0)
  }

  ghost function SumsAt(g: Given, level: nat, S: set<Key>, f: Fact): map<Key, real>
    decreases level, 2
  {
    map c | c in S :: SumAt(g, level, c, f)
  }

  ghost function CountsAt(g: Given, level: nat, S: set<Key>, f: Fact): map<Key, real> {
    map c | c in S :: CountAt(g, level, c, f) as real
  }

  ghost function Confidence(sum: real, count: real, support: nat, children: nat): real {
    (if count > 0.0 then sum / count else 1.0) * (if children > 0 then support as real / children as real else 1.0)
  }

  /** The fact is emitted for p from the first level at which enough children support it. */
  ghost predicate FirstLevel(g: Given, minSupport: nat, p: Key, f: Fact, level: nat) {
    && 0 < level && minSupport <= |Supporters(g, level, p, f)|
    && forall k | 0 < k < level :: |Supporters(g, k, p, f)| < minSupport
  }

  ghost function RelationAt(g: Given, level: nat, p: Key, f: Fact): Relation
    requires level > 0
  {
    Relation(p, f, SourcesAt(g, level, p, f), ConfidenceAt(g, level, p, f), |Supporters(g, level, p, f)|)
  }

  // ------------------------------------------------------------------ arithmetic

  lemma ConfidenceBounds(sum: real, count: real, support: nat, children: nat)
    requires 0.0 < sum <= count && 0 < support <= children
    ensures 0.0 < Confidence(sum, count, support, children) <= 1.0
  {
    var mean, coverage := sum / count, support as real / children as real;
    assert 0.0 < mean <= 1.0;
    assert 0.0 < coverage <= 1.0;
    assert mean * coverage <= 1.0 * coverage;
  }

  /** Lifted confidences stay in (0, 1] when the direct ones do not exceed 1. */
  lemma {:induction false} ConfidenceInUnit(g: Given, level: nat, n: Key, f: Fact)
    requires forall k | k in g.direct :: forall i | 0 <= i < |g.direct[k]| :: g.direct[k][i].confidence <= 1.0
    requires Carries(g, level, n, f)
    ensures 0.0 < SumAt(g, level, n, f) <= CountAt(g, level, n, f) as real
    ensures level > 0 ==> 0.0 < ConfidenceAt(g, level, n, f) <= 1.0
    decreases level
  {
    if level == 0 {
      RowBounds(DirectInputs(g, n), f);
    } else {
      var S := Supporters(g, level, n, f);
      var sums, counts := SumsAt(g, level - 1, S, f), CountsAt(g, level - 1, S, f);
      forall c | c in S ensures 0.0 < sums[c] <= counts[c] {
        ConfidenceInUnit(g, level - 1, c, f);
      }
      var c :| c in g.parents[n].children && Carries(g, level - 1, c, f);
      assert c in S && c in sums;
      TotalBounds(sums, counts);
      SubsetIsSmaller(S, g.parents[n].children);
      assert |S| > 0;
      ConfidenceBounds(Total(sums), Total(counts), |S|, |g.parents[n].children|);
    }
  }

  lemma {:induction false} RowPositive(rows: seq<LiftInput>, f: Fact)
    ensures 0.0 <= RowSum(rows, f)
    ensures Has(rows, f) ==> 0.0 < RowSum(rows, f) && 0 < RowCount(rows, f)
    decreases |rows|
  {
    if rows != [] {
      var init := rows[..|rows| - 1];
      assert init + [rows[|rows| - 1]] == rows;
      OneMoreInput(init, rows[|rows| - 1], f);
      RowPositive(init, f);
    }
  }

  lemma PositiveConfidence(sum: real, count: real, support: nat, children: nat)
    requires 0.0 < sum && 0.0 < count && 0 < support <= children
    ensures 0.0 < Confidence(sum, count, support, children)
  {
    var mean, coverage := sum / count, support as real / children as real;
    assert 0.0 < mean && 0.0 < coverage;
    assert mean * coverage > 0.0;
  }

  /** Whatever the direct confidences are, lifted ones are positive. */
  lemma {:induction false} ConfidencePositive(g: Given, level: nat, n: Key, f: Fact)
    requires Carries(g, level, n, f)
    ensures 0.0 < SumAt(g, level, n, f) && 0 < CountAt(g, level, n, f)
    ensures level > 0 ==> 0.0 < ConfidenceAt(g, level, n, f)
    decreases level
  {
    if level == 0 {
      RowPositive(DirectInputs(g, n), f);
    } else {
      var S := Supporters(g, level, n, f);
      var sums, counts := SumsAt(g, level - 1, S, f), CountsAt(g, level - 1, S, f);
      forall c | c in S ensures 0.0 < sums[c] && 0.0 < counts[c] {
        ConfidencePositive(g, level - 1, c, f);
      }
      var c :| c in g.parents[n].children && Carries(g, level - 1, c, f);
      assert c in S && c in sums;
      TotalBounds(sums, sums);
      TotalBounds(counts, counts);
      SubsetIsSmaller(S, g.parents[n].children);
      assert |S| > 0;
      PositiveConfidence(Total(sums), Total(counts), |S|, |g.parents[n].children|);
    }
  }
}
