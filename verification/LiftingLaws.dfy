/** What the confidence, the sources and the support of a lifted relation are, in terms of the direct rows
    (pkg/generalization/builder.go). */
module LiftingLaws {
  import opened Sets
  import opened Components
  import opened Hierarchy
  import opened Parents
  import opened Lifting
  import opened LiftingRun

  // ------------------------------------------------------------------ one child's direct rows

  /** A row without a positive confidence counts as certain. */
  ghost function Weight(row: DirectRow): real {
    if row.confidence > 0.0 then row.confidence else 1.0
  }

  ghost function RowsWeight(rows: seq<DirectRow>, f: Fact): real {
    if rows == [] then 0.0
    else RowsWeight(rows[..|rows| - 1], f) + if rows[|rows| - 1].fact == f then Weight(rows[|rows| - 1]) else 0.0
  }

  ghost function RowsNumber(rows: seq<DirectRow>, f: Fact): nat {
    if rows == [] then 0 else RowsNumber(rows[..|rows| - 1], f) + if rows[|rows| - 1].fact == f then 1 else 0
  }

  ghost predicate States(rows: seq<DirectRow>, f: Fact) {
    exists i :: 0 <= i < |rows| && rows[i].fact == f
  }

  ghost predicate Cites(rows: seq<DirectRow>, f: Fact, id: RelId) {
    exists i :: 0 <= i < |rows| && rows[i].fact == f && rows[i].id == id
  }

  lemma {:induction false} InputsAreRows(rows: seq<DirectRow>, f: Fact)
    ensures RowSum(InputsOf(rows), f) == RowsWeight(rows, f) && RowCount(InputsOf(rows), f) == RowsNumber(rows, f)
    decreases |rows|
  {
    if rows != [] {
      var init := rows[..|rows| - 1];
      InputsAreRows(init, f);
      assert InputsOf(rows)[..|rows| - 1] == InputsOf(init);
    }
  }

  lemma InputsSay(rows: seq<DirectRow>, f: Fact)
    ensures Has(InputsOf(rows), f) <==> States(rows, f)
    ensures forall id :: id in RowSources(InputsOf(rows), f) <==> id != NoId && Cites(rows, f, id)
  {
    var inputs := InputsOf(rows);
    forall i | 0 <= i < |rows| ensures inputs[i].fact == rows[i].fact && forall id :: id in inputs[i].sources <==> id != NoId && id == rows[i].id {}
    if i :| 0 <= i < |rows| && rows[i].fact == f {
      assert inputs[i].fact == f;
    }
    forall id ensures id in RowSources(inputs, f) <==> id != NoId && Cites(rows, f, id) {
      if i :| 0 <= i < |rows| && rows[i].fact == f && rows[i].id == id && id != NoId {
        assert inputs[i].fact == f && id in inputs[i].sources;
      }
    }
  }

  // ------------------------------------------------------------------ descendants

  ghost function RowsAt(g: Given, n: Key): seq<DirectRow> {
    if n in g.direct then g.direct[n] else []
  }

  /** d is the given number of steps below n, along children of kept parents. */
  ghost predicate Descends(g: Given, level: nat, n: Key, d: Key) {
    if level == 0 then d == n
    else n in g.parents && exists c :: c in g.parents[n].children && Descends(g, level - 1, c, d)
  }

  ghost predicate StatedBelow(g: Given, level: nat, n: Key, f: Fact) {
    exists d :: Descends(g, level, n, d) && States(RowsAt(g, d), f)
  }

  ghost predicate CitedBelow(g: Given, level: nat, n: Key, f: Fact, id: RelId) {
    exists d :: Descends(g, level, n, d) && Cites(RowsAt(g, d), f, id)
  }

  lemma BelowIsByChild(g: Given, level: nat, n: Key, f: Fact, id: RelId)
    requires level > 0
    ensures StatedBelow(g, level, n, f) <==> n in g.parents && exists c :: c in g.parents[n].children && StatedBelow(g, level - 1, c, f)
    ensures CitedBelow(g, level, n, f, id) <==>
              n in g.parents && exists c :: c in g.parents[n].children && CitedBelow(g, level - 1, c, f, id)
  {
    hide States, Cites, RowsAt;
    if d :| Descends(g, level, n, d) && States(RowsAt(g, d), f) {
      var c :| c in g.parents[n].children && Descends(g, level - 1, c, d);
      assert StatedBelow(g, level - 1, c, f);
    }
    if d :| Descends(g, level, n, d) && Cites(RowsAt(g, d), f, id) {
      var c :| c in g.parents[n].children && Descends(g, level - 1, c, d);
      assert CitedBelow(g, level - 1, c, f, id);
    }
    if n in g.parents {
      if c :| c in g.parents[n].children && StatedBelow(g, level - 1, c, f) {
        var d :| Descends(g, level - 1, c, d) && States(RowsAt(g, d), f);
        assert Descends(g, level, n, d);
      }
      if c :| c in g.parents[n].children && CitedBelow(g, level - 1, c, f, id) {
        var d :| Descends(g, level - 1, c, d) && Cites(RowsAt(g, d), f, id);
        assert Descends(g, level, n, d);
      }
    }
  }

  lemma HereBelow(g: Given, n: Key, f: Fact, id: RelId)
    ensures StatedBelow(g, 0, n, f) <==> States(RowsAt(g, n), f)
    ensures CitedBelow(g, 0, n, f, id) <==> Cites(RowsAt(g, n), f, id)
  {
    assert Descends(g, 0, n, n);
  }

  /** A fact is had at a level exactly if some descendant that far below states it. */
  lemma {:induction false} CarriesIff(g: Given, level: nat, n: Key, f: Fact)
    ensures Carries(g, level, n, f) <==> StatedBelow(g, level, n, f)
    decreases level
  {
    hide StatedBelow, CitedBelow;
    if level == 0 {
      InputsSay(RowsAt(g, n), f);
      HereBelow(g, n, f, NoId);
    } else {
      BelowIsByChild(g, level, n, f, NoId);
      var below: nat := level - 1;
      forall c ensures Carries(g, below, c, f) <==> StatedBelow(g, below, c, f) {
        CarriesIff(g, below, c, f);
      }
    }
  }

  lemma CitedIsStated(g: Given, level: nat, n: Key, f: Fact, id: RelId)
    ensures CitedBelow(g, level, n, f, id) ==> StatedBelow(g, level, n, f)
  {
    if d :| Descends(g, level, n, d) && Cites(RowsAt(g, d), f, id) {
      assert States(RowsAt(g, d), f);
    }
  }

  /** The sources of a relation are the ids of the rows by which the descendants that far below state the fact. */
  lemma {:induction false} SourcesIff(g: Given, level: nat, n: Key, f: Fact, id: RelId)
    ensures id in SourcesAt(g, level, n, f) <==> id != NoId && CitedBelow(g, level, n, f, id)
    decreases level
  {
    hide StatedBelow, CitedBelow, RowSources, DirectInputs;
    if level == 0 {
      GroundSources(g, n, f, id);
      HereBelow(g, n, f, id);
    } else {
      BelowIsByChild(g, level, n, f, id);
      SourcesByChild(g, level, n, f, id);
      var below: nat := level - 1;
      forall c ensures id in SourcesAt(g, below, c, f) <==> id != NoId && CitedBelow(g, below, c, f, id) {
        SourcesIff(g, below, c, f, id);
      }
      forall c ensures CitedBelow(g, below, c, f, id) ==> Carries(g, below, c, f) {
        CarriesIff(g, below, c, f);
        CitedIsStated(g, below, c, f, id);
      }
    }
  }

  lemma GroundSources(g: Given, n: Key, f: Fact, id: RelId)
    ensures id in SourcesAt(g, 0, n, f) <==> id != NoId && Cites(RowsAt(g, n), f, id)
  {
    InputsSay(RowsAt(g, n), f);
  }

  lemma SourcesByChild(g: Given, level: nat, n: Key, f: Fact, id: RelId)
    requires level > 0
    ensures id in SourcesAt(g, level, n, f) <==>
              n in g.parents && exists c :: c in g.parents[n].children && Carries(g, level - 1, c, f) && id in SourcesAt(g, level - 1, c, f)
  {
    hide Carries;
  }

  // ------------------------------------------------------------------ the confidence

  /** The confidence, times the number of inputs and of the parent's children, is what the inputs weigh together, times the
      number of children that support. */
  ghost predicate InProportion(confidence: real, number: real, children: nat, weight: real, support: nat) {
    confidence * number * children as real == weight * support as real
  }

  /** A relation made on the first level: its confidence, times the number of rows and of the parent's children, is what
      the rows weigh together, times the number of children that have one. */
  lemma FirstLevelLaw(g: Given, p: Key, f: Fact)
    requires p in g.parents && Carries(g, 1, p, f)
    ensures var S := set c | c in g.parents[p].children && States(RowsAt(g, c), f);
            var weight := Total(map c | c in S :: RowsWeight(RowsAt(g, c), f));
            var number := Total(map c | c in S :: RowsNumber(RowsAt(g, c), f) as real);
            var r := RelationAt(g, 1, p, f);
            && r.support == |S| > 0 && number > 0.0
            && InProportion(r.confidence, number, |g.parents[p].children|, weight, r.support)
  {
    hide InProportion, Total, States, ConfidenceAt, SourcesAt, RowSum, RowCount;
    LevelLaw(g, 1, p, f);
    FirstInputs(g, p, f);
  }

  lemma FirstInputs(g: Given, p: Key, f: Fact)
    requires p in g.parents
    ensures var S := set c | c in g.parents[p].children && States(RowsAt(g, c), f);
            && Supporters(g, 1, p, f) == S
            && SumsAt(g, 0, S, f) == (map c | c in S :: RowsWeight(RowsAt(g, c), f))
            && CountsAt(g, 0, S, f) == map c | c in S :: RowsNumber(RowsAt(g, c), f) as real
  {
    hide Carries, SumAt, CountAt, States, RowsWeight, RowsNumber;
    forall c ensures Carries(g, 0, c, f) <==> States(RowsAt(g, c), f) {
      GroundCarries(g, c, f);
    }
    forall c ensures SumAt(g, 0, c, f) == RowsWeight(RowsAt(g, c), f) && CountAt(g, 0, c, f) == RowsNumber(RowsAt(g, c), f) {
      GroundInputs(g, c, f);
    }
  }

  lemma GroundCarries(g: Given, c: Key, f: Fact)
    ensures Carries(g, 0, c, f) <==> States(RowsAt(g, c), f)
  {
    InputsSay(RowsAt(g, c), f);
  }

  lemma GroundInputs(g: Given, c: Key, f: Fact)
    ensures SumAt(g, 0, c, f) == RowsWeight(RowsAt(g, c), f) && CountAt(g, 0, c, f) == RowsNumber(RowsAt(g, c), f)
  {
    InputsAreRows(RowsAt(g, c), f);
    assert InputsOf(RowsAt(g, c)) == DirectInputs(g, c);
  }

  /** Something is summed up. */
  lemma InputsAreSome(g: Given, level: nat, p: Key, f: Fact)
    requires level > 0 && p in g.parents && Carries(g, level, p, f)
    ensures var S := Supporters(g, level, p, f);
            0 < |S| <= |g.parents[p].children| && Total(CountsAt(g, level - 1, S, f)) > 0.0
  {
    hide SumAt, CountAt, Total, Carries, ConfidenceAt;
    var S := Supporters(g, level, p, f);
    var c := OneSupports(g, level, p, f);
    assert c in S;
    var counts := CountsAt(g, level - 1, S, f);
    forall c | c in S ensures 0.0 < counts[c] {
      ConfidencePositive(g, level - 1, c, f);
    }
    assert c in counts;
    TotalBounds(counts, counts);
    SubsetIsSmaller(S, g.parents[p].children);
  }

  lemma OneSupports(g: Given, level: nat, p: Key, f: Fact) returns (c: Key)
    requires level > 0 && p in g.parents && Carries(g, level, p, f)
    ensures c in g.parents[p].children && Carries(g, level - 1, c, f)
  {
    c :| c in g.parents[p].children && Carries(g, level - 1, c, f);
  }

  /** The same on every level, with what the supporting children hand on. */
  lemma LevelLaw(g: Given, level: nat, p: Key, f: Fact)
    requires level > 0 && p in g.parents && Carries(g, level, p, f)
    ensures var S := Supporters(g, level, p, f);
            var sum, number := Total(SumsAt(g, level - 1, S, f)), Total(CountsAt(g, level - 1, S, f));
            && |S| > 0 && number > 0.0
            && InProportion(ConfidenceAt(g, level, p, f), number, |g.parents[p].children|, sum, |S|)
  {
    hide InProportion, Carries, Supporters, SumsAt, CountsAt, Total, Confidence;
    var S := Supporters(g, level, p, f);
    InputsAreSome(g, level, p, f);
    Multiplied(Total(SumsAt(g, level - 1, S, f)), Total(CountsAt(g, level - 1, S, f)), |S|, |g.parents[p].children|);
  }

  lemma Multiplied(sum: real, count: real, support: nat, children: nat)
    requires count > 0.0 && children > 0
    ensures InProportion(Confidence(sum, count, support, children), count, children, sum, support)
  {
    var mean, share := sum / count, support as real / children as real;
    assert mean * count == sum && share * children as real == support as real;
    assert (mean * share) * count * children as real == (mean * count) * (share * children as real);
  }

  /** Confidences for levels, parents and facts that obey the law. */
  ghost predicate Balanced(g: Given, conf: (nat, Key, Fact) -> real) {
    forall level: nat, p, f | level > 0 && p in g.parents && Carries(g, level, p, f) :: BalancedAt(g, conf, level, p, f)
  }

  /** What a child hands on: its rows on the ground, and one input of its own confidence above. */
  ghost function HandsUp(g: Given, conf: (nat, Key, Fact) -> real, level: nat, c: Key, f: Fact): (real, real) {
    if level == 0 then (RowsWeight(RowsAt(g, c), f), RowsNumber(RowsAt(g, c), f) as real) else (conf(level, c, f), 1.0)
  }

  ghost predicate BalancedAt(g: Given, conf: (nat, Key, Fact) -> real, level: nat, p: Key, f: Fact)
    requires level > 0 && p in g.parents
  {
    var S := set c | c in g.parents[p].children && Carries(g, level - 1, c, f);
    var sum := Total(map c | c in S :: HandsUp(g, conf, level - 1, c, f).0);
    var number := Total(map c | c in S :: HandsUp(g, conf, level - 1, c, f).1);
    InProportion(conf(level, p, f), number, |g.parents[p].children|, sum, |S|)
  }

  /** The confidences of lifted relations are the only ones that obey the law. */
  lemma {:induction false} BalancedIsConfidence(g: Given, conf: (nat, Key, Fact) -> real, level: nat, p: Key, f: Fact)
    requires Balanced(g, conf) && level > 0 && p in g.parents && Carries(g, level, p, f)
    ensures conf(level, p, f) == ConfidenceAt(g, level, p, f)
    decreases level
  {
    hide InProportion, Total, ConfidenceAt, RowSum, RowCount, RowsWeight, RowsNumber, Has;
    var S := Supporters(g, level, p, f);
    forall c | c in S ensures HandsUp(g, conf, level - 1, c, f) == (SumAt(g, level - 1, c, f), CountAt(g, level - 1, c, f) as real) {
      if level == 1 {
        GroundInputs(g, c, f);
      } else {
        BalancedIsConfidence(g, conf, level - 1, c, f);
      }
    }
    SameInputs(g, conf, level, p, f);
    LevelLaw(g, level, p, f);
    InputsAreSome(g, level, p, f);
    SameFactor(conf(level, p, f), ConfidenceAt(g, level, p, f), Total(CountsAt(g, level - 1, S, f)), |g.parents[p].children|,
               Total(SumsAt(g, level - 1, S, f)), |S|);
  }

  /** And they do obey it. */
  lemma ConfidenceIsBalanced(g: Given)
    ensures Balanced(g, (level: nat, p: Key, f: Fact) => if level > 0 then ConfidenceAt(g, level, p, f) else 0.0)
  {
    hide InProportion, Total, ConfidenceAt, RowSum, RowCount, RowsWeight, RowsNumber, Carries;
    var conf := (level: nat, p: Key, f: Fact) => if level > 0 then ConfidenceAt(g, level, p, f) else 0.0;
    forall level: nat, p, f | level > 0 && p in g.parents && Carries(g, level, p, f) ensures BalancedAt(g, conf, level, p, f) {
      var S := Supporters(g, level, p, f);
      assert S == set c | c in g.parents[p].children && Carries(g, level - 1, c, f);
      forall c | c in S ensures HandsUp(g, conf, level - 1, c, f) == (SumAt(g, level - 1, c, f), CountAt(g, level - 1, c, f) as real) {
        if level == 1 {
          GroundInputs(g, c, f);
        }
      }
      assert (map c | c in S :: HandsUp(g, conf, level - 1, c, f).0) == SumsAt(g, level - 1, S, f);
      assert (map c | c in S :: HandsUp(g, conf, level - 1, c, f).1) == CountsAt(g, level - 1, S, f);
      LevelLaw(g, level, p, f);
    }
  }

  lemma SameInputs(g: Given, conf: (nat, Key, Fact) -> real, level: nat, p: Key, f: Fact)
    requires Balanced(g, conf) && level > 0 && p in g.parents && Carries(g, level, p, f)
    requires forall c | c in Supporters(g, level, p, f) ::
               HandsUp(g, conf, level - 1, c, f) == (SumAt(g, level - 1, c, f), CountAt(g, level - 1, c, f) as real)
    ensures var S := Supporters(g, level, p, f);
            InProportion(conf(level, p, f), Total(CountsAt(g, level - 1, S, f)), |g.parents[p].children|,
                         Total(SumsAt(g, level - 1, S, f)), |S|)
  {
    hide InProportion, Total, HandsUp, SumAt, CountAt, Carries;
    var S := Supporters(g, level, p, f);
    assert BalancedAt(g, conf, level, p, f);
    assert S == set c | c in g.parents[p].children && Carries(g, level - 1, c, f);
    assert (map c | c in S :: HandsUp(g, conf, level - 1, c, f).0) == SumsAt(g, level - 1, S, f);
    assert (map c | c in S :: HandsUp(g, conf, level - 1, c, f).1) == CountsAt(g, level - 1, S, f);
  }

  lemma SameFactor(x: real, y: real, number: real, children: nat, sum: real, support: nat)
    requires number > 0.0 && children > 0 && InProportion(x, number, children, sum, support) && InProportion(y, number, children, sum, support)
    ensures x == y
  {
    var k := number * children as real;
    assert k > 0.0;
    assert x * number * children as real == x * k && y * number * children as real == y * k;
    assert (x - y) * k == 0.0;
    NoFactor(x - y, k);
  }

  lemma NoFactor(a: real, k: real)
    requires k > 0.0 && a * k == 0.0
    ensures a == 0.0
  {}

  // ------------------------------------------------------------------ and its bound

  lemma {:induction false} TotalsEqualIff(a: map<Key, real>, b: map<Key, real>)
    requires a.Keys == b.Keys && forall k | k in a :: a[k] <= b[k]
    ensures Total(a) <= Total(b) && (Total(a) == Total(b) <==> forall k | k in a :: a[k] == b[k])
    decreases |a|
  {
    hide Total;
    if a.Keys == {} {
      assert a == map[] && b == map[];
    } else {
      var k :| k in a;
      TotalWithout(a, k);
      TotalWithout(b, k);
      assert (a - {k}).Keys == a.Keys - {k} == (b - {k}).Keys;
      TotalsEqualIff(a - {k}, b - {k});
      assert forall x | x in a :: x == k || x in a - {k};
    }
  }

  /** If no direct confidence exceeds 1, a relation is no more certain than the share of the parent's children that support
      it, and as certain exactly if every input of theirs has the confidence 1. */
  lemma ConfidenceBelowShare(g: Given, level: nat, p: Key, f: Fact)
    requires level > 0 && p in g.parents && Carries(g, level, p, f)
    requires forall k | k in g.direct :: forall i | 0 <= i < |g.direct[k]| :: g.direct[k][i].confidence <= 1.0
    ensures var r := RelationAt(g, level, p, f);
            && r.confidence * |g.parents[p].children| as real <= r.support as real
            && (r.confidence * |g.parents[p].children| as real == r.support as real <==>
                  forall c | c in Supporters(g, level, p, f) :: SumAt(g, level - 1, c, f) == CountAt(g, level - 1, c, f) as real)
  {
    hide InProportion, Total, Carries, Confidence, ConfidenceAt, SumAt, CountAt, SourcesAt;
    var S := Supporters(g, level, p, f);
    var sums, counts := SumsAt(g, level - 1, S, f), CountsAt(g, level - 1, S, f);
    forall c | c in S ensures sums[c] <= counts[c] {
      ConfidenceInUnit(g, level - 1, c, f);
    }
    TotalsEqualIff(sums, counts);
    LevelLaw(g, level, p, f);
    Compared(ConfidenceAt(g, level, p, f), |g.parents[p].children|, Total(counts), Total(sums), |S|);
  }

  lemma Compared(x: real, children: nat, number: real, sum: real, support: nat)
    requires number > 0.0 && sum <= number && support > 0 && InProportion(x, number, children, sum, support)
    ensures x * children as real <= support as real && (x * children as real == support as real <==> sum == number)
  {
    var y := x * children as real;
    assert y * number == sum * support as real;
    assert (support as real - y) * number == (number - sum) * support as real;
    NotLess(support as real - y, number, number - sum, support as real);
  }

  lemma NotLess(a: real, b: real, c: real, d: real)
    requires b > 0.0 && c >= 0.0 && d > 0.0 && a * b == c * d
    ensures a >= 0.0 && (a == 0.0 <==> c == 0.0)
  {}

  /** What is lifted: every relation has support from children that far below which a row states its fact, and has the one
      confidence that obeys the law. */
  lemma LiftedInProportion(g: Given, minSupport: nat, maxLevel: nat, out: seq<Relation>, conf: (nat, Key, Fact) -> real, r: Relation)
    returns (k: nat)
    requires LiftedExactly(g, minSupport, maxLevel, out) && minSupport > 0 && Balanced(g, conf) && r in out
    ensures 0 < k <= maxLevel && FirstLevel(g, minSupport, r.parent, r.fact, k) && r.parent in g.parents
    ensures StatedBelow(g, k, r.parent, r.fact) && r.confidence == conf(k, r.parent, r.fact)
    ensures forall id :: id in r.sources <==> id != NoId && CitedBelow(g, k, r.parent, r.fact, id)
  {
    hide ConfidenceAt, SourcesAt, Carries, Balanced, StatedBelow, CitedBelow;
    k :| 0 < k <= maxLevel && FirstLevel(g, minSupport, r.parent, r.fact, k) && r == RelationAt(g, k, r.parent, r.fact);
    var S := Supporters(g, k, r.parent, r.fact);
    assert |S| > 0;
    SupportCarries(g, k, r.parent, r.fact);
    CarriesIff(g, k, r.parent, r.fact);
    BalancedIsConfidence(g, conf, k, r.parent, r.fact);
    forall id ensures id in r.sources <==> id != NoId && CitedBelow(g, k, r.parent, r.fact, id) {
      SourcesIff(g, k, r.parent, r.fact, id);
    }
  }

  lemma SupportCarries(g: Given, level: nat, p: Key, f: Fact)
    requires level > 0 && |Supporters(g, level, p, f)| > 0
    ensures p in g.parents && Carries(g, level, p, f)
  {
    var c :| c in Supporters(g, level, p, f);
  }
}
