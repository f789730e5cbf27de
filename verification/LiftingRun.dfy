/** The lifting loop itself, proved against what Lifting says it is meant to compute. */
module LiftingRun {
  import opened Iteration
  import opened Components
  import opened Hierarchy
  import opened Parents
  import opened Lifting
  import opened Sets

  ghost function InRows(cur: Carried, n: Key): seq<LiftInput> {
    if n in cur then cur[n] else []
  }

  // ------------------------------------------------------------------ filling the buckets

  function BucketAt(buckets: Buckets, p: Key, f: Fact): Bucket {
    if (p, f) in buckets then buckets[(p, f)] else Bucket({}, {}, 0.0, 0)
  }

  /** b once the rows of a child have been added to it. */
  ghost function Plus(b: Bucket, child: Key, rows: seq<LiftInput>, f: Fact): Bucket {
    Bucket(b.children + {child}, b.sources + RowSources(rows, f), b.confSum + RowSum(rows, f), b.count + RowCount(rows, f))
  }

  /** after is before with the rows of child added for exactly the parents in P. */
  ghost predicate Added(before: Buckets, after: Buckets, P: set<Key>, child: Key, rows: seq<LiftInput>) {
    && (forall p, f :: (p, f) in after <==> (p, f) in before || (p in P && Has(rows, f)))
    && (forall p, f {:trigger BucketAt(after, p, f)} :: BucketAt(after, p, f)
          == if p in P && Has(rows, f) then Plus(BucketAt(before, p, f), child, rows, f) else BucketAt(before, p, f))
  }

  /** Put the rows of one child into the buckets of one parent. */
  method AddRows(buckets: Buckets, parent: Key, child: Key, rows: seq<LiftInput>) returns (buckets': Buckets)
    ensures Added(buckets, buckets', {parent}, child, rows)
  {
    buckets' := buckets;
    for i := 0 to |rows|
      invariant Added(buckets, buckets', {parent}, child, rows[..i])
    {
      var row := rows[i];
      ghost var before := buckets';
      assert rows[..i + 1] == rows[..i] + [row];
      var b := BucketAt(buckets', parent, row.fact);
      buckets' := buckets'[(parent, row.fact) := Bucket(b.children + {child}, b.sources + row.sources,
                                                        b.confSum + PositiveOr(row.confidence, 1.0), b.count + 1)];
      RowAdded(buckets, before, buckets', parent, child, rows[..i], row);
    }
    assert rows[..|rows|] == rows;
  }

  lemma RowAdded(start: Buckets, before: Buckets, after: Buckets, parent: Key, child: Key, rows: seq<LiftInput>, row: LiftInput)
    requires Added(start, before, {parent}, child, rows)
    requires var b := BucketAt(before, parent, row.fact);
             after == before[(parent, row.fact) := Bucket(b.children + {child}, b.sources + row.sources,
                                                          b.confSum + PositiveOr(row.confidence, 1.0), b.count + 1)]
    ensures Added(start, after, {parent}, child, rows + [row])
  {
    forall p, f
      ensures (p, f) in after <==> (p, f) in start || (p in {parent} && Has(rows + [row], f))
      ensures BucketAt(after, p, f)
              == if p in {parent} && Has(rows + [row], f) then Plus(BucketAt(start, p, f), child, rows + [row], f)
                 else BucketAt(start, p, f)
    {
      OneMoreInput(rows, row, f);
      if !Has(rows, f) { NothingHad(rows, f); }
      if p == parent && f == row.fact {
        var b := BucketAt(before, p, f);
        assert BucketAt(after, p, f) == Bucket(b.children + {child}, b.sources + row.sources,
                                               b.confSum + PositiveOr(row.confidence, 1.0), b.count + 1);
        assert {child} + {child} == {child};
        assert BucketAt(start, p, f).children + {child} + {child} == BucketAt(start, p, f).children + {child};
      } else {
        assert BucketAt(after, p, f) == BucketAt(before, p, f);
      }
    }
  }

  /** Put the rows of one child into the buckets of all its parents. */
  method AddChild(g: Given, buckets: Buckets, list: seq<Key>, child: Key, rows: seq<LiftInput>) returns (buckets': Buckets)
    requires Distinct(list) && forall p | p in list :: p in g.parents
    ensures Added(buckets, buckets', Elements(list), child, rows)
  {
    buckets' := buckets;
    for i := 0 to |list|
      invariant Added(buckets, buckets', Elements(list[..i]), child, rows)
    {
      var parent := list[i];
      assert list[..i + 1] == list[..i] + [parent];
      if parent !in g.parents {
        continue;
      }
      ghost var before := buckets';
      buckets' := AddRows(buckets', parent, child, rows);
      ParentAdded(buckets, before, buckets', Elements(list[..i]), parent, child, rows);
      assert Elements(list[..i + 1]) == Elements(list[..i]) + {parent};
    }
    assert list[..|list|] == list;
  }

  lemma ParentAdded(start: Buckets, before: Buckets, after: Buckets, P: set<Key>, parent: Key, child: Key, rows: seq<LiftInput>)
    requires Added(start, before, P, child, rows) && Added(before, after, {parent}, child, rows) && parent !in P
    ensures Added(start, after, P + {parent}, child, rows)
  {
    forall p, f
      ensures BucketAt(after, p, f)
              == if p in P + {parent} && Has(rows, f) then Plus(BucketAt(start, p, f), child, rows, f)
                 else BucketAt(start, p, f)
    {
      assert BucketAt(before, p, f) == if p in P && Has(rows, f) then Plus(BucketAt(start, p, f), child, rows, f) else BucketAt(start, p, f);
    }
  }

  /** The children of p among D that have the fact. */
  ghost function Contributors(g: Given, cur: Carried, D: set<Key>, p: Key, f: Fact): set<Key> {
    if p in g.parents then set c | c in g.parents[p].children && c in D && Has(InRows(cur, c), f) else {}
  }

  ghost function SumsOf(cur: Carried, S: set<Key>, f: Fact): map<Key, real> {
    map c | c in S :: RowSum(InRows(cur, c), f)
  }

  ghost function CountsOf(cur: Carried, S: set<Key>, f: Fact): map<Key, real> {
    map c | c in S :: RowCount(InRows(cur, c), f) as real
  }

  ghost function SourcesOf(cur: Carried, S: set<Key>, f: Fact): set<RelId> {
    set c, s | c in S && s in RowSources(InRows(cur, c), f) :: s
  }

  /** The bucket holds just what the children in S contribute. */
  ghost predicate Holds(cur: Carried, S: set<Key>, f: Fact, b: Bucket) {
    && b.children == S
    && b.sources == SourcesOf(cur, S, f)
    && b.confSum == Total(SumsOf(cur, S, f))
    && b.count as real == Total(CountsOf(cur, S, f))
  }

  /** The buckets hold what the children in D contribute. */
  ghost predicate Filled(g: Given, cur: Carried, D: set<Key>, buckets: Buckets) {
    && (forall p, f :: (p, f) in buckets <==> Contributors(g, cur, D, p, f) != {})
    && (forall p, f {:trigger BucketAt(buckets, p, f)} ::
          Holds(cur, Contributors(g, cur, D, p, f), f, BucketAt(buckets, p, f)))
  }

  lemma EmptyHolds(cur: Carried, f: Fact)
    ensures Holds(cur, {}, f, Bucket({}, {}, 0.0, 0))
  {
    assert SumsOf(cur, {}, f) == map[] && CountsOf(cur, {}, f) == map[];
  }

  lemma PlusHolds(cur: Carried, S: set<Key>, child: Key, f: Fact, b: Bucket)
    requires Holds(cur, S, f, b) && child !in S
    ensures Holds(cur, S + {child}, f, Plus(b, child, InRows(cur, child), f))
  {
    var rows := InRows(cur, child);
    assert SumsOf(cur, S + {child}, f) == SumsOf(cur, S, f)[child := RowSum(rows, f)];
    TotalWith(SumsOf(cur, S, f), child, RowSum(rows, f));
    assert CountsOf(cur, S + {child}, f) == CountsOf(cur, S, f)[child := RowCount(rows, f) as real];
    TotalWith(CountsOf(cur, S, f), child, RowCount(rows, f) as real);
    assert SourcesOf(cur, S + {child}, f) == SourcesOf(cur, S, f) + RowSources(rows, f);
  }

  lemma ChildFilled(g: Given, cur: Carried, D: set<Key>, before: Buckets, after: Buckets, P: set<Key>, child: Key)
    requires Filled(g, cur, D, before) && child !in D
    requires Added(before, after, P, child, InRows(cur, child))
    requires forall p :: p in P <==> p in g.parents && child in g.parents[p].children
    ensures Filled(g, cur, D + {child}, after)
  {
    var rows := InRows(cur, child);
    forall p, f
      ensures Holds(cur, Contributors(g, cur, D + {child}, p, f), f, BucketAt(after, p, f))
      ensures (p, f) in after <==> Contributors(g, cur, D + {child}, p, f) != {}
    {
      var S := Contributors(g, cur, D, p, f);
      assert Holds(cur, S, f, BucketAt(before, p, f));
      if p in P && Has(rows, f) {
        assert Contributors(g, cur, D + {child}, p, f) == S + {child};
        PlusHolds(cur, S, child, f, BucketAt(before, p, f));
      } else {
        assert Contributors(g, cur, D + {child}, p, f) == S;
      }
    }
  }

  /** One level's buckets, filled from all children in any order. */
  method FillBuckets(g: Given, childParents: map<Key, seq<Key>>, cur: Carried) returns (buckets: Buckets)
    requires ListsParents(g.parents, childParents)
    ensures Filled(g, cur, cur.Keys, buckets)
  {
    buckets := map[];
    var todo := cur.Keys;
    ghost var D: set<Key> := {};
    NoneFilled(g, cur);
    hide Filled, Added, Distinct;
    while todo != {}
      invariant D + todo == cur.Keys && D !! todo
      invariant Filled(g, cur, D, buckets)
      decreases todo
    {
      var child := Any(todo);
      var list := ParentsOf(childParents, child);
      ghost var before := buckets;
      assert Distinct(ParentsOf(childParents, child));
      assert forall p :: p in Elements(list) <==> p in ParentsOf(childParents, child);
      buckets := AddChild(g, buckets, list, child, cur[child]);
      ChildFilled(g, cur, D, before, buckets, Elements(list), child);
      todo, D := todo - {child}, D + {child};
    }
    assert D == cur.Keys;
  }

  lemma NoneFilled(g: Given, cur: Carried)
    ensures Filled(g, cur, {}, map[])
  {
    forall p, f
      ensures Contributors(g, cur, {}, p, f) == {}
      ensures Holds(cur, Contributors(g, cur, {}, p, f), f, BucketAt(map[], p, f))
    {
      EmptyHolds(cur, f);
      assert Contributors(g, cur, {}, p, f) == {};
    }
  }

  // ------------------------------------------------------------------ what a level carries

  ghost predicate HasParent(g: Given, c: Key) {
    exists p :: p in g.parents && c in g.parents[p].children
  }

  /** What rows say about the fact is what n carries of it at the level. */
  ghost predicate Tells(g: Given, level: nat, n: Key, f: Fact, rows: seq<LiftInput>) {
    && (Has(rows, f) <==> Carries(g, level, n, f))
    && (Carries(g, level, n, f) ==>
          && RowSum(rows, f) == SumAt(g, level, n, f)
          && RowCount(rows, f) == CountAt(g, level, n, f)
          && RowSources(rows, f) == SourcesAt(g, level, n, f))
  }

  /** cur is what the level carries, as far as nodes that have a parent are concerned. */
  ghost predicate IsLevel(g: Given, level: nat, cur: Carried) {
    forall n, f {:trigger Tells(g, level, n, f, InRows(cur, n))} :: HasParent(g, n) ==> Tells(g, level, n, f, InRows(cur, n))
  }

  /** The bucket is what the specification says of the parent and the fact at the level. */
  ghost predicate RightBucket(g: Given, level: nat, p: Key, f: Fact, b: Bucket)
    requires level > 0
  {
    var S := Supporters(g, level, p, f);
    && b.children == S
    && b.sources == SourcesAt(g, level, p, f)
    && b.confSum == Total(SumsAt(g, level - 1, S, f))
    && b.count as real == Total(CountsAt(g, level - 1, S, f))
  }

  ghost predicate RightBuckets(g: Given, level: nat, buckets: Buckets)
    requires level > 0
  {
    && (forall p, f :: (p, f) in buckets <==> Carries(g, level, p, f))
    && (forall p, f {:trigger RightBucket(g, level, p, f, BucketAt(buckets, p, f))} ::
          (p, f) in buckets ==> RightBucket(g, level, p, f, BucketAt(buckets, p, f)))
  }

  lemma SupportersAre(g: Given, level: nat, cur: Carried, p: Key, f: Fact)
    requires IsLevel(g, level, cur) && p in g.parents
    ensures Contributors(g, cur, cur.Keys, p, f) == Supporters(g, level + 1, p, f)
  {
    forall c | c in g.parents[p].children
      ensures c in cur.Keys && Has(InRows(cur, c), f) <==> Carries(g, level, c, f)
    {
      assert HasParent(g, c);
      assert Tells(g, level, c, f, InRows(cur, c));
    }
  }

  lemma FilledIsRight(g: Given, level: nat, cur: Carried, buckets: Buckets)
    requires IsLevel(g, level, cur) && Filled(g, cur, cur.Keys, buckets)
    ensures RightBuckets(g, level + 1, buckets)
  {
    forall p, f
      ensures (p, f) in buckets <==> Carries(g, level + 1, p, f)
      ensures (p, f) in buckets ==> RightBucket(g, level + 1, p, f, BucketAt(buckets, p, f))
    {
      if p in g.parents {
        OneRightBucket(g, level, cur, p, f, BucketAt(buckets, p, f));
        assert Holds(cur, Contributors(g, cur, cur.Keys, p, f), f, BucketAt(buckets, p, f));
        SupportersAre(g, level, cur, p, f);
        if Carries(g, level + 1, p, f) {
          var c :| c in g.parents[p].children && Carries(g, level, c, f);
          assert c in Supporters(g, level + 1, p, f);
        }
      }
    }
  }

  lemma OneRightBucket(g: Given, level: nat, cur: Carried, p: Key, f: Fact, b: Bucket)
    requires IsLevel(g, level, cur) && p in g.parents
    ensures Holds(cur, Contributors(g, cur, cur.Keys, p, f), f, b) ==> RightBucket(g, level + 1, p, f, b)
  {
    SupportersAre(g, level, cur, p, f);
    var S := Supporters(g, level + 1, p, f);
    forall c | c in S
      ensures RowSum(InRows(cur, c), f) == SumAt(g, level, c, f)
      ensures RowCount(InRows(cur, c), f) == CountAt(g, level, c, f)
      ensures RowSources(InRows(cur, c), f) == SourcesAt(g, level, c, f)
    {
      assert HasParent(g, c);
      assert Tells(g, level, c, f, InRows(cur, c));
    }
    assert SumsOf(cur, S, f) == SumsAt(g, level, S, f);
    assert CountsOf(cur, S, f) == CountsAt(g, level, S, f);
    assert SourcesOf(cur, S, f) == AllSources(g, level, S, f);
  }

  // ------------------------------------------------------------------ emitting a level

  /** The fact reached enough support for p at some level up to upto. */
  ghost predicate EmittedBy(g: Given, minSupport: nat, upto: nat, p: Key, f: Fact) {
    exists k :: 0 < k <= upto && FirstLevel(g, minSupport, p, f, k)
  }

  lemma {:induction false} FirstExists(g: Given, minSupport: nat, p: Key, f: Fact, k: nat)
    requires 0 < k && minSupport <= |Supporters(g, k, p, f)|
    ensures EmittedBy(g, minSupport, k, p, f)
    decreases k
  {
    if j :| 0 < j < k && minSupport <= |Supporters(g, j, p, f)| {
      FirstExists(g, minSupport, p, f, j);
      var i :| 0 < i <= j && FirstLevel(g, minSupport, p, f, i);
      assert 0 < i <= k;
    } else {
      assert FirstLevel(g, minSupport, p, f, k);
    }
  }

  /** The relations in out are those of the keys in emitted, each at its first level. */
  ghost predicate OutIs(g: Given, minSupport: nat, out: seq<Relation>, emitted: set<(Key, Fact)>) {
    && (forall r | r in out :: (r.parent, r.fact) in emitted
          && exists k: nat :: k > 0 && FirstLevel(g, minSupport, r.parent, r.fact, k) && r == RelationAt(g, k, r.parent, r.fact))
    && (forall e | e in emitted :: exists r :: r in out && (r.parent, r.fact) == e)
    && (forall i, j | 0 <= i < j < |out| :: (out[i].parent, out[i].fact) != (out[j].parent, out[j].fact))
  }

  lemma RelationIsFor(g: Given, level: nat, p: Key, f: Fact)
    requires level > 0
    ensures RelationAt(g, level, p, f).parent == p && RelationAt(g, level, p, f).fact == f
  {}

  lemma OneMoreOut(g: Given, minSupport: nat, out: seq<Relation>, emitted: set<(Key, Fact)>, level: nat, p: Key, f: Fact)
    requires OutIs(g, minSupport, out, emitted) && (p, f) !in emitted
    requires level > 0 && FirstLevel(g, minSupport, p, f, level)
    ensures OutIs(g, minSupport, out + [RelationAt(g, level, p, f)], emitted + {(p, f)})
  {
    hide FirstLevel, RelationAt;
    var r' := RelationAt(g, level, p, f);
    RelationIsFor(g, level, p, f);
    forall e | e in emitted + {(p, f)} ensures exists r :: r in out + [r'] && (r.parent, r.fact) == e {
      if e == (p, f) {
        assert r' in out + [r'];
      } else {
        var r :| r in out && (r.parent, r.fact) == e;
        assert r in out + [r'];
      }
    }
  }

  /** The fact is handed on for n exactly when its bucket is done and n has a parent to take it. */
  ghost predicate Handed(g: Given, level: nat, done: set<(Key, Fact)>, n: Key, f: Fact, rows: seq<LiftInput>)
    requires level > 0
  {
    && (Has(rows, f) <==> (n, f) in done && HasParent(g, n))
    && (Has(rows, f) ==>
          && RowSum(rows, f) == PositiveOr(ConfidenceAt(g, level, n, f), 1.0)
          && RowCount(rows, f) == 1
          && RowSources(rows, f) == SourcesAt(g, level, n, f))
  }

  /** What the buckets processed so far hand on to the next level. */
  ghost predicate HandsOn(g: Given, level: nat, done: set<(Key, Fact)>, next: Carried)
    requires level > 0
  {
    forall n, f {:trigger Handed(g, level, done, n, f, InRows(next, n))} :: Handed(g, level, done, n, f, InRows(next, n))
  }

  lemma HandOneOn(g: Given, level: nat, done: set<(Key, Fact)>, n: Key, x: LiftInput, f: Fact, rows: seq<LiftInput>)
    requires level > 0 && Handed(g, level, done, n, f, rows) && (n, x.fact) !in done && HasParent(g, n)
    requires x.confidence == ConfidenceAt(g, level, n, x.fact) && x.sources == SourcesAt(g, level, n, x.fact)
    ensures Handed(g, level, done + {(n, x.fact)}, n, f, rows + [x])
  {
    hide Has, RowSum, RowCount, RowSources, ConfidenceAt, SourcesAt, HasParent;
    OneMoreInput(rows, x, f);
    if f == x.fact {
      NothingHad(rows, f);
    }
  }

  lemma HandNoneOn(g: Given, level: nat, done: set<(Key, Fact)>, n: Key, e: Fact, m: Key, f: Fact, rows: seq<LiftInput>)
    requires level > 0 && Handed(g, level, done, m, f, rows) && m != n
    ensures Handed(g, level, done + {(n, e)}, m, f, rows)
  {}

  lemma HandOn(g: Given, level: nat, done: set<(Key, Fact)>, next: Carried, n: Key, x: LiftInput)
    requires level > 0 && HandsOn(g, level, done, next) && (n, x.fact) !in done && HasParent(g, n)
    requires x.confidence == ConfidenceAt(g, level, n, x.fact) && x.sources == SourcesAt(g, level, n, x.fact)
    ensures HandsOn(g, level, done + {(n, x.fact)}, next[n := InRows(next, n) + [x]])
  {
    hide Handed, Has;
    var next' := next[n := InRows(next, n) + [x]];
    forall m, f ensures Handed(g, level, done + {(n, x.fact)}, m, f, InRows(next', m)) {
      assert Handed(g, level, done, m, f, InRows(next, m));
      if m == n {
        HandOneOn(g, level, done, n, x, f, InRows(next, n));
      } else {
        HandNoneOn(g, level, done, n, x.fact, m, f, InRows(next, m));
      }
    }
  }

  lemma DoNotHandOn(g: Given, level: nat, done: set<(Key, Fact)>, next: Carried, n: Key, f: Fact)
    requires level > 0 && HandsOn(g, level, done, next) && !HasParent(g, n)
    ensures HandsOn(g, level, done + {(n, f)}, next)
  {
    forall m, h ensures Handed(g, level, done + {(n, f)}, m, h, InRows(next, m)) {
      assert Handed(g, level, done, m, h, InRows(next, m));
    }
  }

  lemma NothingHanded(g: Given, level: nat)
    requires level > 0
    ensures HandsOn(g, level, {}, map[])
  {
    forall m, f ensures Handed(g, level, {}, m, f, InRows(map[], m)) {}
  }

  /** Once all buckets are processed, what was handed on is what the level carries. */
  lemma HandedIsLevel(g: Given, level: nat, buckets: Buckets, next: Carried)
    requires level > 0 && RightBuckets(g, level, buckets) && HandsOn(g, level, buckets.Keys, next)
    requires forall p, f | Carries(g, level, p, f) :: ConfidenceAt(g, level, p, f) > 0.0
    ensures IsLevel(g, level, next)
  {
    forall n, f | HasParent(g, n) ensures Tells(g, level, n, f, InRows(next, n)) {
      assert Handed(g, level, buckets.Keys, n, f, InRows(next, n));
      assert (n, f) in buckets <==> Carries(g, level, n, f);
    }
  }

  /** Emit what one level's buckets support for the first time, and hand their contents on. */
  method EmitLevel(g: Given, childParents: map<Key, seq<Key>>, minSupport: nat, ghost level: nat, buckets: Buckets,
                   out: seq<Relation>, emitted: set<(Key, Fact)>)
    returns (out': seq<Relation>, emitted': set<(Key, Fact)>, next: Carried)
    requires level > 0 && minSupport > 0
    requires ListsParents(g.parents, childParents) && RightBuckets(g, level, buckets)
    requires OutIs(g, minSupport, out, emitted)
    requires forall p, f :: (p, f) in emitted <==> EmittedBy(g, minSupport, level - 1, p, f)
    ensures OutIs(g, minSupport, out', emitted')
    ensures forall p, f :: (p, f) in emitted' <==> EmittedBy(g, minSupport, level, p, f)
    ensures IsLevel(g, level, next)
  {
    hide OutIs, HandsOn, RightBucket, FirstLevel, EmittedBy, HasParent, Supporters, IsLevel, ListsParents, RelationOf;
    out', emitted', next := out, emitted, map[];
    var todo := buckets.Keys;
    ghost var done: set<(Key, Fact)> := {};
    NothingHanded(g, level);
    while todo != {}
      invariant done + todo == buckets.Keys && done !! todo
      invariant OutIs(g, minSupport, out', emitted')
      invariant forall p, f :: (p, f) in emitted' <==>
                  (p, f) in emitted || ((p, f) in done && minSupport <= |Supporters(g, level, p, f)|)
      invariant HandsOn(g, level, done, next)
      decreases todo
    {
      var key := Any(todo);
      var (p, f) := key;
      var b := buckets[key];
      assert RightBucket(g, level, p, f, BucketAt(buckets, p, f));
      var rel := RelationOf(g.parents, p, f, b);
      BucketRelation(g, level, p, f, b);
      if rel.support >= minSupport && key !in emitted' {
        FirstTime(g, minSupport, level, p, f);
        OneMoreOut(g, minSupport, out', emitted', level, p, f);
        emitted', out' := emitted' + {key}, out' + [rel];
      }
      ParentListed(g, childParents, p);
      if ParentsOf(childParents, p) == [] {
        DoNotHandOn(g, level, done, next, p, f);
      } else {
        HandOn(g, level, done, next, p, LiftInput(f, rel.sources, rel.confidence));
        next := next[p := (if p in next then next[p] else []) + [LiftInput(f, rel.sources, rel.confidence)]];
      }
      todo, done := todo - {key}, done + {key};
    }
    assert done == buckets.Keys;
    forall p, f ensures (p, f) in emitted' <==> EmittedBy(g, minSupport, level, p, f) {
      LevelEmitted(g, minSupport, level, p, f, buckets);
    }
    forall p, f | Carries(g, level, p, f) ensures ConfidenceAt(g, level, p, f) > 0.0 {
      ConfidencePositive(g, level, p, f);
    }
    HandedIsLevel(g, level, buckets, next);
  }

  function RelationOf(parents: ParentMap, p: Key, f: Fact, b: Bucket): Relation {
    var children := if p in parents then |parents[p].children| else 0;
    var coverage := if children > 0 then |b.children| as real / children as real else 1.0;
    var mean := if b.count > 0 then b.confSum / b.count as real else 1.0;
    Relation(p, f, b.sources, mean * coverage, |b.children|)
  }

  lemma BucketRelation(g: Given, level: nat, p: Key, f: Fact, b: Bucket)
    requires level > 0 && RightBucket(g, level, p, f, b)
    ensures RelationOf(g.parents, p, f, b) == RelationAt(g, level, p, f)
  {}

  lemma ParentListed(g: Given, childParents: map<Key, seq<Key>>, n: Key)
    requires ListsParents(g.parents, childParents)
    ensures ParentsOf(childParents, n) == [] <==> !HasParent(g, n)
  {
    if ParentsOf(childParents, n) != [] {
      var p := ParentsOf(childParents, n)[0];
      assert p in ParentsOf(childParents, n);
      assert p in g.parents && n in g.parents[p].children;
    }
  }

  /** A fact with enough support that was not emitted before is at its first level. */
  lemma FirstTime(g: Given, minSupport: nat, level: nat, p: Key, f: Fact)
    requires level > 0 && minSupport <= |Supporters(g, level, p, f)| && !EmittedBy(g, minSupport, level - 1, p, f)
    ensures FirstLevel(g, minSupport, p, f, level)
  {
    forall k | 0 < k < level ensures |Supporters(g, k, p, f)| < minSupport {
      if minSupport <= |Supporters(g, k, p, f)| {
        FirstExists(g, minSupport, p, f, k);
      }
    }
  }

  lemma LevelEmitted(g: Given, minSupport: nat, level: nat, p: Key, f: Fact, buckets: Buckets)
    requires level > 0 && minSupport > 0 && RightBuckets(g, level, buckets)
    ensures EmittedBy(g, minSupport, level, p, f) <==>
              EmittedBy(g, minSupport, level - 1, p, f) || ((p, f) in buckets && minSupport <= |Supporters(g, level, p, f)|)
  {
    if EmittedBy(g, minSupport, level, p, f) && !EmittedBy(g, minSupport, level - 1, p, f) {
      var k :| 0 < k <= level && FirstLevel(g, minSupport, p, f, k);
      assert k == level;
      assert |Supporters(g, level, p, f)| > 0;
      assert Supporters(g, level, p, f) != {};
      assert Carries(g, level, p, f);
    }
    if EmittedBy(g, minSupport, level - 1, p, f) {
      var k :| 0 < k <= level - 1 && FirstLevel(g, minSupport, p, f, k);
      assert 0 < k <= level;
    }
    if minSupport <= |Supporters(g, level, p, f)| {
      FirstExists(g, minSupport, p, f, level);
    }
  }

  // ------------------------------------------------------------------ the whole run

  /** What lifting promises: exactly one relation per parent and fact that reaches enough support within the
      levels, and that relation is the one of the first level at which it does. */
  ghost predicate LiftedExactly(g: Given, minSupport: nat, maxLevel: nat, out: seq<Relation>) {
    && (forall r | r in out :: exists k :: 0 < k <= maxLevel && FirstLevel(g, minSupport, r.parent, r.fact, k)
                                           && r == RelationAt(g, k, r.parent, r.fact))
    && (forall p, f, k | 0 < k <= maxLevel && FirstLevel(g, minSupport, p, f, k) :: RelationAt(g, k, p, f) in out)
    && (forall i, j | 0 <= i < j < |out| :: (out[i].parent, out[i].fact) != (out[j].parent, out[j].fact))
  }

  lemma {:induction false} NothingLater(g: Given, level: nat, k: nat, p: Key, f: Fact)
    requires forall n, h | HasParent(g, n) :: !Carries(g, level, n, h)
    requires level < k
    ensures Supporters(g, k, p, f) == {} && !Carries(g, k, p, f)
    decreases k
  {
    if p in g.parents {
      forall c | c in g.parents[p].children ensures !Carries(g, k - 1, c, f) {
        assert HasParent(g, c);
        if level < k - 1 {
          NothingLater(g, level, k - 1, c, f);
        }
      }
    }
  }

  lemma Finish(g: Given, minSupport: nat, maxLevel: nat, level: nat, out: seq<Relation>, emitted: set<(Key, Fact)>)
    requires OutIs(g, minSupport, out, emitted) && minSupport > 0 && level <= maxLevel
    requires forall p, f :: (p, f) in emitted <==> EmittedBy(g, minSupport, level, p, f)
    requires level == maxLevel || forall k, p, f | level < k :: Supporters(g, k, p, f) == {}
    ensures LiftedExactly(g, minSupport, maxLevel, out)
  {
    forall r | r in out
      ensures exists k :: 0 < k <= maxLevel && FirstLevel(g, minSupport, r.parent, r.fact, k)
                          && r == RelationAt(g, k, r.parent, r.fact)
    {
      var k: nat :| k > 0 && FirstLevel(g, minSupport, r.parent, r.fact, k) && r == RelationAt(g, k, r.parent, r.fact);
      assert (r.parent, r.fact) in emitted;
      var i :| 0 < i <= level && FirstLevel(g, minSupport, r.parent, r.fact, i);
      assert k == i;
    }
    forall p, f, k | 0 < k <= maxLevel && FirstLevel(g, minSupport, p, f, k) ensures RelationAt(g, k, p, f) in out {
      assert k <= level;
      assert EmittedBy(g, minSupport, level, p, f);
      assert (p, f) in emitted;
      var r :| r in out && (r.parent, r.fact) == (p, f);
      var i: nat :| i > 0 && FirstLevel(g, minSupport, r.parent, r.fact, i) && r == RelationAt(g, i, r.parent, r.fact);
      assert i == k;
    }
  }

  /** The inputs of level 0: the direct rows, child by child. */
  method DirectLevel(direct: Direct) returns (cur: Carried)
    ensures cur.Keys == direct.Keys && forall k | k in cur :: cur[k] == InputsOf(direct[k])
  {
    cur := map[];
    var todo := direct.Keys;
    while todo != {}
      invariant todo <= direct.Keys && cur.Keys == direct.Keys - todo
      invariant forall k | k in cur :: cur[k] == InputsOf(direct[k])
      decreases todo
    {
      var child := Any(todo);
      todo := todo - {child};
      cur := cur[child := InputsOf(direct[child])];
    }
  }

  lemma DirectIsLevel(g: Given, cur: Carried)
    requires cur.Keys == g.direct.Keys && forall k | k in cur :: cur[k] == InputsOf(g.direct[k])
    ensures IsLevel(g, 0, cur)
  {
    forall n, f ensures Tells(g, 0, n, f, InRows(cur, n)) {
      assert InRows(cur, n) == DirectInputs(g, n);
    }
  }

  lemma NothingCarried(g: Given, level: nat, cur: Carried)
    requires IsLevel(g, level, cur) && cur == map[]
    ensures forall n, f | HasParent(g, n) :: !Carries(g, level, n, f)
  {
    forall n, f | HasParent(g, n) ensures !Carries(g, level, n, f) {
      assert Tells(g, level, n, f, InRows(cur, n));
    }
  }

  /** Lift the direct relations onto the kept parents, one level after the other. */
  method LiftRelations(g: Given, childParents: map<Key, seq<Key>>, minSupport: nat, maxLevel: nat) returns (out: seq<Relation>)
    requires ListsParents(g.parents, childParents) && minSupport > 0
    ensures LiftedExactly(g, minSupport, maxLevel, out)
  {
    hide IsLevel, LiftedExactly, OutIs, ListsParents, FirstLevel, Filled, RightBuckets, EmittedBy;
    var cur := DirectLevel(g.direct);
    DirectIsLevel(g, cur);
    out := [];
    var emitted: set<(Key, Fact)> := {};
    var level := 1;
    EmptyOut(g, minSupport);
    while level <= maxLevel && cur != map[]
      invariant 1 <= level <= maxLevel + 1
      invariant IsLevel(g, level - 1, cur)
      invariant OutIs(g, minSupport, out, emitted)
      invariant forall p, f :: (p, f) in emitted <==> EmittedBy(g, minSupport, level - 1, p, f)
      decreases maxLevel - level
    {
      var buckets := FillBuckets(g, childParents, cur);
      FilledIsRight(g, level - 1, cur, buckets);
      if buckets == map[] {
        NoBuckets(g, level, buckets);
        forall p, f ensures (p, f) in emitted <==> EmittedBy(g, minSupport, level, p, f) {
          NothingEmitted(g, minSupport, level, p, f);
        }
        Done(g, minSupport, maxLevel, level, out, emitted);
        return;
      }
      out, emitted, cur := EmitLevel(g, childParents, minSupport, level, buckets, out, emitted);
      level := level + 1;
    }
    if level <= maxLevel {
      NothingCarried(g, level - 1, cur);
      Done(g, minSupport, maxLevel, level - 1, out, emitted);
    } else {
      Finish(g, minSupport, maxLevel, maxLevel, out, emitted);
    }
  }

  lemma EmptyOut(g: Given, minSupport: nat)
    ensures OutIs(g, minSupport, [], {})
    ensures forall p, f :: !EmittedBy(g, minSupport, 0, p, f)
  {}

  lemma NoBuckets(g: Given, level: nat, buckets: Buckets)
    requires level > 0 && RightBuckets(g, level, buckets) && buckets == map[]
    ensures forall n, f :: !Carries(g, level, n, f)
  {
    forall n, f ensures !Carries(g, level, n, f) {
      assert (n, f) !in buckets;
    }
  }

  /** With nothing carried at a level there is nothing more to emit, at it or later. */
  lemma Done(g: Given, minSupport: nat, maxLevel: nat, level: nat, out: seq<Relation>, emitted: set<(Key, Fact)>)
    requires OutIs(g, minSupport, out, emitted) && minSupport > 0 && level <= maxLevel
    requires forall n, f | HasParent(g, n) :: !Carries(g, level, n, f)
    requires forall p, f :: (p, f) in emitted <==> EmittedBy(g, minSupport, level, p, f)
    ensures LiftedExactly(g, minSupport, maxLevel, out)
  {
    forall k, p, f | level < k ensures Supporters(g, k, p, f) == {} {
      NothingLater(g, level, k, p, f);
    }
    Finish(g, minSupport, maxLevel, level, out, emitted);
  }

  lemma NothingEmitted(g: Given, minSupport: nat, level: nat, p: Key, f: Fact)
    requires level > 0 && minSupport > 0 && !Carries(g, level, p, f)
    ensures EmittedBy(g, minSupport, level, p, f) <==> EmittedBy(g, minSupport, level - 1, p, f)
  {
    assert Supporters(g, level, p, f) == {};
    if EmittedBy(g, minSupport, level, p, f) {
      var k :| 0 < k <= level && FirstLevel(g, minSupport, p, f, k);
      assert k != level;
      assert 0 < k <= level - 1;
    }
    if EmittedBy(g, minSupport, level - 1, p, f) {
      var k :| 0 < k <= level - 1 && FirstLevel(g, minSupport, p, f, k);
      assert 0 < k <= level;
    }
  }
}
