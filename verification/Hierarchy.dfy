/** The stored taxonomy around the scope: its edges, their levels, and the rows that are kept
    (pkg/generalization/queries.go, `taxonomyHierarchy`). */
module Hierarchy {
  import opened Graphs
  import opened Iteration
  import opened Sets
  import opened Components
  import opened Levels

  datatype EdgeId = EdgeId(child: Key, parent: Key, pred: string)

  datatype TaxonomyRow = TaxonomyRow(id: EdgeId, depth: int, confidence: real)

  function PositiveOr(value: real, fallback: real): real {
    if value > 0.0 then value else fallback
  }

  /** The stored edges after one more sighting of an edge: the highest confidence wins. */
  ghost function Sighted(edges: map<EdgeId, real>, id: EdgeId, confidence: real): (r: map<EdgeId, real>) {
    var c := PositiveOr(confidence, 1.0);
    if id in edges && edges[id] >= c then edges else edges[id := c]
  }

  /** In which order two sightings come in does not matter. */
  lemma SightingsCommute(edges: map<EdgeId, real>, a: EdgeId, x: real, b: EdgeId, y: real)
    ensures Sighted(Sighted(edges, a, x), b, y) == Sighted(Sighted(edges, b, y), a, x)
  {
    assert Sighted(Sighted(edges, a, x), b, y).Keys == Sighted(Sighted(edges, b, y), a, x).Keys;
  }

  /** The confidence to be had from a sighting: one without a positive confidence counts as certain. */
  ghost function Seen(confidence: real): real {
    if confidence > 0.0 then confidence else 1.0
  }

  /** After any sightings exactly the edges sighted are stored, each with the greatest confidence it was sighted with. */
  lemma {:induction false} GreatestIsKept(sightings: seq<(EdgeId, real)>, edges: map<EdgeId, real>)
    requires edges == AllSighted(sightings)
    ensures forall id :: id in edges <==> exists i :: 0 <= i < |sightings| && sightings[i].0 == id
    ensures forall i | 0 <= i < |sightings| :: Seen(sightings[i].1) <= edges[sightings[i].0]
    ensures forall id | id in edges :: exists i :: 0 <= i < |sightings| && sightings[i].0 == id && Seen(sightings[i].1) == edges[id]
    decreases |sightings|
  {
    if sightings != [] {
      var init, last := sightings[..|sightings| - 1], sightings[|sightings| - 1];
      GreatestIsKept(init, AllSighted(init));
      assert edges == Sighted(AllSighted(init), last.0, last.1);
      hide AllSighted;
      assert sightings == init + [last];
      OneSightingMore(init, AllSighted(init), last);
    }
  }

  lemma OneSightingMore(init: seq<(EdgeId, real)>, before: map<EdgeId, real>, last: (EdgeId, real))
    requires forall id :: id in before <==> exists i :: 0 <= i < |init| && init[i].0 == id
    requires forall i | 0 <= i < |init| :: Seen(init[i].1) <= before[init[i].0]
    requires forall id | id in before :: exists i :: 0 <= i < |init| && init[i].0 == id && Seen(init[i].1) == before[id]
    ensures var sightings, edges := init + [last], Sighted(before, last.0, last.1);
            && (forall id :: id in edges <==> exists i :: 0 <= i < |sightings| && sightings[i].0 == id)
            && (forall i | 0 <= i < |sightings| :: Seen(sightings[i].1) <= edges[sightings[i].0])
            && (forall id | id in edges :: exists i :: 0 <= i < |sightings| && sightings[i].0 == id && Seen(sightings[i].1) == edges[id])
  {
    var sightings, edges := init + [last], Sighted(before, last.0, last.1);
    forall id | id in edges ensures exists i :: 0 <= i < |sightings| && sightings[i].0 == id && Seen(sightings[i].1) == edges[id] {
      if id in before && edges[id] == before[id] {
        var i :| 0 <= i < |init| && init[i].0 == id && Seen(init[i].1) == before[id];
        assert sightings[i].0 == id;
      } else {
        assert sightings[|init|].0 == id;
      }
    }
    forall id ensures id in edges <==> exists i :: 0 <= i < |sightings| && sightings[i].0 == id {
      if i :| 0 <= i < |init| && init[i].0 == id {
        assert sightings[i].0 == id;
      }
    }
  }

  ghost function AllSighted(sightings: seq<(EdgeId, real)>): map<EdgeId, real> {
    if sightings == [] then map[]
    else Sighted(AllSighted(sightings[..|sightings| - 1]), sightings[|sightings| - 1].0, sightings[|sightings| - 1].1)
  }

  /** The component edges between different components. */
  ghost function CrossEdges(E: Edges, components: Numbers): set<(int, int)> {
    set e | e in E && e.0 in components && e.1 in components && components[e.0] != components[e.1] ::
      (components[e.0], components[e.1])
  }

  ghost function CompsOf(S: set<Key>, components: Numbers): set<int> {
    set k | k in S && k in components :: components[k]
  }

  /** The cap on levels: one more than the greatest depth that is emitted. */
  ghost function Limit(maxLevel: int): int {
    if maxLevel < 0 then 1 else maxLevel + 1
  }

  /** Levels of keys as far as they may be relied on. */
  ghost predicate KeyLevelsRight(E: Edges, scope: set<Key>, components: Numbers, levels: map<Key, int>, limit: int) {
    var C := CrossEdges(E, components);
    var seeds := CompsOf(scope, components);
    && (forall v | v in levels :: v in components && 0 <= levels[v] <= limit && HasWalk(C, seeds, components[v], levels[v]))
    && (forall v | v in components && Reached(C, seeds, components[v]) && WalksAtMost(C, seeds, components[v], limit) ::
          v in levels && LongestWalk(C, seeds, components[v], levels[v]))
    && SharedLevels(components, levels)
  }

  /** The nodes of a component have one level, or none of them has any. */
  ghost predicate SharedLevels(components: Numbers, levels: map<Key, int>) {
    forall v, w | v in components && w in components && components[v] == components[w] && v in levels ::
      w in levels && levels[w] == levels[v]
  }

  ghost predicate HasEdge(edges: map<EdgeId, real>, c: Key, p: Key) {
    exists q :: EdgeId(c, p, q) in edges
  }

  /** The parent lists have no repetitions, and the sets beside them hold the same parents. */
  ghost predicate ParentLists(childParents: map<Key, seq<Key>>, childParentSet: map<Key, set<Key>>) {
    && childParents.Keys == childParentSet.Keys
    && (forall c | c in childParents :: Listed(childParents[c], childParentSet[c]))
  }

  ghost predicate Listed(list: seq<Key>, S: set<Key>) {
    && (forall p :: p in list <==> p in S)
    && Distinct(list)
  }

  function ComponentOf(components: Numbers, key: Key): int {
    if key in components then components[key] else 0
  }

  /** The edge leads out of its component and strictly up in level, to a level from 1 to maxLevel. */
  ghost predicate Climbs(e: EdgeId, levels: map<Key, int>, components: Numbers, maxLevel: int) {
    && ComponentOf(components, e.child) != ComponentOf(components, e.parent)
    && e.child in levels && e.parent in levels
    && levels[e.child] < levels[e.parent] && 0 < levels[e.parent] <= maxLevel
  }

  ghost function RowOf(e: EdgeId, edges: map<EdgeId, real>, levels: map<Key, int>): TaxonomyRow {
    TaxonomyRow(e, if e.parent in levels then levels[e.parent] else 0, if e in edges then edges[e] else 0.0)
  }

  class TaxonomyHierarchy {
    var nodes: set<Key>
    var scopeKeys: set<Key>
    var edges: map<EdgeId, real>
    var childParents: map<Key, seq<Key>>
    var childParentSet: map<Key, set<Key>>

    /** The parent lists hold each parent of a stored edge once. */
    ghost predicate Valid() reads this {
      && scopeKeys <= nodes
      && ParentLists(childParents, childParentSet)
      && (forall c, p :: p in ParentsOf(childParents, c) <==> HasEdge(edges, c, p))
      && (forall e | e in edges :: edges[e] > 0.0)
    }

    ghost function E(): Edges reads this {
      EdgesOf(nodes, childParents)
    }

    constructor (scope: set<Key>)
      ensures Valid() && nodes == scope && scopeKeys == scope && edges == map[]
    {
      nodes, scopeKeys := scope, scope;
      edges, childParents, childParentSet := map[], map[], map[];
    }

    method AddNode(key: Key)
      requires Valid()
      modifies this`nodes
      ensures Valid() && nodes == old(nodes) + {key}
    {
      nodes := nodes + {key};
    }

    /** Append parent to the parents of child unless it is there already. */
    method AddParent(child: Key, parent: Key)
      requires ParentLists(childParents, childParentSet)
      modifies this`childParents, this`childParentSet
      ensures ParentLists(childParents, childParentSet)
      ensures forall c, p :: p in ParentsOf(childParents, c) <==>
                p in ParentsOf(old(childParents), c) || (c == child && p == parent)
    {
      if child !in childParentSet {
        childParentSet := childParentSet[child := {}];
        childParents := childParents[child := []];
      }
      assert Listed(childParents[child], childParentSet[child]);
      if parent !in childParentSet[child] {
        childParentSet := childParentSet[child := childParentSet[child] + {parent}];
        childParents := childParents[child := childParents[child] + [parent]];
      }
      assert Listed(childParents[child], childParentSet[child]);
    }

    /** Store an edge; true when it had not been seen before. */
    method AddEdge(child: Key, parent: Key, pred: string, confidence: real) returns (added: bool)
      requires Valid()
      modifies this`edges, this`childParents, this`childParentSet
      ensures Valid()
      ensures edges == Sighted(old(edges), EdgeId(child, parent, pred), confidence)
      ensures var id, c := EdgeId(child, parent, pred), if confidence > 0.0 then confidence else 1.0;
              && edges.Keys == old(edges).Keys + {id} && (forall e | e in old(edges) && e != id :: edges[e] == old(edges)[e])
              && edges[id] >= c && (id in old(edges) ==> edges[id] >= old(edges)[id])
              && (edges[id] == c || (id in old(edges) && edges[id] == old(edges)[id]))
      ensures added == (EdgeId(child, parent, pred) !in old(edges))
    {
      hide ParentLists;
      var id := EdgeId(child, parent, pred);
      var c := PositiveOr(confidence, 1.0);
      SameEdges(edges, id, c);
      if id in edges {
        if c > edges[id] {
          edges := edges[id := c];
        }
        return false;
      }
      edges := edges[id := c];
      hide HasEdge, ParentsOf;
      AddParent(child, parent);
      return true;
    }

    /** The component and the level of every node; nodes that no scope entity leads to have no level. */
    method Levels(maxLevel: int) returns (levels: map<Key, int>, components: Numbers)
      requires Valid()
      ensures IsCondensation(nodes, E(), components)
      ensures KeyLevelsRight(E(), scopeKeys, components, levels, Limit(maxLevel))
    {
      var keys := Listing(nodes);
      components := ComponentsOf(nodes, childParents, keys);
      hide Finished, IsCondensation, LevelsRight, KeyLevelsRight, EdgesIn, CrossEdges, EdgesOf;
      var compParents := Condense(nodes, childParents, components);
      var seeds := set k | k in scopeKeys && k in components :: components[k];
      var limit := if maxLevel + 1 < 1 then 1 else maxLevel + 1;
      var compLevels := AssignLevels(compParents, seeds, limit);
      levels := map k | k in components && components[k] in compLevels :: compLevels[components[k]];
      KeysOfLevels(E(), scopeKeys, components, compLevels, levels, Limit(maxLevel));
    }

    /** The edges that climb from a component to a higher one within the cap, with the parent's level as depth. */
    method Rows(levels: map<Key, int>, components: Numbers, maxLevel: int) returns (rows: seq<TaxonomyRow>)
      ensures forall r :: r in rows <==> r.id in edges && r == RowOf(r.id, edges, levels) && Climbs(r.id, levels, components, maxLevel)
      ensures forall i, j | 0 <= i < j < |rows| :: rows[i].id != rows[j].id
    {
      rows := [];
      var keys := Listing(edges.Keys);
      for i := 0 to |keys|
        invariant forall r :: r in rows <==> r.id in keys[..i] && r == RowOf(r.id, edges, levels)
                                             && Climbs(r.id, levels, components, maxLevel)
        invariant forall k, j | 0 <= k < j < |rows| :: rows[k].id != rows[j].id
      {
        var edge := keys[i];
        assert keys[..i + 1] == keys[..i] + [edge];
        if ComponentOf(components, edge.child) == ComponentOf(components, edge.parent) {
          continue;
        }
        if edge.child !in levels {
          continue;
        }
        if edge.parent !in levels || levels[edge.parent] <= 0 || levels[edge.parent] > maxLevel
           || levels[edge.parent] <= levels[edge.child] {
          continue;
        }
        rows := rows + [TaxonomyRow(edge, levels[edge.parent], edges[edge])];
      }
    }

    /** The rows emitted for the hierarchy as it was read, whatever cycles it has: they have none; each has a depth
        from 1 to the cap, which some walk up from the scope has; and every edge between components from a reached
        child to a parent whose longest walk is within the cap is there, with that length as its depth. */
    method EmittedRows(maxLevel: nat) returns (rows: seq<TaxonomyRow>, ghost components: Numbers)
      requires Valid()
      ensures IsCondensation(nodes, E(), components) && Acyclic(RowEdges(rows))
      ensures forall r | r in rows :: r.id in edges && r.confidence == edges[r.id] && 1 <= r.depth <= maxLevel
      ensures forall r | r in rows :: r.id.parent in components && r.id.child in components
                                      && components[r.id.child] != components[r.id.parent]
                                      && HasWalk(CrossEdges(E(), components), CompsOf(scopeKeys, components), components[r.id.parent], r.depth)
      ensures forall e, n | e in edges && MustBeEmitted(E(), scopeKeys, components, e, n) && n <= maxLevel ::
                exists r :: r in rows && r.id == e && r.depth == n
      ensures forall r | r in rows && WalksAtMost(CrossEdges(E(), components), CompsOf(scopeKeys, components), components[r.id.parent], maxLevel + 1) ::
                LongestWalk(CrossEdges(E(), components), CompsOf(scopeKeys, components), components[r.id.parent], r.depth)
    {
      var levels, numbers := Levels(maxLevel);
      components := numbers;
      rows := Rows(levels, numbers, maxLevel);
      hide IsCondensation, KeyLevelsRight, HasWalk, LongestWalk, Valid;
      KeptRowsAcyclic(rows, levels, numbers, maxLevel);
      forall r | r in rows
        ensures r.id.parent in components && r.id.child in components && components[r.id.child] != components[r.id.parent]
                && HasWalk(CrossEdges(E(), components), CompsOf(scopeKeys, components), components[r.id.parent], r.depth)
                && (WalksAtMost(CrossEdges(E(), components), CompsOf(scopeKeys, components), components[r.id.parent], maxLevel + 1) ==>
                      LongestWalk(CrossEdges(E(), components), CompsOf(scopeKeys, components), components[r.id.parent], r.depth))
      {
        KeptRowDepth(E(), scopeKeys, components, levels, maxLevel, r.id);
      }
      forall e, n | e in edges && MustBeEmitted(E(), scopeKeys, components, e, n) && n <= maxLevel
        ensures exists r :: r in rows && r.id == e && r.depth == n
      {
        KeptRowsExact(E(), scopeKeys, components, levels, maxLevel, e, n);
        assert RowOf(e, edges, levels) in rows;
      }
    }
  }

  /** An edge between components whose child is reached and whose parent's longest walk has length n. */
  ghost predicate MustBeEmitted(E: Edges, scope: set<Key>, components: Numbers, e: EdgeId, n: int) {
    && (e.child, e.parent) in E && e.child in components && e.parent in components
    && components[e.child] != components[e.parent]
    && Reached(CrossEdges(E, components), CompsOf(scope, components), components[e.child])
    && LongestWalk(CrossEdges(E, components), CompsOf(scope, components), components[e.parent], n)
  }

  // ------------------------------------------------------------------ levels

  function AddCross(parents: map<int, set<int>>, a: int, b: int): map<int, set<int>> {
    parents[a := (if a in parents then parents[a] else {}) + {b}]
  }

  lemma AddCrossIs(parents: map<int, set<int>>, a: int, b: int)
    ensures EdgesIn(AddCross(parents, a, b)) == EdgesIn(parents) + {(a, b)}
  {
    var r := AddCross(parents, a, b);
    forall x, y ensures (x, y) in EdgesIn(r) <==> (x, y) in EdgesIn(parents) + {(a, b)} {
      assert (x, y) in EdgesIn(r) <==> x in r && y in r[x];
    }
    forall e ensures e in EdgesIn(r) <==> e in EdgesIn(parents) + {(a, b)} {
      assert e == (e.0, e.1);
    }
  }

  /** The edges out of a set of children. */
  ghost function From(E: Edges, S: set<Key>): Edges {
    set e | e in E && e.0 in S
  }

  ghost function FromTo(E: Edges, c: Key, parents: seq<Key>): Edges {
    set e | e in E && e.0 == c && e.1 in parents
  }

  lemma CrossOne(E: Edges, components: Numbers, F: Edges, c: Key, p: Key)
    requires (c, p) in E && c in components && p in components
    ensures CrossEdges(F + {(c, p)}, components)
            == CrossEdges(F, components)
               + if components[c] != components[p] then {(components[c], components[p])} else {}
  {
    var G := F + {(c, p)};
    var R := CrossEdges(F, components) + if components[c] != components[p] then {(components[c], components[p])} else {};
    forall x ensures x in CrossEdges(G, components) <==> x in R {
      if x in CrossEdges(G, components) {
        var e :| e in G && e.0 in components && e.1 in components && components[e.0] != components[e.1]
                 && x == (components[e.0], components[e.1]);
        assert e in F || e == (c, p);
      }
      if components[c] != components[p] {
        assert (c, p) in G;
        assert (components[c], components[p]) in CrossEdges(G, components);
      }
    }
  }

  /** Keys have the levels of their components. */
  lemma KeysOfLevels(E: Edges, scope: set<Key>, components: Numbers, compLevels: map<int, int>, levels: map<Key, int>, limit: int)
    requires LevelsRight(CrossEdges(E, components), CompsOf(scope, components), limit, compLevels)
    requires levels == map k | k in components && components[k] in compLevels :: compLevels[components[k]]
    ensures KeyLevelsRight(E, scope, components, levels, limit)
  {
    hide HasWalk, Reached, WalksAtMost, LongestWalk, CrossEdges;
  }

  /** The parents of each component, skipping edges inside one. */
  method Condense(nodes: set<Key>, childParents: map<Key, seq<Key>>, components: Numbers) returns (compParents: map<int, set<int>>)
    requires components.Keys == nodes
    ensures EdgesIn(compParents) == CrossEdges(EdgesOf(nodes, childParents), components)
  {
    ghost var E := EdgesOf(nodes, childParents);
    compParents := map[];
    ghost var F: Edges := {};
    var todo := childParents.Keys;
    hide CrossEdges, EdgesIn, AddCross;
    NoEdges(components);
    while todo != {}
      invariant todo <= childParents.Keys
      invariant F == From(E, childParents.Keys - todo)
      invariant EdgesIn(compParents) == CrossEdges(F, components)
      decreases todo
    {
      var child := Any(todo);
      todo := todo - {child};
      ghost var G := F;
      if child in components {
        var parents := childParents[child];
        for i := 0 to |parents|
          invariant F == G + FromTo(E, child, parents[..i])
          invariant EdgesIn(compParents) == CrossEdges(F, components)
        {
          var parent := parents[i];
          assert parents[..i + 1] == parents[..i] + [parent];
          if parent in components {
            assert (child, parent) in E;
            assert FromTo(E, child, parents[..i + 1]) == FromTo(E, child, parents[..i]) + {(child, parent)};
            CrossOne(E, components, F, child, parent);
            F := F + {(child, parent)};
            if components[child] != components[parent] {
              AddCrossIs(compParents, components[child], components[parent]);
              compParents := AddCross(compParents, components[child], components[parent]);
            }
          } else {
            assert FromTo(E, child, parents[..i + 1]) == FromTo(E, child, parents[..i]);
          }
        }
        assert parents[..|parents|] == parents;
      }
      assert F == From(E, childParents.Keys - todo);
    }
    assert F == E;
  }

  lemma NoEdges(components: Numbers)
    ensures EdgesIn<int>(map[]) == CrossEdges({}, components)
  {}

  ghost function RowEdges(rows: seq<TaxonomyRow>): Edges {
    set r | r in rows :: (r.id.child, r.id.parent)
  }

  /** Whatever cycles the stored graph has, the kept rows have none. */
  lemma KeptRowsAcyclic(rows: seq<TaxonomyRow>, levels: map<Key, int>, components: Numbers, maxLevel: int)
    requires forall r | r in rows :: Climbs(r.id, levels, components, maxLevel)
    ensures Acyclic(RowEdges(rows))
  {
    RankedIsAcyclic(RowEdges(rows), k => if k in levels then levels[k] else 0);
  }

  lemma WalksShorter(C: set<(int, int)>, seeds: set<int>, a: int, b: int, n: int)
    requires (a, b) in C && WalksAtMost(C, seeds, b, n)
    ensures WalksAtMost(C, seeds, a, n - 1)
  {
    forall k: nat | HasWalk(C, seeds, a, k) ensures k <= n - 1 {
      assert HasWalk(C, seeds, b, k + 1);
    }
  }

  /** Which edges are kept, and at which depth, for parents whose longest walk does not pass maxLevel:
      the edges between components whose child is reached, at the length of the parent's longest walk. */
  lemma KeptRowsExact(E: Edges, scope: set<Key>, components: Numbers, levels: map<Key, int>, maxLevel: int,
                      e: EdgeId, n: int)
    requires KeyLevelsRight(E, scope, components, levels, Limit(maxLevel)) && 0 <= maxLevel
    requires (e.child, e.parent) in E && e.child in components && e.parent in components
    requires LongestWalk(CrossEdges(E, components), CompsOf(scope, components), components[e.parent], n) && n <= maxLevel
    ensures Climbs(e, levels, components, maxLevel) <==>
              && components[e.child] != components[e.parent]
              && Reached(CrossEdges(E, components), CompsOf(scope, components), components[e.child])
    ensures Climbs(e, levels, components, maxLevel) ==> levels[e.parent] == n
  {
    var C, seeds := CrossEdges(E, components), CompsOf(scope, components);
    var a, b := components[e.child], components[e.parent];
    assert HasWalk(C, seeds, b, n) && Reached(C, seeds, b);
    assert e.parent in levels && HasWalk(C, seeds, b, levels[e.parent]);
    if a != b {
      assert (e.child, e.parent) in E;
      assert (a, b) in C;
      WalksShorter(C, seeds, a, b, n);
      if Reached(C, seeds, a) {
        assert WalksAtMost(C, seeds, a, Limit(maxLevel));
        assert e.child in levels && HasWalk(C, seeds, a, levels[e.child]);
      }
      if e.child in levels {
        assert HasWalk(C, seeds, a, levels[e.child]);
      }
    }
  }

  /** The depth of any kept row is the length of some walk up from the scope. */
  lemma KeptRowDepth(E: Edges, scope: set<Key>, components: Numbers, levels: map<Key, int>, maxLevel: int, e: EdgeId)
    requires KeyLevelsRight(E, scope, components, levels, Limit(maxLevel)) && Climbs(e, levels, components, maxLevel)
    ensures e.parent in components && e.child in components && components[e.child] != components[e.parent]
    ensures HasWalk(CrossEdges(E, components), CompsOf(scope, components), components[e.parent], levels[e.parent])
    ensures maxLevel >= 0 && WalksAtMost(CrossEdges(E, components), CompsOf(scope, components), components[e.parent], maxLevel + 1) ==>
              LongestWalk(CrossEdges(E, components), CompsOf(scope, components), components[e.parent], levels[e.parent])
  {
    assert Reached(CrossEdges(E, components), CompsOf(scope, components), components[e.parent]);
  }

  lemma {:induction false} WalkDescends(C: set<(int, int)>, seeds: set<int>, c: int, k: nat, top: int)
    requires forall a, b | (a, b) in C :: b < a
    requires forall s | s in seeds :: s <= top
    requires HasWalk(C, seeds, c, k)
    ensures c + k <= top
    decreases k
  {
    if k > 0 {
      var b :| (b, c) in C && HasWalk(C, seeds, b, k - 1);
      WalkDescends(C, seeds, b, k - 1, top);
    }
  }

  /** On the condensation no walk is longer than there are component numbers above its end, so with a cap
      that high every level is exact. */
  lemma WalksAreBounded(nodes: set<Key>, E: Edges, scope: set<Key>, components: Numbers, v: Key, top: int)
    requires IsCondensation(nodes, E, components) && v in components
    requires forall k | k in components :: components[k] <= top
    ensures WalksAtMost(CrossEdges(E, components), CompsOf(scope, components), components[v], top)
  {
    var C, seeds := CrossEdges(E, components), CompsOf(scope, components);
    forall a, b | (a, b) in C ensures b < a {
      var e :| e in E && e.0 in components && e.1 in components && components[e.0] != components[e.1]
               && (a, b) == (components[e.0], components[e.1]);
      assert (e.0, e.1) in E;
    }
    forall k: nat | HasWalk(C, seeds, components[v], k) ensures k <= top {
      WalkDescends(C, seeds, components[v], k, top);
    }
  }

  lemma SameEdges(edges: map<EdgeId, real>, id: EdgeId, c: real)
    ensures forall a, b :: HasEdge(edges[id := c], a, b) <==> HasEdge(edges, a, b) || (a == id.child && b == id.parent)
  {
    forall a, b ensures HasEdge(edges[id := c], a, b) <==> HasEdge(edges, a, b) || (a == id.child && b == id.parent) {
      if HasEdge(edges[id := c], a, b) {
        var q :| EdgeId(a, b, q) in edges[id := c];
        assert EdgeId(a, b, q) == id || EdgeId(a, b, q) in edges;
      }
      if HasEdge(edges, a, b) {
        var q :| EdgeId(a, b, q) in edges;
        assert EdgeId(a, b, q) in edges[id := c];
      }
      if a == id.child && b == id.parent {
        assert EdgeId(a, b, id.pred) in edges[id := c];
      }
    }
  }
}
