/** Which parents of the taxonomy are kept (pkg/generalization/builder.go, `selectParents`). */
module Parents {
  import opened Graphs
  import opened Iteration
  import opened Components
  import opened Hierarchy
  import opened Sets

  datatype ParentState = ParentState(depth: int, children: set<Key>)

  type ParentMap = map<Key, ParentState>

  /** Rows that count: not a self-loop, and within the allowed depth. */
  ghost predicate Counted(row: TaxonomyRow, maxParentLevel: int) {
    row.id.child != row.id.parent && 0 < row.depth <= maxParentLevel
  }

  ghost function ChildrenIn(rows: seq<TaxonomyRow>, maxParentLevel: int, p: Key): set<Key> {
    set r | r in rows && Counted(r, maxParentLevel) && r.id.parent == p :: r.id.child
  }

  /** d is the largest depth among the counted rows of p. */
  ghost predicate DeepestIn(rows: seq<TaxonomyRow>, maxParentLevel: int, p: Key, d: int) {
    && (exists r :: r in rows && Counted(r, maxParentLevel) && r.id.parent == p && r.depth == d)
    && (forall r | r in rows && Counted(r, maxParentLevel) && r.id.parent == p :: r.depth <= d)
  }

  /** Parents before any is dropped. */
  ghost predicate AllParents(rows: seq<TaxonomyRow>, maxParentLevel: int, parents: ParentMap) {
    && (forall p :: p in parents <==> ChildrenIn(rows, maxParentLevel, p) != {})
    && (forall p | p in parents :: parents[p].children == ChildrenIn(rows, maxParentLevel, p))
    && (forall p | p in parents :: DeepestIn(rows, maxParentLevel, p, parents[p].depth))
  }

  /** From a parent to those of its children that are parents themselves. */
  ghost function Downward(parents: ParentMap): Edges {
    set p, c | p in parents && c in parents[p].children && c in parents :: (p, c)
  }

  /** The least set with every sufficiently supported parent and, with a parent, its children that are parents. */
  ghost predicate IsKeptSet(parents: ParentMap, minSupport: int, kept: set<Key>) {
    forall q :: q in kept <==> KeptBecause(parents, minSupport, q)
  }

  ghost predicate KeptBecause(parents: ParentMap, minSupport: int, q: Key) {
    exists p :: p in parents && |parents[p].children| >= minSupport && Reach(Downward(parents), p, q)
  }

  /** The kept set really is the least one. */
  lemma KeptSetIsLeast(parents: ParentMap, minSupport: int, kept: set<Key>, other: set<Key>)
    requires IsKeptSet(parents, minSupport, kept)
    ensures forall p | p in parents && |parents[p].children| >= minSupport :: p in kept
    ensures Closed(Downward(parents), kept)
    ensures ((forall p | p in parents && |parents[p].children| >= minSupport :: p in other)
             && Closed(Downward(parents), other)) ==> kept <= other
  {
    forall p | p in parents && |parents[p].children| >= minSupport ensures p in kept {
      ReachSelf(Downward(parents), p);
      assert KeptBecause(parents, minSupport, p);
    }
    forall a, b | (a, b) in Downward(parents) && a in kept ensures b in kept {
      assert KeptBecause(parents, minSupport, a);
      var p :| p in parents && |parents[p].children| >= minSupport && Reach(Downward(parents), p, a);
      ReachThenEdge(Downward(parents), p, a, b);
      assert KeptBecause(parents, minSupport, b);
    }
    if (forall p | p in parents && |parents[p].children| >= minSupport :: p in other) && Closed(Downward(parents), other) {
      forall q | q in kept ensures q in other {
        assert KeptBecause(parents, minSupport, q);
        KeptIsBelow(parents, minSupport, other, q);
      }
    }
  }

  lemma KeptIsBelow(parents: ParentMap, minSupport: int, S: set<Key>, q: Key)
    requires KeptBecause(parents, minSupport, q) && Closed(Downward(parents), S)
    requires forall p | p in parents && |parents[p].children| >= minSupport :: p in S
    ensures q in S
  {
    hide Downward, Closed, Reach;
    var p :| p in parents && |parents[p].children| >= minSupport && Reach(Downward(parents), p, q);
    ClosedReach(Downward(parents), S, p, q);
  }

  /** The parents listed for a child are exactly the kept parents that have it as a child. */
  ghost predicate ListsParents(parents: ParentMap, childParents: map<Key, seq<Key>>) {
    && (forall c, p :: p in ParentsOf(childParents, c) <==> p in parents && c in parents[p].children)
    && (forall c :: Distinct(ParentsOf(childParents, c)))
  }

  /** The parents after one more counted row. */
  ghost function WithRow(parents: ParentMap, row: TaxonomyRow): ParentMap {
    var p := row.id.parent;
    if p in parents then
      parents[p := ParentState(if row.depth > parents[p].depth then row.depth else parents[p].depth,
                               parents[p].children + {row.id.child})]
    else
      parents[p := ParentState(row.depth, {row.id.child})]
  }

  lemma ChildrenWith(rows: seq<TaxonomyRow>, row: TaxonomyRow, maxParentLevel: int, p: Key)
    ensures ChildrenIn(rows + [row], maxParentLevel, p)
            == ChildrenIn(rows, maxParentLevel, p)
               + if Counted(row, maxParentLevel) && row.id.parent == p then {row.id.child} else {}
  {
    assert forall r :: r in rows + [row] <==> r in rows || r == row;
  }

  lemma DeepestWith(rows: seq<TaxonomyRow>, row: TaxonomyRow, maxParentLevel: int, p: Key, d: int)
    requires DeepestIn(rows, maxParentLevel, p, d)
    ensures DeepestIn(rows + [row], maxParentLevel, p,
                      if Counted(row, maxParentLevel) && row.id.parent == p && row.depth > d then row.depth else d)
  {
    assert forall r :: r in rows + [row] <==> r in rows || r == row;
  }

  lemma FirstDepth(rows: seq<TaxonomyRow>, row: TaxonomyRow, maxParentLevel: int)
    requires ChildrenIn(rows, maxParentLevel, row.id.parent) == {} && Counted(row, maxParentLevel)
    ensures DeepestIn(rows + [row], maxParentLevel, row.id.parent, row.depth)
  {
    assert forall r :: r in rows + [row] <==> r in rows || r == row;
    assert forall r | r in rows && Counted(r, maxParentLevel) ::
        r.id.parent == row.id.parent ==> r.id.child in ChildrenIn(rows, maxParentLevel, row.id.parent);
  }

  lemma OneMoreRow(rows: seq<TaxonomyRow>, row: TaxonomyRow, maxParentLevel: int, parents: ParentMap)
    requires AllParents(rows, maxParentLevel, parents)
    ensures AllParents(rows + [row], maxParentLevel, if Counted(row, maxParentLevel) then WithRow(parents, row) else parents)
  {
    hide ChildrenIn, DeepestIn;
    var r' := if Counted(row, maxParentLevel) then WithRow(parents, row) else parents;
    forall p ensures ChildrenIn(rows + [row], maxParentLevel, p)
                     == ChildrenIn(rows, maxParentLevel, p)
                        + if Counted(row, maxParentLevel) && row.id.parent == p then {row.id.child} else {}
    {
      ChildrenWith(rows, row, maxParentLevel, p);
    }
    forall p | p in r' ensures DeepestIn(rows + [row], maxParentLevel, p, r'[p].depth) {
      if p in parents {
        DeepestWith(rows, row, maxParentLevel, p, parents[p].depth);
      } else {
        FirstDepth(rows, row, maxParentLevel);
      }
    }
  }

  ghost predicate SameChildren(parents: ParentMap, childrenByParent: map<Key, seq<Key>>) {
    && childrenByParent.Keys == parents.Keys
    && forall p | p in parents :: forall c :: c in childrenByParent[p] <==> c in parents[p].children
  }

  lemma SameKeys(parents: ParentMap, childrenByParent: map<Key, seq<Key>>)
    requires SameChildren(parents, childrenByParent)
    ensures childrenByParent.Keys == parents.Keys
  {}

  lemma SameChildrenWith(parents: ParentMap, childrenByParent: map<Key, seq<Key>>, row: TaxonomyRow)
    requires SameChildren(parents, childrenByParent)
    ensures var p := row.id.parent;
            var listed := if p in parents then childrenByParent[p] else [];
            SameChildren(WithRow(parents, row), childrenByParent[p := listed + [row.id.child]])
  {}

  lemma NoRows(maxParentLevel: int)
    ensures AllParents([], maxParentLevel, map[]) && SameChildren(map[], map[])
  {}

  /** Collect the parents and their children. */
  method CollectParents(rows: seq<TaxonomyRow>, maxParentLevel: int)
    returns (parents: ParentMap, childrenByParent: map<Key, seq<Key>>)
    ensures AllParents(rows, maxParentLevel, parents) && SameChildren(parents, childrenByParent)
  {
    hide AllParents, SameChildren;
    parents, childrenByParent := map[], map[];
    NoRows(maxParentLevel);
    assert rows[..0] == [];
    for i := 0 to |rows|
      invariant AllParents(rows[..i], maxParentLevel, parents) && SameChildren(parents, childrenByParent)
    {
      var row := rows[i];
      assert rows[..i + 1] == rows[..i] + [row];
      OneMoreRow(rows[..i], row, maxParentLevel, parents);
      if row.id.child == row.id.parent || row.depth <= 0 || row.depth > maxParentLevel {
        continue;
      }
      ghost var before := parents;
      var p := row.id.parent;
      SameChildrenWith(parents, childrenByParent, row);
      SameKeys(parents, childrenByParent);
      var state := if p in parents then parents[p] else ParentState(row.depth, {});
      var listed := if p in parents then childrenByParent[p] else [];
      if row.depth > state.depth {
        state := ParentState(row.depth, state.children);
      }
      parents := parents[p := ParentState(state.depth, state.children + {row.id.child})];
      childrenByParent := childrenByParent[p := listed + [row.id.child]];
      assert {} + {row.id.child} == {row.id.child};
      assert parents == WithRow(before, row);
    }
    assert rows[..|rows|] == rows;
  }

  // ------------------------------------------------------------------ closing downward

  /** Everything marked is justified, and what is marked but not queued has its parent children marked. */
  ghost predicate Closing(parents: ParentMap, minSupport: int, kept: set<Key>, queue: seq<Key>) {
    && (forall p | p in parents && |parents[p].children| >= minSupport :: p in kept)
    && (forall q | q in kept :: q in parents && KeptBecause(parents, minSupport, q))
    && (forall q | q in queue :: q in kept)
    && (forall a, b | a in kept && (a, b) in Downward(parents) :: a in queue || b in kept)
  }

  lemma ClosedDown(parents: ParentMap, minSupport: int, kept: set<Key>)
    requires Closing(parents, minSupport, kept, [])
    ensures IsKeptSet(parents, minSupport, kept)
  {
    forall q | KeptBecause(parents, minSupport, q) ensures q in kept {
      var p :| p in parents && |parents[p].children| >= minSupport && Reach(Downward(parents), p, q);
      ClosedReach(Downward(parents), kept, p, q);
    }
  }

  lemma KeptChild(parents: ParentMap, minSupport: int, p: Key, c: Key)
    requires KeptBecause(parents, minSupport, p) && (p, c) in Downward(parents)
    ensures KeptBecause(parents, minSupport, c)
  {
    var s :| s in parents && |parents[s].children| >= minSupport && Reach(Downward(parents), s, p);
    ReachThenEdge(Downward(parents), s, p, c);
  }

  /** Mark the supported parents, then walk down to children that are parents themselves. */
  method CloseDown(parents: ParentMap, childrenByParent: map<Key, seq<Key>>, minSupport: int) returns (kept: set<Key>)
    requires SameChildren(parents, childrenByParent)
    ensures IsKeptSet(parents, minSupport, kept)
  {
    var queue: seq<Key>;
    kept, queue := Seeds(parents, minSupport);
    while queue != []
      invariant Closing(parents, minSupport, kept, queue)
      decreases parents.Keys - kept, |queue|
    {
      kept, queue := Widen(parents, childrenByParent, minSupport, kept, queue);
    }
    ClosedDown(parents, minSupport, kept);
  }

  method Seeds(parents: ParentMap, minSupport: int) returns (kept: set<Key>, queue: seq<Key>)
    ensures Closing(parents, minSupport, kept, queue)
  {
    kept, queue := {}, [];
    var todo := parents.Keys;
    hide Reach;
    while todo != {}
      invariant todo <= parents.Keys
      invariant forall q :: q in queue <==> q in kept
      invariant forall q :: q in kept <==> q in parents.Keys - todo && |parents[q].children| >= minSupport
      decreases todo
    {
      var key := Any(todo);
      todo := todo - {key};
      if |parents[key].children| >= minSupport {
        kept, queue := kept + {key}, queue + [key];
      }
    }
    forall q | q in kept ensures KeptBecause(parents, minSupport, q) {
      ReachSelf(Downward(parents), q);
    }
  }

  /** One turn of the walk: mark the unmarked children of the first queued parent that are parents. */
  method Widen(parents: ParentMap, childrenByParent: map<Key, seq<Key>>, minSupport: int, kept: set<Key>, queue: seq<Key>)
    returns (kept': set<Key>, queue': seq<Key>)
    requires SameChildren(parents, childrenByParent) && Closing(parents, minSupport, kept, queue) && queue != []
    ensures Closing(parents, minSupport, kept', queue')
    ensures kept <= kept'
    ensures parents.Keys - kept' < parents.Keys - kept || (kept' == kept && |queue'| < |queue|)
  {
    hide KeptBecause, Reach;
    var parent := queue[0];
    kept', queue' := kept, queue[1..];
    var children := childrenByParent[parent];
    assert forall q | q in queue :: q == parent || q in queue';
    for i := 0 to |children|
      invariant kept <= kept'
      invariant kept' == kept || exists q :: q in kept' && q !in kept
      invariant kept' == kept ==> queue' == queue[1..]
      invariant forall q | q in kept' :: q in parents && KeptBecause(parents, minSupport, q)
      invariant forall q | q in queue' :: q in kept'
      invariant forall a, b | a in kept' && (a, b) in Downward(parents) :: a == parent || a in queue' || b in kept'
      invariant forall j | 0 <= j < i && children[j] in parents :: children[j] in kept'
    {
      var child := children[i];
      if child !in parents || child in kept' {
        continue;
      }
      assert (parent, child) in Downward(parents);
      KeptChild(parents, minSupport, parent, child);
      kept', queue' := kept' + {child}, queue' + [child];
    }
    forall b | (parent, b) in Downward(parents) ensures b in kept' {
      var j :| 0 <= j < |children| && children[j] == b;
    }
  }

  // ------------------------------------------------------------------ the parents of each child

  /** ListsParents as far as the parents in done are concerned. */
  ghost predicate ListsSome(parents: ParentMap, done: set<Key>, childParents: map<Key, seq<Key>>) {
    && (forall c, p :: p in ParentsOf(childParents, c) <==> p in done && p in parents && c in parents[p].children)
    && (forall c :: Distinct(ParentsOf(childParents, c)))
  }

  /** List the parents of each child. */
  method ListParents(parents: ParentMap) returns (childParents: map<Key, seq<Key>>)
    ensures ListsParents(parents, childParents)
  {
    childParents := map[];
    var todo := parents.Keys;
    ghost var done: set<Key> := {};
    while todo != {}
      invariant done + todo == parents.Keys && done !! todo
      invariant ListsSome(parents, done, childParents)
      decreases todo
    {
      var key := Any(todo);
      childParents := AppendParent(parents, done, childParents, key);
      todo, done := todo - {key}, done + {key};
    }
    assert done == parents.Keys;
  }

  /** Append key to the parent list of each of its children. */
  method AppendParent(parents: ParentMap, ghost done: set<Key>, lists: map<Key, seq<Key>>, key: Key)
    returns (lists': map<Key, seq<Key>>)
    requires ListsSome(parents, done, lists) && key in parents && key !in done
    ensures ListsSome(parents, done + {key}, lists')
  {
    hide ListsSome, Appended;
    lists' := lists;
    var todo := parents[key].children;
    ghost var listed: set<Key> := {};
    NothingAppended(lists, key);
    while todo != {}
      invariant listed + todo == parents[key].children && listed !! todo
      invariant Appended(lists, lists', listed, key)
      decreases todo
    {
      var child := Any(todo);
      AppendedOne(lists, lists', listed, key, child);
      todo, listed := todo - {child}, listed + {child};
      lists' := lists'[child := (if child in lists' then lists'[child] else []) + [key]];
    }
    assert listed == parents[key].children;
    AppendedAll(parents, done, lists, lists', key);
  }

  /** The key was appended to the lists of these children. */
  ghost predicate Appended(lists: map<Key, seq<Key>>, lists': map<Key, seq<Key>>, children: set<Key>, key: Key) {
    forall c :: ParentsOf(lists', c) == if c in children then ParentsOf(lists, c) + [key] else ParentsOf(lists, c)
  }

  lemma NothingAppended(lists: map<Key, seq<Key>>, key: Key)
    ensures Appended(lists, lists, {}, key)
  {}

  lemma AppendedOne(lists: map<Key, seq<Key>>, lists': map<Key, seq<Key>>, children: set<Key>, key: Key, child: Key)
    requires Appended(lists, lists', children, key) && child !in children
    ensures Appended(lists, lists'[child := (if child in lists' then lists'[child] else []) + [key]], children + {child}, key)
  {
    assert ParentsOf(lists', child) == ParentsOf(lists, child);
  }

  lemma AppendedAll(parents: ParentMap, done: set<Key>, lists: map<Key, seq<Key>>, lists': map<Key, seq<Key>>, key: Key)
    requires ListsSome(parents, done, lists) && key in parents && key !in done
    requires Appended(lists, lists', parents[key].children, key)
    ensures ListsSome(parents, done + {key}, lists')
  {
    hide ParentsOf;
    forall c ensures Distinct(ParentsOf(lists', c)) {
      assert Distinct(ParentsOf(lists, c)) && key !in ParentsOf(lists, c);
    }
  }

  /** The kept parents with their children and greatest depths, and the kept parents of every child. */
  method SelectParents(rows: seq<TaxonomyRow>, maxParentLevel: int, minSupport: int)
    returns (parents: ParentMap, childParents: map<Key, seq<Key>>, ghost all: ParentMap)
    ensures AllParents(rows, maxParentLevel, all)
    ensures IsKeptSet(all, minSupport, parents.Keys)
    ensures forall p | p in parents :: p in all && parents[p] == all[p]
    ensures ListsParents(parents, childParents)
  {
    var childrenByParent, kept;
    parents, childrenByParent := CollectParents(rows, maxParentLevel);
    all := parents;
    hide AllParents;
    kept := CloseDown(parents, childrenByParent, minSupport);
    forall q | q in kept ensures q in all {
      assert KeptBecause(all, minSupport, q);
      var p :| p in all && |all[p].children| >= minSupport && Reach(Downward(all), p, q);
      ClosedReach(Downward(all), all.Keys, p, q);
    }
    parents := map p | p in parents && p in kept :: parents[p];
    assert parents.Keys == kept;
    childParents := ListParents(parents);
  }
}
