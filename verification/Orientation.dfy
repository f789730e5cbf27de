/** Which end of a stored taxonomy edge is the parent (pkg/taxonomy/obo.go, pkg/taxonomy/direction.go,
    pkg/generalization/direction.go). */
module Orientation {
  import opened Graphs
  import opened Options
  import opened Search
  import opened Sets

  /** How names are trimmed, compared and split into tokens. */
  datatype Naming = Naming(trim: string -> string, norm: string -> string, tokens: string -> set<string>)

  ghost predicate IsNaming(nm: Naming) {
    && (forall s {:trigger nm.trim(nm.trim(s))} :: nm.trim(nm.trim(s)) == nm.trim(s))
    && (forall s {:trigger nm.norm(nm.norm(s))} :: nm.norm(nm.norm(s)) == nm.norm(s))
    && (forall s {:trigger nm.trim(nm.norm(s))} :: nm.trim(nm.norm(s)) == nm.norm(s))
    && (forall s {:trigger nm.norm(nm.trim(s))} :: nm.norm(nm.trim(s)) == nm.norm(s))
    && (forall s :: nm.norm(s) == "" <==> nm.trim(s) == "")
    && (forall s {:trigger nm.tokens(nm.trim(s))} :: nm.tokens(nm.trim(s)) == nm.tokens(s))
    && (forall s {:trigger nm.tokens(nm.norm(s))} :: nm.tokens(nm.norm(s)) == nm.tokens(s))
  }

  /** The terms of an ontology: identifiers by normalized name, and the declared parents of each. */
  datatype Terms = Terms(nameToID: map<string, string>, parents: map<string, seq<string>>)

  function DeclaredParents(t: Terms, id: string): seq<string> {
    if id in t.parents then t.parents[id] else []
  }

  ghost function ParentEdges(t: Terms): set<(string, string)> {
    set id, i | id in t.parents && 0 <= i < |t.parents[id]| :: (id, t.parents[id][i])
  }

  ghost predicate IsTerms(nm: Naming, t: Terms) {
    forall k | k in t.nameToID :: k != "" && nm.norm(k) == k
  }

  class Ontology {
    const nm: Naming
    var nameToID: map<string, string>
    var parents: map<string, seq<string>>

    function View(): Terms reads this { Terms(nameToID, parents) }

    constructor (nm: Naming)
      ensures this.nm == nm && View() == Terms(map[], map[])
    {
      this.nm, nameToID, parents := nm, map[], map[];
    }

    /** Index one stanza, unless it has no identifier or is obsolete. A name that is taken keeps its term. */
    method Commit(id: string, obsolete: bool, names: seq<string>, isA: seq<string>)
      requires IsNaming(nm) && IsTerms(nm, View())
      modifies this
      ensures IsTerms(nm, View())
      ensures id == "" || obsolete ==> View() == old(View())
      ensures id != "" && !obsolete ==>
                forall k :: k in nameToID <==> k in old(nameToID) || exists n :: n in names && nm.norm(n) == k != ""
      ensures forall k | k in nameToID :: nameToID[k] == if k in old(nameToID) then old(nameToID)[k] else id
      ensures id != "" && !obsolete ==>
                ParentEdges(View()) == old(ParentEdges(View())) + set p | p in isA :: (id, p)
    {
      if id == "" || obsolete {
        return;
      }
      for i := 0 to |names|
        invariant parents == old(parents) && IsTerms(nm, View())
        invariant forall k :: k in nameToID <==> k in old(nameToID) || exists n :: n in names[..i] && nm.norm(n) == k != ""
        invariant forall k | k in nameToID :: nameToID[k] == if k in old(nameToID) then old(nameToID)[k] else id
      {
        assert names[..i + 1] == names[..i] + [names[i]];
        var key := nm.norm(names[i]);
        assert nm.norm(key) == key;
        if key != "" && key !in nameToID {
          nameToID := nameToID[key := id];
        }
      }
      assert names[..|names|] == names;
      if isA != [] {
        parents := parents[id := DeclaredParents(View(), id) + isA];
      }
      MoreParents(old(View()), View(), id, isA);
    }

    /** Is anc a proper ancestor of id? */
    method IsAncestor(anc: string, id: string) returns (r: bool)
      ensures r <==> anc != id && Reach(ParentEdges(View()), id, anc)
    {
      hide Searching, ParentEdges, Left;
      ghost var E := ParentEdges(View());
      if anc == id {
        return false;
      }
      var seen := {id};
      var queue := DeclaredParents(View(), id);
      Starts(E, id);
      ParentsAreEdges(View(), id);
      Expands(E, id, {}, [id], queue);
      assert [id][1..] + queue == queue && {} + {id} == {id};
      while queue != []
        invariant Searching(E, id, seen, queue) && anc !in seen
        decreases Left(E, id, seen), |queue|
      {
        var cur := queue[0];
        if cur == anc {
          Reached(E, id, seen, queue);
          return true;
        }
        if cur in seen {
          Pops(E, id, seen, queue);
          queue := queue[1..];
          continue;
        }
        ParentsAreEdges(View(), cur);
        Expands(E, id, seen, queue, DeclaredParents(View(), cur));
        seen := seen + {cur};
        queue := queue[1..] + DeclaredParents(View(), cur);
      }
      Ends(E, id, seen);
      return false;
    }
  }

  lemma ParentsAreEdges(t: Terms, id: string)
    ensures forall p :: p in DeclaredParents(t, id) <==> (id, p) in ParentEdges(t)
  {}

  lemma MoreParents(t: Terms, t': Terms, id: string, isA: seq<string>)
    requires isA == [] ==> t'.parents == t.parents
    requires isA != [] ==> t'.parents == t.parents[id := DeclaredParents(t, id) + isA]
    ensures ParentEdges(t') == ParentEdges(t) + set p | p in isA :: (id, p)
  {
    forall x, p ensures (x, p) in ParentEdges(t') <==> (x, p) in ParentEdges(t) || (x == id && p in isA) {
      ParentsAreEdges(t, x);
      ParentsAreEdges(t', x);
    }
  }

  // ------------------------------------------------------------------ deriving a direction

  datatype Signal = FromOntology | FromLexical | NoSignal

  datatype Direction = Direction(parent: string, child: string, signal: Signal, contradictsStored: bool, signalsDisagreed: bool)

  /** A pair as stored, with the orientations in which it is stored. */
  datatype Pair = Pair(a: string, b: string, aToB: bool, bToA: bool)

  /** What a deriver works with: an ontology, if there is one, and whether the names themselves are a signal. */
  datatype Source = Source(nm: Naming, terms: Option<Terms>, lexical: bool)

  ghost predicate IsSource(src: Source) {
    IsNaming(src.nm) && (src.terms.Some? ==> IsTerms(src.nm, src.terms.value))
  }

  ghost predicate Known(src: Source, name: string) {
    src.terms.Some? && src.nm.norm(name) in src.terms.value.nameToID
  }

  ghost function Id(src: Source, name: string): string
    requires Known(src, name)
  {
    src.terms.value.nameToID[src.nm.norm(name)]
  }

  /** Both names are terms, and the second is a proper ancestor of the first. */
  ghost predicate Up(src: Source, child: string, parent: string) {
    && Known(src, child) && Known(src, parent) && Id(src, child) != Id(src, parent)
    && Reach(ParentEdges(src.terms.value), Id(src, child), Id(src, parent))
  }

  /** The first name has fewer tokens, all of them in the second. */
  ghost predicate Shorter(src: Source, parent: string, child: string) {
    src.nm.tokens(parent) != {} && src.nm.tokens(parent) < src.nm.tokens(child)
  }

  /** The names that Derive takes to be parent and child. */
  ghost predicate Decides(src: Source, a: string, b: string, parent: string, child: string, signal: Signal) {
    && ((parent == a && child == b) || (parent == b && child == a))
    && match signal
       case FromOntology => Up(src, child, parent) && (parent == a && child == b ==> !Up(src, a, b))
       case FromLexical => !Up(src, a, b) && !Up(src, b, a) && src.lexical && Shorter(src, parent, child)
       case NoSignal => false
  }

  ghost predicate Undecided(src: Source, a: string, b: string) {
    || a == "" || b == "" || src.nm.norm(a) == src.nm.norm(b)
    || (!Up(src, a, b) && !Up(src, b, a) && !(src.lexical && (Shorter(src, a, b) || Shorter(src, b, a))))
  }

  /** Is the one set of tokens strictly contained in the other? */
  method ProperSubset(sub: set<string>, super: set<string>) returns (r: bool)
    ensures r <==> sub < super
  {
    if |sub| >= |super| {
      if sub < super {
        StrictlySmaller(sub, super);
      }
      return false;
    }
    var todo := sub;
    while todo != {}
      invariant todo <= sub && sub - todo <= super
      decreases todo
    {
      var t :| t in todo;
      if t !in super {
        return false;
      }
      todo := todo - {t};
    }
    assert sub <= super by {
      forall x | x in sub ensures x in super {
        assert x in sub - todo;
      }
    }
    if super <= sub {
      SubsetIsSmaller(super, sub);
    }
    return true;
  }

  method DeriveLexical(nm: Naming, a: string, b: string) returns (r: Option<(string, string)>)
    ensures r.Some? ==> (r.value == (a, b) || r.value == (b, a))
                        && nm.tokens(r.value.0) != {} && nm.tokens(r.value.0) < nm.tokens(r.value.1)
    ensures r.None? ==> nm.tokens(a) == {} || nm.tokens(b) == {} || !(nm.tokens(a) < nm.tokens(b) || nm.tokens(b) < nm.tokens(a))
  {
    var ta, tb := nm.tokens(a), nm.tokens(b);
    if |ta| == 0 || |tb| == 0 {
      return None;
    }
    var below := ProperSubset(ta, tb);
    if below {
      return Some((a, b));
    }
    var above := ProperSubset(tb, ta);
    return if above then Some((b, a)) else None;
  }

  class Deriver {
    const nm: Naming
    const ont: Ontology?
    var lexical: bool

    constructor (nm: Naming, ont: Ontology?)
      requires ont != null ==> ont.nm == nm
      ensures this.nm == nm && this.ont == ont && !lexical
    {
      this.nm, this.ont, lexical := nm, ont, false;
    }

    function View(): Source reads this, ont {
      Source(nm, if ont == null then None else Some(ont.View()), lexical)
    }

    method EnableLexical(on: bool)
      modifies this`lexical
      ensures lexical == on
    {
      lexical := on;
    }

    method DeriveOntology(a: string, b: string) returns (r: Option<(string, string)>)
      ensures r.None? <==> !Up(View(), a, b) && !Up(View(), b, a)
      ensures r.Some? ==> r.value == if Up(View(), a, b) then (b, a) else (a, b)
    {
      if ont == null || nm.norm(a) !in ont.nameToID || nm.norm(b) !in ont.nameToID {
        return None;
      }
      var ia, ib := ont.nameToID[nm.norm(a)], ont.nameToID[nm.norm(b)];
      if ia == ib {
        return None;
      }
      assert Known(View(), a) && Known(View(), b) && Id(View(), a) == ia && Id(View(), b) == ib;
      var up := ont.IsAncestor(ib, ia);
      if up {
        return Some((b, a));
      }
      var down := ont.IsAncestor(ia, ib);
      return if down then Some((a, b)) else None;
    }

    /** The direction of a pair: what the ontology says, or else what the names say if they are asked. */
    method Derive(p: Pair) returns (dir: Direction)
      ensures dir.signal == NoSignal <==> Undecided(View(), nm.trim(p.a), nm.trim(p.b))
      ensures dir.signal != NoSignal ==> Decides(View(), nm.trim(p.a), nm.trim(p.b), dir.parent, dir.child, dir.signal)
      ensures dir.contradictsStored ==> dir.signal != NoSignal
      ensures dir.signal != NoSignal && IsNaming(nm) ==>
                ((dir.contradictsStored <==> Stored(nm, p, dir.child, dir.parent) && !Stored(nm, p, dir.parent, dir.child))
                 <==> nm.trim(p.b) == p.b || dir.parent == nm.trim(p.a) || p.aToB == p.bToA)
      ensures dir.signalsDisagreed <==> lexical && dir.signal == FromOntology && Shorter(View(), dir.child, dir.parent)
    {
      var a, b := nm.trim(p.a), nm.trim(p.b);
      var none := Direction("", "", NoSignal, false, false);
      if a == "" || b == "" || nm.norm(a) == nm.norm(b) {
        return none;
      }
      hide Up, Shorter;
      var ontology := DeriveOntology(a, b);
      var names: Option<(string, string)> := None;
      if lexical {
        names := DeriveLexical(nm, a, b);
        ShorterNames(View(), a, b);
      }
      if ontology.Some? {
        dir := Direction(ontology.value.0, ontology.value.1, FromOntology, false, names.Some? && names.value.0 != ontology.value.0);
      } else if names.Some? {
        dir := Direction(names.value.0, names.value.1, FromLexical, false, false);
      } else {
        return none;
      }
      dir := dir.(contradictsStored := StoredOnlyBackwards(p, dir.parent));
      if IsNaming(nm) {
        BackwardsIff(nm, p, dir.parent, dir.child);
      }
    }

    /** Which of two names is the parent. */
    method Orient(a: string, b: string) returns (r: Option<(string, string)>)
      ensures r.None? <==> Undecided(View(), nm.trim(a), nm.trim(b))
      ensures r.Some? ==> exists signal :: Decides(View(), nm.trim(a), nm.trim(b), r.value.0, r.value.1, signal)
    {
      var dir := Derive(Pair(a, b, false, false));
      return if dir.signal == NoSignal then None else Some((dir.parent, dir.child));
    }
  }

  lemma ShorterNames(src: Source, a: string, b: string)
    ensures Shorter(src, a, b) <==> src.nm.tokens(a) != {} && src.nm.tokens(a) < src.nm.tokens(b)
    ensures Shorter(src, b, a) <==> src.nm.tokens(b) != {} && src.nm.tokens(b) < src.nm.tokens(a)
  {}

  /** The graph has this edge of the pair, whose names are taken without surrounding space. */
  ghost predicate Stored(nm: Naming, p: Pair, source: string, target: string) {
    (source == nm.trim(p.a) && target == nm.trim(p.b) && p.aToB) || (source == nm.trim(p.b) && target == nm.trim(p.a) && p.bToA)
  }

  /** Stored only from child to parent, as the code tells: it compares the parent with the second name as given. */
  function StoredOnlyBackwards(p: Pair, parent: string): bool {
    if parent == p.b then p.aToB && !p.bToA else p.bToA && !p.aToB
  }

  /** That is right exactly if the second name has no surrounding space, or is not the parent, or it makes no
      difference because the pair is stored in both directions or in neither. */
  lemma BackwardsIff(nm: Naming, p: Pair, parent: string, child: string)
    requires IsNaming(nm) && nm.norm(nm.trim(p.a)) != nm.norm(nm.trim(p.b))
    requires (parent == nm.trim(p.a) && child == nm.trim(p.b)) || (parent == nm.trim(p.b) && child == nm.trim(p.a))
    ensures (StoredOnlyBackwards(p, parent) <==> Stored(nm, p, child, parent) && !Stored(nm, p, parent, child))
            <==> nm.trim(p.b) == p.b || parent == nm.trim(p.a) || p.aToB == p.bToA
  {
    assert nm.trim(nm.trim(p.a)) == nm.trim(p.a);
  }

  // ------------------------------------------------------------------ order of the arguments

  /** Swapping the names changes the answer exactly if each is an ancestor of the other, which needs a cycle. */
  lemma OrderMattersOnCycles(src: Source, a: string, b: string)
    requires src.nm.norm(a) != src.nm.norm(b)
    ensures Undecided(src, a, b) <==> Undecided(src, b, a)
    ensures (exists p, c, s, p', c', s' :: Decides(src, a, b, p, c, s) && Decides(src, b, a, p', c', s') && (p, c) != (p', c'))
            <==> Up(src, a, b) && Up(src, b, a)
  {
    hide Up;
    if Up(src, a, b) && Up(src, b, a) {
      assert Decides(src, a, b, b, a, FromOntology);
      assert Decides(src, b, a, a, b, FromOntology);
    }
  }

  lemma AcyclicHasNoMutual(src: Source, a: string, b: string)
    requires src.terms.Some? && Acyclic(ParentEdges(src.terms.value))
    ensures !(Up(src, a, b) && Up(src, b, a))
  {
    if Up(src, a, b) && Up(src, b, a) {
      MutualIsCycle(ParentEdges(src.terms.value), Id(src, a), Id(src, b));
    }
  }

  lemma MutualIsCycle<T(!new)>(E: set<(T, T)>, a: T, b: T)
    requires a != b && Mutual(E, a, b)
    ensures ReachPlus(E, a, a)
  {
    var n: nat :| ReachIn(E, a, b, n);
    var c :| (a, c) in E && ReachIn(E, c, b, n - 1);
    ReachTrans(E, c, b, a);
  }

  // ------------------------------------------------------------------ orienting the stored rows

  datatype Row = Row(child: string, parent: string)

  /** A row that could be oriented, with its ends exchanged if it was stored the wrong way round. */
  ghost predicate Oriented(src: Source, row: Row, out: Row) {
    && src.nm.trim(row.child) != "" && src.nm.trim(row.parent) != ""
    && exists p, c, s :: Decides(src, src.nm.trim(row.child), src.nm.trim(row.parent), p, c, s)
                         && out == if src.nm.norm(p) == src.nm.norm(row.child) then Row(row.parent, row.child) else row
  }

  /** The rows that are kept, in order: those that can be oriented. */
  ghost predicate Applied(src: Source, rows: seq<Row>, kept: seq<Row>)
    decreases |rows|
  {
    if rows == [] then kept == []
    else
      var init, last := rows[..|rows| - 1], rows[|rows| - 1];
      || (Undecided(src, src.nm.trim(last.child), src.nm.trim(last.parent)) && Applied(src, init, kept))
      || (kept != [] && Oriented(src, last, kept[|kept| - 1]) && Applied(src, init, kept[..|kept| - 1]))
  }

  /** The row is stored the wrong way round. */
  ghost predicate Turns(src: Source, row: Row) {
    var a, b := src.nm.trim(row.child), src.nm.trim(row.parent);
    && !Undecided(src, a, b)
    && exists p, c, s :: Decides(src, a, b, p, c, s) && src.nm.norm(p) == src.nm.norm(row.child)
  }

  ghost function TurnedIn(src: Source, rows: seq<Row>): nat {
    if rows == [] then 0 else TurnedIn(src, rows[..|rows| - 1]) + if Turns(src, rows[|rows| - 1]) then 1 else 0
  }

  /** Only one decision is possible for the names in this order. */
  lemma OneDecision(src: Source, a: string, b: string, p: string, c: string, s: Signal)
    requires src.nm.norm(a) != src.nm.norm(b) && Decides(src, a, b, p, c, s)
    ensures forall p', c', s' | Decides(src, a, b, p', c', s') :: p' == p && c' == c
  {
    hide Up;
  }

  lemma TurnsIff(src: Source, row: Row, p: string, c: string, s: Signal)
    requires !Undecided(src, src.nm.trim(row.child), src.nm.trim(row.parent))
    requires Decides(src, src.nm.trim(row.child), src.nm.trim(row.parent), p, c, s)
    ensures Turns(src, row) <==> src.nm.norm(p) == src.nm.norm(row.child)
  {
    OneDecision(src, src.nm.trim(row.child), src.nm.trim(row.parent), p, c, s);
  }

  lemma TurnedMore(src: Source, rows: seq<Row>, row: Row)
    ensures TurnedIn(src, rows + [row]) == TurnedIn(src, rows) + if Turns(src, row) then 1 else 0
  {
    assert (rows + [row])[..|rows|] == rows;
  }

  lemma UndecidedStays(src: Source, row: Row)
    ensures Undecided(src, src.nm.trim(row.child), src.nm.trim(row.parent)) ==> !Turns(src, row)
  {}

  method ApplyDirection(d: Deriver?, rows: seq<Row>) returns (kept: seq<Row>, dropped: nat, flipped: nat)
    requires d != null ==> IsSource(d.View())
    ensures d == null ==> kept == rows && dropped == 0 && flipped == 0
    ensures d != null ==> Applied(d.View(), rows, kept) && flipped == TurnedIn(d.View(), rows)
    ensures |kept| + dropped == |rows|
  {
    if d == null {
      return rows, 0, 0;
    }
    hide Undecided, IsSource, Applied, Oriented, Turns, TurnedIn;
    kept, dropped, flipped := [], 0, 0;
    NothingApplied(d.View());
    assert rows[..0] == [];
    for i := 0 to |rows|
      invariant Applied(d.View(), rows[..i], kept) && |kept| + dropped == i && flipped == TurnedIn(d.View(), rows[..i])
    {
      assert rows[..i + 1] == rows[..i] + [rows[i]];
      TurnedMore(d.View(), rows[..i], rows[i]);
      var r, turned := OrientRow(d, rows[i]);
      if r == None {
        AppliedDrops(d.View(), rows[..i], kept, rows[i]);
        dropped := dropped + 1;
        continue;
      }
      AppliedMore(d.View(), rows[..i], kept, rows[i], r.value);
      kept := kept + [r.value];
      flipped := if turned then flipped + 1 else flipped;
    }
    assert rows[..|rows|] == rows;
  }

  /** The row as it is kept, if it can be oriented, and whether it was turned. */
  method OrientRow(d: Deriver, row: Row) returns (out: Option<Row>, turned: bool)
    requires IsSource(d.View())
    ensures out.None? <==> Undecided(d.View(), d.nm.trim(row.child), d.nm.trim(row.parent))
    ensures out.Some? ==> Oriented(d.View(), row, out.value)
    ensures turned <==> Turns(d.View(), row)
  {
    hide Decides, Undecided, IsSource, Turns;
    UndecidedStays(d.View(), row);
    var childName, parentName := d.nm.trim(row.child), d.nm.trim(row.parent);
    BlankIsUndecided(d.View(), childName, parentName);
    TrimTwice(d.View(), row.child, row.parent);
    if childName == "" || parentName == "" {
      return None, false;
    }
    var oriented := d.Orient(childName, parentName);
    if oriented == None {
      return None, false;
    }
    turned := d.nm.norm(oriented.value.0) == d.nm.norm(childName);
    out := Some(if turned then Row(row.parent, row.child) else row);
    ghost var signal :| Decides(d.View(), childName, parentName, oriented.value.0, oriented.value.1, signal);
    TurnsIff(d.View(), row, oriented.value.0, oriented.value.1, signal);
  }

  lemma AppliedMore(src: Source, init: seq<Row>, kept: seq<Row>, row: Row, out: Row)
    requires Applied(src, init, kept) && Oriented(src, row, out)
    ensures Applied(src, init + [row], kept + [out])
  {
    assert (init + [row])[..|init|] == init && (kept + [out])[..|kept|] == kept;
  }

  lemma NothingApplied(src: Source)
    ensures Applied(src, [], []) && TurnedIn(src, []) == 0
  {}

  lemma AppliedDrops(src: Source, init: seq<Row>, kept: seq<Row>, row: Row)
    requires Applied(src, init, kept)
    ensures Undecided(src, src.nm.trim(row.child), src.nm.trim(row.parent)) ==> Applied(src, init + [row], kept)
  {
    assert (init + [row])[..|init|] == init;
  }

  lemma AppliedKeeps(src: Source, init: seq<Row>, kept: seq<Row>, row: Row, out: Row, p: string, c: string, s: Signal)
    requires Applied(src, init, kept) && src.nm.trim(row.child) != "" && src.nm.trim(row.parent) != ""
    requires Decides(src, src.nm.trim(row.child), src.nm.trim(row.parent), p, c, s)
    requires out == if src.nm.norm(p) == src.nm.norm(row.child) then Row(row.parent, row.child) else row
    ensures Applied(src, init + [row], kept + [out])
  {
    assert (init + [row])[..|init|] == init && (kept + [out])[..|kept|] == kept;
    assert Oriented(src, row, out);
  }

  lemma BlankIsUndecided(src: Source, a: string, b: string)
    ensures a == "" || b == "" ==> Undecided(src, a, b)
  {}

  lemma TrimTwice(src: Source, a: string, b: string)
    requires IsSource(src)
    ensures src.nm.trim(src.nm.trim(a)) == src.nm.trim(a) && src.nm.trim(src.nm.trim(b)) == src.nm.trim(b)
    ensures src.nm.norm(src.nm.trim(a)) == src.nm.norm(a)
  {}

  /** The kept rows as edges between names. */
  ghost function RowEdges(src: Source, kept: seq<Row>): set<(string, string)> {
    set r | r in kept :: (src.nm.norm(r.child), src.nm.norm(r.parent))
  }

  lemma OrientedGoesUp(src: Source, row: Row, out: Row)
    requires IsSource(src) && !src.lexical && Oriented(src, row, out)
    ensures Up(src, out.child, out.parent)
  {
    var a, b := src.nm.trim(row.child), src.nm.trim(row.parent);
    var p, c, s :| Decides(src, a, b, p, c, s)
                   && out == if src.nm.norm(p) == src.nm.norm(row.child) then Row(row.parent, row.child) else row;
    assert src.nm.norm(a) == src.nm.norm(row.child) && src.nm.norm(b) == src.nm.norm(row.parent);
    assert Up(src, c, p);
  }

  /** Every kept row goes up the ontology. */
  lemma {:induction false} KeptGoUp(src: Source, rows: seq<Row>, kept: seq<Row>)
    requires IsSource(src) && !src.lexical && Applied(src, rows, kept)
    ensures forall r | r in kept :: Up(src, r.child, r.parent)
    decreases |rows|
  {
    if rows != [] {
      var init, last := rows[..|rows| - 1], rows[|rows| - 1];
      if Undecided(src, src.nm.trim(last.child), src.nm.trim(last.parent)) && Applied(src, init, kept) {
        KeptGoUp(src, init, kept);
      } else {
        KeptGoUp(src, init, kept[..|kept| - 1]);
        OrientedGoesUp(src, last, kept[|kept| - 1]);
        assert kept == kept[..|kept| - 1] + [kept[|kept| - 1]];
      }
    }
  }

  /** No two terms with different identifiers are ancestors of each other. */
  ghost predicate NoMutual(src: Source) {
    forall a, b :: !(Up(src, a, b) && Up(src, b, a))
  }

  lemma EdgeClimbs(src: Source, kept: seq<Row>, x: string, z: string)
    requires IsSource(src) && (forall r | r in kept :: Up(src, r.child, r.parent)) && (x, z) in RowEdges(src, kept)
    ensures src.nm.norm(x) == x && src.nm.norm(z) == z && Up(src, x, z)
  {
    var r :| r in kept && (x, z) == (src.nm.norm(r.child), src.nm.norm(r.parent));
    assert Up(src, r.child, r.parent);
  }

  /** A path of kept rows climbs the ontology. */
  lemma {:induction false} PathClimbs(src: Source, kept: seq<Row>, x: string, y: string, n: nat)
    requires IsSource(src) && (forall r | r in kept :: Up(src, r.child, r.parent))
    requires ReachIn(RowEdges(src, kept), x, y, n) && Known(src, x) && src.nm.norm(x) == x
    ensures Known(src, y) && src.nm.norm(y) == y && Reach(ParentEdges(src.terms.value), Id(src, x), Id(src, y))
    decreases n
  {
    hide IsSource, RowEdges, ParentEdges;
    var E := ParentEdges(src.terms.value);
    if n == 0 {
      ReachSelf(E, Id(src, x));
    } else {
      var z :| (x, z) in RowEdges(src, kept) && ReachIn(RowEdges(src, kept), z, y, n - 1);
      EdgeClimbs(src, kept, x, z);
      PathClimbs(src, kept, z, y, n - 1);
      ReachTrans(E, Id(src, x), Id(src, z), Id(src, y));
    }
  }

  lemma CycleIsMutual(src: Source, kept: seq<Row>, x: string)
    requires IsSource(src) && (forall r | r in kept :: Up(src, r.child, r.parent)) && ReachPlus(RowEdges(src, kept), x, x)
    ensures exists a, b :: Up(src, a, b) && Up(src, b, a)
  {
    var R := RowEdges(src, kept);
    var z :| (x, z) in R && Reach(R, z, x);
    EdgeClimbs(src, kept, x, z);
    var n: nat :| ReachIn(R, z, x, n);
    PathClimbs(src, kept, z, x, n);
    assert Up(src, x, z) && Up(src, z, x);
  }

  lemma NoMutualNoCycle(src: Source, rows: seq<Row>, kept: seq<Row>)
    requires IsSource(src) && !src.lexical && NoMutual(src) && Applied(src, rows, kept)
    ensures Acyclic(RowEdges(src, kept))
  {
    KeptGoUp(src, rows, kept);
    forall x ensures !ReachPlus(RowEdges(src, kept), x, x) {
      if ReachPlus(RowEdges(src, kept), x, x) {
        CycleIsMutual(src, kept, x);
      }
    }
  }

  /** With only the ontology as a signal, the kept rows are free of cycles whatever the stored rows, exactly if no two
      different terms of the ontology are ancestors of each other. */
  lemma KeptAcyclicIff(src: Source)
    requires IsSource(src) && !src.lexical
    ensures (forall rows, kept | Applied(src, rows, kept) :: Acyclic(RowEdges(src, kept))) <==> NoMutual(src)
  {
    if NoMutual(src) {
      forall rows, kept | Applied(src, rows, kept) ensures Acyclic(RowEdges(src, kept)) {
        NoMutualNoCycle(src, rows, kept);
      }
    } else {
      var a, b :| Up(src, a, b) && Up(src, b, a);
      MutualMakesCycle(src, src.nm.norm(a), src.nm.norm(b));
    }
  }

  /** Two terms that are ancestors of each other: both rows between them are kept as stored. */
  lemma MutualMakesCycle(src: Source, a: string, b: string)
    requires IsSource(src) && src.nm.norm(a) == a && src.nm.norm(b) == b && Up(src, a, b) && Up(src, b, a)
    ensures exists rows, kept :: Applied(src, rows, kept) && !Acyclic(RowEdges(src, kept))
  {
    var rows := [Row(a, b), Row(b, a)];
    assert src.nm.trim(a) == a && src.nm.trim(b) == b;
    assert Decides(src, a, b, b, a, FromOntology) && Decides(src, b, a, a, b, FromOntology);
    assert Oriented(src, Row(a, b), Row(a, b)) && Oriented(src, Row(b, a), Row(b, a));
    assert rows[..1] == [Row(a, b)] && [Row(a, b)][..0] == [];
    assert Applied(src, [Row(a, b)], [Row(a, b)]);
    assert Applied(src, rows, rows);
    var R := RowEdges(src, rows);
    assert Row(a, b) in rows && Row(b, a) in rows;
    ReachEdge(R, b, a);
    assert ReachPlus(R, a, a);
  }

  // ------------------------------------------------------------------ names as a signal

  lemma OrientedIsShorter(src: Source, row: Row, out: Row)
    requires IsSource(src) && src.terms.None? && Oriented(src, row, out)
    ensures src.nm.tokens(out.parent) < src.nm.tokens(out.child)
  {
    var a, b := src.nm.trim(row.child), src.nm.trim(row.parent);
    var p, c, s :| Decides(src, a, b, p, c, s)
                   && out == if src.nm.norm(p) == src.nm.norm(row.child) then Row(row.parent, row.child) else row;
    assert src.nm.norm(a) == src.nm.norm(row.child) && src.nm.norm(b) == src.nm.norm(row.parent);
    assert src.nm.tokens(a) == src.nm.tokens(row.child) && src.nm.tokens(b) == src.nm.tokens(row.parent);
    assert src.nm.tokens(src.nm.norm(a)) == src.nm.tokens(a) && src.nm.tokens(src.nm.norm(b)) == src.nm.tokens(b);
    assert Shorter(src, p, c);
  }

  lemma {:induction false} KeptGetShorter(src: Source, rows: seq<Row>, kept: seq<Row>)
    requires IsSource(src) && src.terms.None? && Applied(src, rows, kept)
    ensures forall r | r in kept :: src.nm.tokens(r.parent) < src.nm.tokens(r.child)
    decreases |rows|
  {
    if rows != [] {
      var init, last := rows[..|rows| - 1], rows[|rows| - 1];
      if Undecided(src, src.nm.trim(last.child), src.nm.trim(last.parent)) && Applied(src, init, kept) {
        KeptGetShorter(src, init, kept);
      } else {
        KeptGetShorter(src, init, kept[..|kept| - 1]);
        OrientedIsShorter(src, last, kept[|kept| - 1]);
        assert kept == kept[..|kept| - 1] + [kept[|kept| - 1]];
      }
    }
  }

  /** With only the names as a signal, the kept rows are free of cycles. */
  lemma NamesAloneAcyclic(src: Source, rows: seq<Row>, kept: seq<Row>)
    requires IsSource(src) && src.terms.None? && Applied(src, rows, kept)
    ensures Acyclic(RowEdges(src, kept))
  {
    KeptGetShorter(src, rows, kept);
    var rank := x => -|src.nm.tokens(x)|;
    forall u, v | (u, v) in RowEdges(src, kept) ensures rank(u) < rank(v) {
      var r :| r in kept && (u, v) == (src.nm.norm(r.child), src.nm.norm(r.parent));
      assert src.nm.tokens(u) == src.nm.tokens(r.child) && src.nm.tokens(v) == src.nm.tokens(r.parent);
      StrictlySmaller(src.nm.tokens(v), src.nm.tokens(u));
    }
    RankedIsAcyclic(RowEdges(src, kept), rank);
  }

  // ------------------------------------------------------------------ both signals

  /** One of the two orders of the arguments puts the second name above the first. */
  ghost predicate DecidedUp(src: Source, child: string, parent: string) {
    exists s :: Decides(src, child, parent, parent, child, s) || Decides(src, parent, child, parent, child, s)
  }

  /** The graph of all decisions on the names. */
  ghost function DecideEdges(src: Source, names: set<string>): set<(string, string)> {
    set c, p | c in names && p in names && DecidedUp(src, c, p) :: (c, p)
  }

  ghost predicate RowsOver(src: Source, names: set<string>, rows: seq<Row>) {
    forall r | r in rows :: src.nm.norm(r.child) in names && src.nm.norm(r.parent) in names
  }

  ghost predicate NormalNames(src: Source, names: set<string>) {
    forall n | n in names :: n != "" && src.nm.norm(n) == n
  }

  lemma DecidesNormally(src: Source, a: string, b: string, p: string, c: string, s: Signal)
    requires IsSource(src) && Decides(src, a, b, p, c, s)
    ensures var nm := src.nm; Decides(src, nm.norm(a), nm.norm(b), nm.norm(p), nm.norm(c), s)
    ensures src.nm.norm(p) != src.nm.norm(c)
  {
    var nm := src.nm;
    assert forall x | x == a || x == b :: nm.norm(nm.norm(x)) == nm.norm(x) && nm.tokens(nm.norm(x)) == nm.tokens(x);
  }

  /** What a kept row says is a decision on the normalized names. */
  lemma KeptIsDecided(src: Source, names: set<string>, row: Row, out: Row)
    requires IsSource(src) && Oriented(src, row, out) && src.nm.norm(row.child) in names && src.nm.norm(row.parent) in names
    ensures (src.nm.norm(out.child), src.nm.norm(out.parent)) in DecideEdges(src, names)
  {
    var nm := src.nm;
    var a, b := nm.trim(row.child), nm.trim(row.parent);
    var p, c, s :| Decides(src, a, b, p, c, s)
                   && out == if nm.norm(p) == nm.norm(row.child) then Row(row.parent, row.child) else row;
    assert nm.norm(a) == nm.norm(row.child) && nm.norm(b) == nm.norm(row.parent);
    DecidesNormally(src, a, b, p, c, s);
    assert DecidedUp(src, nm.norm(c), nm.norm(p));
  }

  lemma {:induction false} KeptAreDecided(src: Source, names: set<string>, rows: seq<Row>, kept: seq<Row>)
    requires IsSource(src) && RowsOver(src, names, rows) && Applied(src, rows, kept)
    ensures RowEdges(src, kept) <= DecideEdges(src, names)
    decreases |rows|
  {
    if rows != [] {
      hide DecideEdges, Oriented, Undecided;
      var init, last := rows[..|rows| - 1], rows[|rows| - 1];
      assert last in rows && forall r | r in init :: r in rows;
      if Undecided(src, src.nm.trim(last.child), src.nm.trim(last.parent)) && Applied(src, init, kept) {
        KeptAreDecided(src, names, init, kept);
      } else {
        KeptAreDecided(src, names, init, kept[..|kept| - 1]);
        KeptIsDecided(src, names, last, kept[|kept| - 1]);
        assert kept == kept[..|kept| - 1] + [kept[|kept| - 1]];
      }
    }
  }

  /** A decision is what one row between the names says when it is kept. */
  lemma DecisionIsKept(src: Source, names: set<string>, rows: seq<Row>, kept: seq<Row>, c: string, p: string) returns (row: Row)
    requires IsSource(src) && NormalNames(src, names) && (c, p) in DecideEdges(src, names) && Applied(src, rows, kept)
    ensures row in {Row(c, p), Row(p, c)} && Applied(src, rows + [row], kept + [Row(c, p)])
  {
    var s :| Decides(src, c, p, p, c, s) || Decides(src, p, c, p, c, s);
    assert src.nm.trim(src.nm.norm(c)) == c && src.nm.trim(src.nm.norm(p)) == p;
    if Decides(src, c, p, p, c, s) {
      DecidesNormally(src, c, p, p, c, s);
      row := Row(c, p);
      AppliedKeeps(src, rows, kept, row, Row(c, p), p, c, s);
    } else {
      row := Row(p, c);
      AppliedKeeps(src, rows, kept, row, Row(c, p), p, c, s);
    }
  }

  lemma RowEdgesWith(src: Source, kept: seq<Row>, r: Row)
    ensures RowEdges(src, kept + [r]) == RowEdges(src, kept) + {(src.nm.norm(r.child), src.nm.norm(r.parent))}
  {
    assert forall x :: x in kept + [r] <==> x in kept || x == r;
  }

  lemma NamesOfDecision(src: Source, names: set<string>, c: string, p: string)
    requires (c, p) in DecideEdges(src, names)
    ensures c in names && p in names
  {}

  /** There are rows whose kept rows are all the decisions. */
  lemma {:induction false} AllDecisionsKept(src: Source, names: set<string>, E: set<(string, string)>)
      returns (rows: seq<Row>, kept: seq<Row>)
    requires IsSource(src) && NormalNames(src, names) && E <= DecideEdges(src, names)
    ensures RowsOver(src, names, rows) && Applied(src, rows, kept) && E <= RowEdges(src, kept)
    decreases E
  {
    hide DecideEdges, Applied, RowEdges;
    rows, kept := [], [];
    NothingApplied(src);
    if E != {} {
      var e :| e in E;
      rows, kept := AllDecisionsKept(src, names, E - {e});
      NamesOfDecision(src, names, e.0, e.1);
      var row := DecisionIsKept(src, names, rows, kept, e.0, e.1);
      RowEdgesWith(src, kept, Row(e.0, e.1));
      rows, kept := rows + [row], kept + [Row(e.0, e.1)];
    }
  }

  /** Whatever the signals: over any names, the kept rows of every input are free of cycles if and only if the graph
      of all decisions on the names is. */
  lemma KeptAcyclicIffDecisionsAre(src: Source, names: set<string>)
    requires IsSource(src) && NormalNames(src, names)
    ensures (forall rows, kept | RowsOver(src, names, rows) && Applied(src, rows, kept) :: Acyclic(RowEdges(src, kept)))
            <==> Acyclic(DecideEdges(src, names))
  {
    hide DecideEdges, RowEdges, Applied, Acyclic;
    if Acyclic(DecideEdges(src, names)) {
      forall rows, kept | RowsOver(src, names, rows) && Applied(src, rows, kept) ensures Acyclic(RowEdges(src, kept)) {
        KeptAreDecided(src, names, rows, kept);
        FewerEdgesAcyclic(RowEdges(src, kept), DecideEdges(src, names));
      }
    } else {
      var rows, kept := AllDecisionsKept(src, names, DecideEdges(src, names));
      if Acyclic(RowEdges(src, kept)) {
        FewerEdgesAcyclic(DecideEdges(src, names), RowEdges(src, kept));
      }
    }
  }
}
