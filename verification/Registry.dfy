/** The predicate registry (pkg/reasoning/predicates.go). */
module Registry {
  import opened Claims
  import opened Graphs
  import opened Options

  datatype Meta = Meta(raw: Pred, canonical: Pred, inverseOf: Pred, supers: seq<Pred>, transitive: bool, reflexive: bool,
                       domain: set<string>, range: set<string>)

  datatype Composition = Composition(first: Pred, second: Pred, result: Pred)

  datatype Registry = Registry(byRaw: map<Pred, Meta>, byCanon: map<Pred, Meta>, comps: seq<Composition>)

  /** A missing canonical name is the raw one, and the other way round. */
  ghost function Completed(m: Meta): Meta {
    if m.canonical == "" then m.(canonical := m.raw)
    else if m.raw == "" then m.(raw := m.canonical)
    else m
  }

  ghost predicate Names(m: Meta, k: Pred) {
    Completed(m).raw == k || Completed(m).canonical == k
  }

  /** What the declarations say about a name: the last one that uses it, raw or canonically, decides. */
  ghost function RawEntry(metas: seq<Meta>, k: Pred): Option<Meta> {
    if metas == [] then None
    else if Names(metas[|metas| - 1], k) then Some(Completed(metas[|metas| - 1]))
    else RawEntry(metas[..|metas| - 1], k)
  }

  ghost function CanonEntry(metas: seq<Meta>, k: Pred): Option<Meta> {
    if metas == [] then None
    else if Completed(metas[|metas| - 1]).canonical == k then Some(Completed(metas[|metas| - 1]))
    else CanonEntry(metas[..|metas| - 1], k)
  }

  ghost function Lookup(index: map<Pred, Meta>, k: Pred): Option<Meta> {
    if k in index then Some(index[k]) else None
  }

  method NewRegistry(metas: seq<Meta>, comps: seq<Composition>) returns (reg: Registry)
    ensures forall k :: Lookup(reg.byRaw, k) == RawEntry(metas, k)
    ensures forall k :: Lookup(reg.byCanon, k) == CanonEntry(metas, k)
    ensures reg.comps == comps
  {
    var byRaw: map<Pred, Meta>, byCanon: map<Pred, Meta> := map[], map[];
    for i := 0 to |metas|
      invariant forall k :: Lookup(byRaw, k) == RawEntry(metas[..i], k)
      invariant forall k :: Lookup(byCanon, k) == CanonEntry(metas[..i], k)
    {
      var m := metas[i];
      assert metas[..i + 1][..i] == metas[..i];
      if m.canonical == "" {
        m := m.(canonical := m.raw);
      }
      if m.raw == "" {
        m := m.(raw := m.canonical);
      }
      byRaw := byRaw[m.raw := m];
      byRaw := byRaw[m.canonical := m];
      byCanon := byCanon[m.canonical := m];
    }
    assert metas[..|metas|] == metas;
    reg := Registry(byRaw, byCanon, comps);
  }

  function Canon(reg: Registry, k: Pred): Pred {
    if k in reg.byRaw then reg.byRaw[k].canonical else k
  }

  /** The declaration uses the name, and not just by leaving one of its two names out. */
  ghost predicate Spells(m: Meta, k: Pred) {
    (k == m.raw || k == m.canonical) && (k != "" || m.raw == m.canonical)
  }

  /** A name that no declaration uses is its own canonical name; otherwise the last that does gives the canonical name,
      which is its raw one if it leaves the canonical out. */
  lemma {:induction false} LastDeclarationDecides(metas: seq<Meta>, reg: Registry, k: Pred, i: nat)
    requires Lookup(reg.byRaw, k) == RawEntry(metas, k) && i < |metas|
    ensures (forall j | 0 <= j < |metas| :: !Spells(metas[j], k)) ==> Canon(reg, k) == k
    ensures Spells(metas[i], k) && (forall j | i < j < |metas| :: !Spells(metas[j], k)) ==>
              Canon(reg, k) == if metas[i].canonical != "" then metas[i].canonical else metas[i].raw
  {
    assert forall m: Meta :: Names(m, k) <==> Spells(m, k);
    EntryIsDeclared(metas, k);
    if Spells(metas[i], k) && (forall j | i < j < |metas| :: !Spells(metas[j], k)) {
      LastEntry(metas, k, i);
    }
  }

  lemma {:induction false} LastEntry(metas: seq<Meta>, k: Pred, i: nat)
    requires i < |metas| && Names(metas[i], k) && forall j | i < j < |metas| :: !Names(metas[j], k)
    ensures RawEntry(metas, k) == Some(Completed(metas[i]))
    decreases |metas|
  {
    if i < |metas| - 1 {
      LastEntry(metas[..|metas| - 1], k, i);
    }
  }

  /** Canonical names are their own canonical names. */
  ghost predicate Settled(reg: Registry) {
    (forall k :: Canon(reg, Canon(reg, k)) == Canon(reg, k)) && (forall k | k in reg.byCanon :: Canon(reg, k) == k)
  }

  /** No alias is spelled like the canonical name of another predicate. */
  ghost predicate NoShadow(metas: seq<Meta>) {
    forall i, j | 0 <= i < |metas| && 0 <= j < |metas| && Completed(metas[j]).raw == Completed(metas[i]).canonical ::
      Completed(metas[j]).canonical == Completed(metas[i]).canonical
  }

  lemma {:induction false} EntryIsDeclared(metas: seq<Meta>, k: Pred)
    ensures RawEntry(metas, k).Some? <==> exists i :: 0 <= i < |metas| && Names(metas[i], k)
    ensures RawEntry(metas, k).Some? ==>
              exists i :: 0 <= i < |metas| && Names(metas[i], k) && RawEntry(metas, k).value == Completed(metas[i])
    decreases |metas|
  {
    if metas != [] {
      var init := metas[..|metas| - 1];
      EntryIsDeclared(init, k);
      assert forall i | 0 <= i < |init| :: init[i] == metas[i];
      if Names(metas[|metas| - 1], k) {
        assert Completed(metas[|metas| - 1]) == RawEntry(metas, k).value;
      } else if i :| 0 <= i < |metas| && Names(metas[i], k) {
        assert Names(init[i], k);
      }
    }
  }

  lemma {:induction false} CanonIsDeclared(metas: seq<Meta>, k: Pred)
    ensures CanonEntry(metas, k).Some? ==> exists i :: 0 <= i < |metas| && Completed(metas[i]).canonical == k
    decreases |metas|
  {
    if metas != [] {
      var init := metas[..|metas| - 1];
      CanonIsDeclared(init, k);
      if CanonEntry(init, k).Some? {
        var i :| 0 <= i < |init| && Completed(init[i]).canonical == k;
        assert Completed(metas[i]).canonical == k;
      }
    }
  }

  /** Without shadowing, canonicalizing twice is canonicalizing once. */
  lemma UnshadowedIsSettled(metas: seq<Meta>, reg: Registry)
    requires forall k :: Lookup(reg.byRaw, k) == RawEntry(metas, k) && Lookup(reg.byCanon, k) == CanonEntry(metas, k)
    requires NoShadow(metas)
    ensures Settled(reg)
  {
    forall k | k in reg.byCanon ensures Canon(reg, k) == k {
      assert Lookup(reg.byCanon, k) == CanonEntry(metas, k) && Lookup(reg.byRaw, k) == RawEntry(metas, k);
      CanonIsDeclared(metas, k);
      var i :| 0 <= i < |metas| && Completed(metas[i]).canonical == k;
      EntryIsDeclared(metas, k);
      assert Names(metas[i], k);
      var j :| 0 <= j < |metas| && Names(metas[j], k) && reg.byRaw[k] == Completed(metas[j]);
    }
    forall k ensures Canon(reg, Canon(reg, k)) == Canon(reg, k) {
      assert Lookup(reg.byRaw, k) == RawEntry(metas, k);
      if k in reg.byRaw {
        var c := reg.byRaw[k].canonical;
        EntryIsDeclared(metas, k);
        var i :| 0 <= i < |metas| && reg.byRaw[k] == Completed(metas[i]);
        assert Names(metas[i], c);
        EntryIsDeclared(metas, c);
        assert Lookup(reg.byRaw, c) == RawEntry(metas, c);
        var j :| 0 <= j < |metas| && Names(metas[j], c) && reg.byRaw[c] == Completed(metas[j]);
      }
    }
  }
}
