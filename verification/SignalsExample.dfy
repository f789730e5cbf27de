/** The two signals of the taxonomy together can orient stored rows into a cycle (pkg/taxonomy/direction.go). */
module SignalsExample {
  import opened Graphs
  import opened Options
  import opened Texts
  import opened Orientation
  import opened Names

  /** A lower-case word of more than one letter. */
  predicate PlainWord(w: string) {
    |w| > 1 && forall i | 0 <= i < |w| :: 'a' <= w[i] <= 'z'
  }

  /** Such as pain, chest and acute. */
  predicate DifferentWords(p: string, q: string, r: string) {
    PlainWord(p) && PlainWord(q) && PlainWord(r) && p != q && p != r && q != r
  }

  function Two(p: string, q: string): string {
    q + " " + p
  }

  function Three(p: string, q: string, r: string): string {
    (r + " " + q) + " " + p
  }

  /** An ontology that puts acute chest pain above pain, and does not know chest pain. */
  function Mixed(p: string, q: string, r: string): Source {
    Source(TaxonomyNames(), Some(Terms(map[p := "T1", Three(p, q, r) := "T2"], map["T1" := ["T2"]])), true)
  }

  /** The first name is below the third in the ontology, and the words decide the other two pairs. */
  ghost predicate Opposed(src: Source, x: string, y: string, z: string) {
    && (forall s | s == x || s == y || s == z :: src.nm.norm(s) == s && src.nm.trim(s) == s && s != "")
    && x != y && y != z && x != z
    && Decides(src, y, x, x, y, FromLexical) && Decides(src, z, y, y, z, FromLexical) && Decides(src, x, z, z, x, FromOntology)
  }

  lemma OpposedCycle(src: Source, x: string, y: string, z: string)
    requires Opposed(src, x, y, z)
    ensures var rows := [Row(y, x), Row(z, y), Row(x, z)]; Applied(src, rows, rows) && !Acyclic(RowEdges(src, rows))
  {
    var r1, r2, r3 := Row(y, x), Row(z, y), Row(x, z);
    hide Decides;
    assert Oriented(src, r1, r1) && Oriented(src, r2, r2) && Oriented(src, r3, r3);
    assert [r1, r2, r3][..2] == [r1, r2] && [r1, r2][..1] == [r1] && [r1][..0] == [];
    assert Applied(src, [r1], [r1]);
    assert Applied(src, [r1, r2], [r1, r2]);
    var R := RowEdges(src, [r1, r2, r3]);
    assert r1 in [r1, r2, r3] && r2 in [r1, r2, r3] && r3 in [r1, r2, r3];
    ReachEdge(R, x, z);
    ReachThenEdge(R, x, z, y);
    assert ReachPlus(R, y, y);
  }

  // ------------------------------------------------------------------ names of several words

  lemma {:induction false} ScanWord(sep: char -> bool, s: string, w: string)
    requires Scan(sep, s).open == "" && forall i | 0 <= i < |w| :: !sep(w[i])
    ensures Scan(sep, s + w) == Cut(Scan(sep, s).words, w)
    decreases |w|
  {
    hide Scan;
    if w == "" {
      assert s + w == s;
    } else {
      ScanWord(sep, s, w[..|w| - 1]);
      assert s + w == (s + w[..|w| - 1]) + [w[|w| - 1]];
      ScanMore(sep, s + w[..|w| - 1], w[|w| - 1]);
    }
  }

  /** A word more, after a space. */
  lemma OneMoreWord(sep: char -> bool, s: string, w: string)
    requires sep(' ') && PlainWord(w) && forall i | 0 <= i < |w| :: !sep(w[i])
    ensures Words(sep, s + " " + w) == Words(sep, s) + [w]
  {
    ScanMore(sep, s, ' ');
    ScanWord(sep, s + " ", w);
  }

  lemma OneWord(sep: char -> bool, w: string)
    requires PlainWord(w) && forall i | 0 <= i < |w| :: !sep(w[i])
    ensures Words(sep, w) == [w]
  {
    ScanWord(sep, "", w);
    assert "" + w == w;
  }

  lemma CutNames(sep: char -> bool, p: string, q: string, r: string)
    requires DifferentWords(p, q, r) && sep(' ') && forall c | 'a' <= c <= 'z' :: !sep(c)
    ensures Words(sep, p) == [p] && Words(sep, Two(p, q)) == [q, p] && Words(sep, Three(p, q, r)) == [r, q, p]
  {
    hide Words;
    OneWord(sep, p);
    OneWord(sep, q);
    OneWord(sep, r);
    OneMoreWord(sep, q, p);
    OneMoreWord(sep, r, q);
    OneMoreWord(sep, r + " " + q, p);
  }

  lemma NameIsNormal(s: string)
    requires IsLowered(s) && Trimmed(s) && Join(Words(IsSpace, s)) == s
    ensures Trim(s) == s && NormalizeName(s) == s && Lower(s) == s
  {
    TrimmedStays(s);
    LowerLowers(s);
  }

  lemma NamesAreNormal(p: string, q: string, r: string)
    requires DifferentWords(p, q, r)
    ensures forall s | s in {p, Two(p, q), Three(p, q, r)} :: Trim(s) == s && NormalizeName(s) == s && Lower(s) == s && s != ""
  {
    hide Words, Join, Trim, NormalizeName, Lower;
    CutNames(IsSpace, p, q, r);
    JoinedByHand(p, q, r);
    NameIsNormal(p);
    NameIsNormal(Two(p, q));
    NameIsNormal(Three(p, q, r));
  }

  lemma JoinedByHand(p: string, q: string, r: string)
    ensures Join([p]) == p && Join([q, p]) == Two(p, q) && Join([r, q, p]) == Three(p, q, r)
  {
    assert [r, q, p] == [r, q] + [p] && [r, q] == [r] + [q] && [q, p] == [q] + [p];
    JoinMore([r, q], p);
    JoinMore([r], q);
    JoinMore([q], p);
  }

  lemma TokensAre(p: string, q: string, r: string)
    requires DifferentWords(p, q, r)
    ensures Tokens(p) == {p} && Tokens(Two(p, q)) == {p, q} && Tokens(Three(p, q, r)) == {p, q, r}
    ensures p != Two(p, q) && p != Three(p, q, r) && Two(p, q) != Three(p, q, r)
  {
    hide Words, Lower, NormalizeName, Trim;
    NamesAreNormal(p, q, r);
    CutNames(Splits, p, q, r);
  }

  // ------------------------------------------------------------------ the cycle

  lemma MixedOntology(p: string, q: string, r: string)
    requires DifferentWords(p, q, r)
    ensures IsSource(Mixed(p, q, r)) && Acyclic(ParentEdges(Mixed(p, q, r).terms.value))
    ensures forall a, b | a in {p, Two(p, q), Three(p, q, r)} && b in {p, Two(p, q), Three(p, q, r)} ::
              Up(Mixed(p, q, r), a, b) <==> a == p && b == Three(p, q, r)
  {
    hide IsNaming, NormalizeName, Trim, Tokens, Lower, Two, Three;
    NamesAreANaming();
    NamesAreNormal(p, q, r);
    TokensAre(p, q, r);
    var t := Mixed(p, q, r).terms.value;
    forall u, v ensures (u, v) in ParentEdges(t) <==> u == "T1" && v == "T2" {
      ParentsAreEdges(t, u);
    }
    RankedIsAcyclic(ParentEdges(t), x => if x == "T1" then 0 else 1);
    ReachEdge(ParentEdges(t), "T1", "T2");
    if Reach(ParentEdges(t), "T2", "T1") {
      ClosedReach(ParentEdges(t), {"T2"}, "T2", "T1");
    }
  }

  lemma MixedIsOpposed(p: string, q: string, r: string)
    requires DifferentWords(p, q, r)
    ensures Opposed(Mixed(p, q, r), p, Two(p, q), Three(p, q, r))
  {
    hide Up, NormalizeName, Trim, Tokens, Lower, Two, Three, DifferentWords;
    MixedOntology(p, q, r);
    NamesAreNormal(p, q, r);
    TokensAre(p, q, r);
    Distinguished(p, q, r);
  }

  lemma Distinguished(p: string, q: string, r: string)
    requires DifferentWords(p, q, r)
    ensures {p} < {p, q} && {p, q} < {p, q, r}
  {}

  /** With both signals the kept rows can have a cycle, even if the ontology has none: for pain, chest pain and acute
      chest pain, and any other three words. */
  lemma SignalsTogetherCanCycle(p: string, q: string, r: string)
    requires DifferentWords(p, q, r)
    ensures IsSource(Mixed(p, q, r)) && Acyclic(ParentEdges(Mixed(p, q, r).terms.value))
    ensures var x, y, z := p, Two(p, q), Three(p, q, r);
            var rows := [Row(y, x), Row(z, y), Row(x, z)];
            Applied(Mixed(p, q, r), rows, rows) && !Acyclic(RowEdges(Mixed(p, q, r), rows))
  {
    hide Opposed, Mixed, Two, Three;
    MixedOntology(p, q, r);
    MixedIsOpposed(p, q, r);
    OpposedCycle(Mixed(p, q, r), p, Two(p, q), Three(p, q, r));
  }

  lemma PainsCycle()
    ensures DifferentWords("pain", "chest", "acute")
    ensures Two("pain", "chest") == "chest pain" && Three("pain", "chest", "acute") == "acute chest pain"
  {}
}
