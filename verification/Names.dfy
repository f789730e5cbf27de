/** How the taxonomy compares names and splits them into words (pkg/taxonomy/obo.go, pkg/taxonomy/direction.go), for
    ASCII texts. */
module Names {
  import opened Options
  import opened Texts
  import opened Orientation

  function LowerChar(c: char): char {
    if 'A' <= c <= 'Z' then ((c as int) + 32) as char else c
  }

  function Lower(s: string): string {
    if s == "" then "" else Lower(s[..|s| - 1]) + [LowerChar(s[|s| - 1])]
  }

  predicate Splits(c: char) {
    !('a' <= c <= 'z' || '0' <= c <= '9')
  }

  // ------------------------------------------------------------------ cutting a text into words

  /** The words that are complete, and the one that is being read. */
  datatype Cut = Cut(words: seq<string>, open: string)

  function Closed(k: Cut): Cut {
    if k.open == "" then k else Cut(k.words + [k.open], "")
  }

  function Take(sep: char -> bool, k: Cut, c: char): Cut {
    if sep(c) then Closed(k) else Cut(k.words, k.open + [c])
  }

  function Scan(sep: char -> bool, s: string): Cut {
    if s == "" then Cut([], "") else Take(sep, Scan(sep, s[..|s| - 1]), s[|s| - 1])
  }

  function Words(sep: char -> bool, s: string): seq<string> {
    Closed(Scan(sep, s)).words
  }

  /** The words of more than one character in a name, in lower case. */
  function Tokens(s: string): set<string> {
    set w | w in Words(Splits, Lower(s)) && |w| > 1
  }

  function Join(words: seq<string>): string {
    if words == [] then ""
    else if |words| == 1 then words[0]
    else Join(words[..|words| - 1]) + " " + words[|words| - 1]
  }

  function NormalizeName(s: string): string {
    Join(Words(IsSpace, Lower(Trim(s))))
  }

  /** Collect the words, dropping those of one character. */
  method NameTokens(s: string) returns (out: set<string>)
    ensures out == Tokens(s)
  {
    var lower := Lower(s);
    out := {};
    var cur := "";
    ghost var words: seq<string> := [];
    for i := 0 to |lower|
      invariant Scan(Splits, lower[..i]) == Cut(words, cur)
      invariant out == set w | w in words && |w| > 1
    {
      assert lower[..i + 1][..i] == lower[..i];
      var c := lower[i];
      if !Splits(c) {
        cur := cur + [c];
        continue;
      }
      if cur != "" {
        words := words + [cur];
      }
      out := if |cur| > 1 then out + {cur} else out;
      cur := "";
    }
    assert lower[..|lower|] == lower;
    ghost var all := Words(Splits, lower);
    assert all == if cur == "" then words else words + [cur];
    out := if |cur| > 1 then out + {cur} else out;
  }

  // ------------------------------------------------------------------ what cutting and joining keep

  lemma ScanMore(sep: char -> bool, s: string, c: char)
    ensures Scan(sep, s + [c]) == Take(sep, Scan(sep, s), c)
  {
    assert (s + [c])[..|s|] == s;
  }

  lemma JoinMore(words: seq<string>, w: string)
    ensures Join(words + [w]) == if words == [] then w else Join(words) + " " + w
  {
    assert (words + [w])[..|words|] == words;
  }

  /** A separator in front changes nothing. */
  lemma {:induction false} ScanAfterSpace(sep: char -> bool, c: char, s: string)
    requires sep(c)
    ensures Scan(sep, [c] + s) == Scan(sep, s)
    decreases |s|
  {
    if s == "" {
      assert [c] + s == [c] && [c][..0] == "";
    } else {
      ScanAfterSpace(sep, c, s[..|s| - 1]);
      assert ([c] + s)[..|s|] == [c] + s[..|s| - 1];
    }
  }

  /** One more letter, in the open word or in a new one. */
  lemma JoinLetter(k: Cut, c: char)
    ensures Join(Closed(Cut(k.words, k.open + [c])).words)
            == if k.open == "" && k.words != [] then (Join(Closed(k).words) + " ") + [c] else Join(Closed(k).words) + [c]
  {
    JoinMore(k.words, k.open);
    JoinMore(k.words, k.open + [c]);
  }

  lemma ScanLast(sep: char -> bool, s: string)
    requires s != ""
    ensures Scan(sep, s) == Take(sep, Scan(sep, s[..|s| - 1]), s[|s| - 1])
  {}

  /** Words joined by spaces are cut at the spaces, and otherwise where they were cut before. */
  lemma {:induction false} WordsOfJoined(sep: char -> bool, s: string)
    requires forall c :: IsSpace(c) ==> sep(c)
    ensures var k, joined := Scan(IsSpace, s), Join(Words(IsSpace, s));
            && Closed(Scan(sep, joined)) == Closed(Scan(sep, s))
            && (k.open != "" ==> Scan(sep, joined) == Scan(sep, s))
            && (k.open == "" ==> Scan(sep, s).open == "")
    decreases |s|
  {
    hide Scan, Join;
    if s == "" {
      NothingScanned(sep);
      NothingScanned(IsSpace);
    } else {
      var init, c := s[..|s| - 1], s[|s| - 1];
      var k, joined := Scan(IsSpace, init), Join(Words(IsSpace, init));
      WordsOfJoined(sep, init);
      ScanLast(IsSpace, s);
      ScanLast(sep, s);
      if !IsSpace(c) {
        JoinLetter(k, c);
        if k.open == "" && k.words != [] {
          ScanMore(sep, joined, ' ');
          ScanMore(sep, joined + " ", c);
        } else {
          ScanMore(sep, joined, c);
          NothingScanned(sep);
        }
      }
    }
  }

  lemma NothingScanned(sep: char -> bool)
    ensures Scan(sep, "") == Cut([], "") && Join([]) == ""
  {}

  /** Surrounding space is of no account. */
  lemma {:induction false} WordsOfTrimmedLeft(sep: char -> bool, s: string)
    requires forall c :: IsSpace(c) ==> sep(c)
    ensures Words(sep, Lower(TrimLeft(s))) == Words(sep, Lower(s))
    decreases |s|
  {
    if s != "" && IsSpace(s[0]) {
      WordsOfTrimmedLeft(sep, s[1..]);
      LowerTail(s);
      ScanAfterSpace(sep, s[0], Lower(s[1..]));
    }
  }

  lemma {:induction false} LowerTail(s: string)
    requires s != ""
    ensures Lower(s) == [LowerChar(s[0])] + Lower(s[1..])
    decreases |s|
  {
    if |s| > 1 {
      LowerTail(s[..|s| - 1]);
      assert s[..|s| - 1][1..] == s[1..][..|s| - 2];
    }
  }

  lemma {:induction false} WordsOfTrimmedRight(sep: char -> bool, s: string)
    requires forall c :: IsSpace(c) ==> sep(c)
    ensures Words(sep, Lower(TrimRight(s))) == Words(sep, Lower(s))
    decreases |s|
  {
    if s != "" && IsSpace(s[|s| - 1]) {
      WordsOfTrimmedRight(sep, s[..|s| - 1]);
      ScanMore(sep, Lower(s[..|s| - 1]), s[|s| - 1]);
    }
  }

  lemma WordsOfTrimmed(sep: char -> bool, s: string)
    requires forall c :: IsSpace(c) ==> sep(c)
    ensures Words(sep, Lower(Trim(s))) == Words(sep, Lower(s))
  {
    WordsOfTrimmedLeft(sep, s);
    WordsOfTrimmedRight(sep, TrimLeft(s));
  }

  // ------------------------------------------------------------------ the conditions on names

  predicate IsLowered(s: string) {
    forall i | 0 <= i < |s| :: LowerChar(s[i]) == s[i]
  }

  lemma {:induction false} LowerLowers(s: string)
    ensures |Lower(s)| == |s| && IsLowered(Lower(s)) && (IsLowered(s) ==> Lower(s) == s)
    ensures s != "" ==> IsSpace(Lower(s)[|s| - 1]) == IsSpace(s[|s| - 1])
    decreases |s|
  {
    if s != "" {
      LowerLowers(s[..|s| - 1]);
      assert s == s[..|s| - 1] + [s[|s| - 1]];
    }
  }

  predicate IsWord(w: string) {
    w != "" && IsLowered(w) && forall i | 0 <= i < |w| :: !IsSpace(w[i])
  }

  lemma {:induction false} WordsAreWords(s: string)
    requires IsLowered(s)
    ensures forall w | w in Scan(IsSpace, s).words :: IsWord(w)
    ensures Scan(IsSpace, s).open == "" || IsWord(Scan(IsSpace, s).open)
    decreases |s|
  {
    if s != "" {
      WordsAreWords(s[..|s| - 1]);
    }
  }

  lemma {:induction false} JoinedWords(words: seq<string>)
    requires forall w | w in words :: IsWord(w)
    ensures IsLowered(Join(words)) && Trimmed(Join(words)) && (Join(words) == "" <==> words == [])
    ensures words != [] ==> !IsSpace(Join(words)[0])
    decreases |words|
  {
    if words != [] {
      var init, last := words[..|words| - 1], words[|words| - 1];
      assert last in words;
      JoinedWords(init);
    }
  }

  lemma NormalizedShape(s: string)
    ensures IsLowered(NormalizeName(s)) && Trimmed(NormalizeName(s)) && (NormalizeName(s) == "" <==> Trim(s) == "")
    ensures Words(IsSpace, NormalizeName(s)) == Words(IsSpace, Lower(Trim(s)))
    ensures Words(Splits, NormalizeName(s)) == Words(Splits, Lower(Trim(s)))
  {
    hide Trimmed, Trim;
    var u := Lower(Trim(s));
    LowerLowers(Trim(s));
    WordsAreWords(u);
    JoinedWords(Words(IsSpace, u));
    WordsOfJoined(IsSpace, u);
    WordsOfJoined(Splits, u);
    EndsInWord(s);
  }

  lemma EndsInWord(s: string)
    ensures Trim(s) != "" <==> Words(IsSpace, Lower(Trim(s))) != []
  {
    TrimTrims(s);
    LowerLowers(Trim(s));
  }

  lemma NormalizedStays(s: string)
    ensures NormalizeName(NormalizeName(s)) == NormalizeName(s) && Trim(NormalizeName(s)) == NormalizeName(s)
    ensures Tokens(NormalizeName(s)) == Tokens(s)
  {
    hide Trim, Words, Join;
    NormalizedShape(s);
    TrimmedStays(NormalizeName(s));
    LowerLowers(NormalizeName(s));
    WordsOfTrimmed(Splits, s);
  }

  /** Names are normalized alike exactly if they have the same words between white space, case aside. */
  lemma SameNameIff(s: string, t: string)
    ensures NormalizeName(s) == NormalizeName(t) <==> Words(IsSpace, Lower(s)) == Words(IsSpace, Lower(t))
  {
    hide Trim, Words, Join, Lower;
    NormalizedShape(s);
    NormalizedShape(t);
    WordsOfTrimmed(IsSpace, s);
    WordsOfTrimmed(IsSpace, t);
    NormalizedFrom(s);
    NormalizedFrom(t);
  }

  lemma NormalizedFrom(s: string)
    ensures NormalizeName(s) == Join(Words(IsSpace, Lower(Trim(s))))
  {}

  function TaxonomyNames(): Naming {
    Naming(Trim, NormalizeName, Tokens)
  }

  lemma OneName(s: string)
    ensures Trim(Trim(s)) == Trim(s) && NormalizeName(NormalizeName(s)) == NormalizeName(s) && Trim(NormalizeName(s)) == NormalizeName(s)
    ensures NormalizeName(Trim(s)) == NormalizeName(s) && (NormalizeName(s) == "" <==> Trim(s) == "")
    ensures Tokens(Trim(s)) == Tokens(s) && Tokens(NormalizeName(s)) == Tokens(s)
  {
    hide Trim, Words, Join, Lower;
    TrimTrims(s);
    NormalizedStays(s);
    NormalizedShape(s);
    WordsOfTrimmed(Splits, s);
  }

  /** Trimming, normalizing and splitting, as the code does them, are a naming. */
  lemma NamesAreANaming()
    ensures IsNaming(TaxonomyNames())
  {
    hide Trim, NormalizeName, Tokens;
    forall s ensures Trim(Trim(s)) == Trim(s) && NormalizeName(NormalizeName(s)) == NormalizeName(s) && Trim(NormalizeName(s)) == NormalizeName(s)
      && NormalizeName(Trim(s)) == NormalizeName(s) && (NormalizeName(s) == "" <==> Trim(s) == "")
      && Tokens(Trim(s)) == Tokens(s) && Tokens(NormalizeName(s)) == Tokens(s)
    {
      OneName(s);
    }
  }

  // ------------------------------------------------------------------ which words a text has

  /** A stretch of the text without separators, between separators or the ends of the text. */
  ghost predicate Stretch(sep: char -> bool, s: string, i: nat, j: nat) {
    && i < j <= |s| && (forall k | i <= k < j :: !sep(s[k]))
    && (i == 0 || sep(s[i - 1])) && (j == |s| || sep(s[j]))
  }

  ghost predicate WordBefore(sep: char -> bool, s: string, end: nat, w: string) {
    exists i: nat, j: nat :: i < j < end && j <= |s| && Stretch(sep, s, i, j) && w == s[i..j]
  }

  ghost predicate HasWord(sep: char -> bool, s: string, w: string) {
    exists i: nat, j: nat :: i < j <= |s| && Stretch(sep, s, i, j) && w == s[i..j]
  }

  /** What is open reaches back from the end of the text to a separator. */
  ghost predicate OpenAtEnd(sep: char -> bool, s: string, open: string) {
    && |open| <= |s| && open == s[|s| - |open|..] && (forall c | c in open :: !sep(c))
    && (|open| < |s| ==> sep(s[|s| - |open| - 1]))
  }

  lemma {:induction false} OpenIs(sep: char -> bool, s: string)
    ensures OpenAtEnd(sep, s, Scan(sep, s).open)
    decreases |s|
  {
    hide OpenAtEnd;
    if s == "" {
      NothingOpen(sep);
    } else {
      var init, c := s[..|s| - 1], s[|s| - 1];
      OpenIs(sep, init);
      OpenMore(sep, init, Scan(sep, init).open, c);
      assert s == init + [c];
    }
  }

  lemma NothingOpen(sep: char -> bool)
    ensures OpenAtEnd(sep, "", "")
  {}

  lemma OpenMore(sep: char -> bool, s: string, open: string, c: char)
    requires OpenAtEnd(sep, s, open)
    ensures OpenAtEnd(sep, s + [c], if sep(c) then "" else open + [c])
  {
    var n := |s| - |open|;
    assert (s + [c])[n..] == open + [c];
    assert |open| < |s| ==> (s + [c])[n - 1] == s[n - 1];
  }

  lemma LastStretch(sep: char -> bool, s: string, open: string, i: nat)
    requires OpenAtEnd(sep, s, open)
    ensures Stretch(sep, s, i, |s|) <==> open != "" && i == |s| - |open|
  {
    if open != "" {
      forall k | |s| - |open| <= k < |s| ensures !sep(s[k]) {
        assert s[k] == open[k - (|s| - |open|)];
      }
    }
  }

  lemma StretchBefore(sep: char -> bool, s: string, i: nat, j: nat)
    requires s != "" && j < |s|
    ensures Stretch(sep, s, i, j) <==> Stretch(sep, s[..|s| - 1], i, j) && (j == |s| - 1 ==> sep(s[j]))
  {}

  lemma WordsBefore(sep: char -> bool, s: string, w: string)
    requires s != ""
    ensures var init := s[..|s| - 1];
            WordBefore(sep, s, |s|, w) <==> WordBefore(sep, init, |init|, w) || (sep(s[|s| - 1]) && w != "" && w == Scan(sep, init).open)
  {
    hide Scan, Stretch, OpenAtEnd;
    var init, open := s[..|s| - 1], Scan(sep, s[..|s| - 1]).open;
    OpenIs(sep, init);
    if i: nat, j: nat :| i < j < |s| && Stretch(sep, s, i, j) && w == s[i..j] {
      StretchBefore(sep, s, i, j);
      StretchIs(sep, init, i, j);
      assert w == init[i..j];
      if j == |init| {
        LastStretch(sep, init, open, i);
        OpenIsTail(sep, init, open);
      }
    }
    if i: nat, j: nat :| i < j < |init| && Stretch(sep, init, i, j) && w == init[i..j] {
      StretchIs(sep, init, i, j);
      StretchBefore(sep, s, i, j);
      assert w == s[i..j];
    }
    if sep(s[|s| - 1]) && w != "" && w == open {
      OpenIsTail(sep, init, open);
      var i := |init| - |open|;
      LastStretch(sep, init, open, i);
      StretchBefore(sep, s, i, |init|);
      assert w == s[i..|init|];
    }
  }

  lemma StretchIs(sep: char -> bool, s: string, i: nat, j: nat)
    requires Stretch(sep, s, i, j)
    ensures i < j <= |s|
  {}

  lemma OpenIsTail(sep: char -> bool, s: string, open: string)
    requires OpenAtEnd(sep, s, open)
    ensures |open| <= |s| && open == s[|s| - |open|..]
  {}

  lemma {:induction false} ScannedWords(sep: char -> bool, s: string)
    ensures forall w :: w in Scan(sep, s).words <==> WordBefore(sep, s, |s|, w)
    decreases |s|
  {
    hide WordBefore;
    if s != "" {
      ScannedWords(sep, s[..|s| - 1]);
      forall w ensures w in Scan(sep, s).words <==> WordBefore(sep, s, |s|, w) {
        WordsBefore(sep, s, w);
      }
    } else {
      NoWordBefore(sep);
    }
  }

  lemma NoWordBefore(sep: char -> bool)
    ensures forall w :: !WordBefore(sep, "", 0, w)
  {}

  /** A text is cut into exactly its stretches without separators. */
  lemma WordsAre(sep: char -> bool, s: string, w: string)
    ensures w in Words(sep, s) <==> HasWord(sep, s, w)
  {
    hide Scan, Stretch, OpenAtEnd;
    var k := Scan(sep, s);
    ScannedWords(sep, s);
    OpenIs(sep, s);
    OpenIsTail(sep, s, k.open);
    if w != "" && w == k.open {
      LastStretch(sep, s, k.open, |s| - |k.open|);
      assert w == s[|s| - |k.open|..|s|];
    }
    if i: nat, j: nat :| i < j == |s| && Stretch(sep, s, i, j) && w == s[i..j] {
      StretchIs(sep, s, i, j);
      LastStretch(sep, s, k.open, i);
    }
  }

  ghost predicate LetterOrDigit(c: char) {
    'a' <= c <= 'z' || 'A' <= c <= 'Z' || '0' <= c <= '9'
  }

  /** The same letter in lower case, or the same character if it is none in upper case. */
  ghost predicate LowerCaseOf(c: char, d: char) {
    if 'A' <= c <= 'Z' then 'a' <= d <= 'z' && d as int - 'a' as int == c as int - 'A' as int else d == c
  }

  ghost predicate InLowerCase(s: string, t: string) {
    |s| == |t| && forall i | 0 <= i < |s| :: LowerCaseOf(s[i], t[i])
  }

  lemma {:induction false} LowerIs(s: string)
    ensures InLowerCase(s, Lower(s))
    decreases |s|
  {
    if s != "" {
      LowerIs(s[..|s| - 1]);
    }
  }

  /** The tokens of a name are its longest stretches of letters and digits in lower case, if they have more than one character. */
  lemma TokensAre(s: string, w: string)
    ensures w in Tokens(s) <==>
              |w| > 1 && exists i: nat, j: nat :: Stretch((c: char) => !LetterOrDigit(c), s, i, j) && InLowerCase(s[i..j], w)
  {
    hide Words, Lower;
    LowerIs(s);
    WordsAre(Splits, Lower(s), w);
    forall i: nat, j: nat | i < j <= |s|
      ensures Stretch((c: char) => !LetterOrDigit(c), s, i, j) <==> Stretch(Splits, Lower(s), i, j)
      ensures InLowerCase(s[i..j], w) <==> w == Lower(s)[i..j]
    {
      SameStretch(s, i, j);
      OnlyLower(s[i..j], Lower(s)[i..j], w);
    }
  }

  lemma SameStretch(s: string, i: nat, j: nat)
    requires i < j <= |s| && InLowerCase(s, Lower(s))
    ensures Stretch((c: char) => !LetterOrDigit(c), s, i, j) <==> Stretch(Splits, Lower(s), i, j)
    ensures InLowerCase(s[i..j], Lower(s)[i..j])
  {
    hide Lower;
    var t := Lower(s);
    assert forall k | 0 <= k < |s| :: LowerCaseOf(s[k], t[k]) && (Splits(t[k]) <==> !LetterOrDigit(s[k]));
  }

  lemma OnlyLower(s: string, t: string, w: string)
    requires InLowerCase(s, t)
    ensures InLowerCase(s, w) <==> w == t
  {
    if InLowerCase(s, w) {
      assert forall i | 0 <= i < |s| :: LowerCaseOf(s[i], t[i]) && LowerCaseOf(s[i], w[i]);
    }
  }
}
