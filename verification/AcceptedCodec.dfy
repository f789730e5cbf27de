/** The list of accepted predicates as it crosses from Go (pkg/reasoning/native.go) to the graph engine's
    extension (extension/reasoning/src/function/entails.cpp), and the extension's guard. A character is a byte. */
module AcceptedCodec {
  import opened Options
  import opened Powers
  import opened Texts

  // ------------------------------------------------------------------ the printer

  function EscapeChar(c: char): string {
    if c == '\\' || c == ',' then ['\\', c] else [c]
  }

  function Escape(p: string): string {
    if p == "" then "" else Escape(p[..|p| - 1]) + EscapeChar(p[|p| - 1])
  }

  function Encoded(preds: seq<string>): string {
    if preds == [] then ""
    else if |preds| == 1 then Escape(preds[0])
    else Encoded(preds[..|preds| - 1]) + "," + Escape(preds[|preds| - 1])
  }

  lemma NothingEncoded()
    ensures Encoded([]) == "" && Escape("") == ""
  {}

  lemma EscapeMore(p: string, j: nat)
    requires j < |p|
    ensures Escape(p[..j + 1]) == Escape(p[..j]) + EscapeChar(p[j])
  {
    assert p[..j + 1][..j] == p[..j];
  }

  lemma EncodeMore(preds: seq<string>, i: nat)
    requires i < |preds|
    ensures Encoded(preds[..i + 1]) == Encoded(preds[..i]) + (if i > 0 then "," else "") + Escape(preds[i])
  {
    assert preds[..i + 1][..i] == preds[..i];
  }

  method Encode(preds: seq<string>) returns (s: string)
    ensures s == Encoded(preds)
  {
    hide Encoded, Escape;
    NothingEncoded();
    s := "";
    for i := 0 to |preds|
      invariant s == Encoded(preds[..i])
    {
      EncodeMore(preds, i);
      if i > 0 {
        s := s + ",";
      }
      ghost var start := s;
      var pred := preds[i];
      for j := 0 to |pred|
        invariant s == start + Escape(pred[..j])
      {
        EscapeMore(pred, j);
        if pred[j] == '\\' || pred[j] == ',' {
          s := s + ['\\'];
        }
        s := s + [pred[j]];
      }
      assert pred[..|pred|] == pred;
    }
    assert preds[..|preds|] == preds;
  }

  // ------------------------------------------------------------------ names in the extension

  function NormalChar(c: char): char {
    if c == ' ' || c == '-' then '_'
    else if 'A' <= c <= 'Z' then ((c as int) + 32) as char
    else c
  }

  function Normalize(s: string): string {
    if s == "" then "" else Normalize(s[..|s| - 1]) + [NormalChar(s[|s| - 1])]
  }

  function Canonical(s: string): string {
    Normalize(Trim(s))
  }

  /** Equal up to the case of a letter, or each a space, a hyphen or an underscore. */
  ghost predicate SameLetter(c: char, d: char) {
    || c == d
    || ('A' <= c <= 'Z' && d as int == c as int + 32)
    || ('A' <= d <= 'Z' && c as int == d as int + 32)
    || (c in {' ', '-', '_'} && d in {' ', '-', '_'})
  }

  ghost predicate SameSpelling(s: string, t: string) {
    |s| == |t| && forall i | 0 <= i < |s| :: SameLetter(s[i], t[i])
  }

  lemma NormalCharIff(c: char, d: char)
    ensures NormalChar(c) == NormalChar(d) <==> SameLetter(c, d)
    ensures SameLetter(c, NormalChar(c)) && !('A' <= NormalChar(c) <= 'Z') && NormalChar(c) !in {' ', '-'}
  {}

  lemma {:induction false} NormalizedAt(s: string)
    ensures |Normalize(s)| == |s| && forall i | 0 <= i < |s| :: Normalize(s)[i] == NormalChar(s[i])
    decreases |s|
  {
    if s != "" {
      NormalizedAt(s[..|s| - 1]);
    }
  }

  /** Names are normalized alike exactly if they are spelled alike. */
  lemma NormalizeIff(s: string, t: string)
    ensures Normalize(s) == Normalize(t) <==> SameSpelling(s, t)
    ensures SameSpelling(s, Normalize(s))
  {
    hide NormalChar, SameLetter, Normalize;
    NormalizedAt(s);
    NormalizedAt(t);
    forall i | 0 <= i < |s| ensures SameLetter(s[i], Normalize(s)[i]) {
      NormalCharIff(s[i], s[i]);
    }
    if |s| == |t| {
      forall i | 0 <= i < |s| ensures Normalize(s)[i] == Normalize(t)[i] <==> SameLetter(s[i], t[i]) {
        NormalCharIff(s[i], t[i]);
      }
    }
    if Normalize(s) == Normalize(t) {
      assert forall i | 0 <= i < |s| :: Normalize(s)[i] == Normalize(t)[i];
    }
  }

  method NormalizePredicate(raw: string) returns (s: string)
    ensures s == Normalize(raw)
  {
    s := "";
    for i := 0 to |raw|
      invariant s == Normalize(raw[..i])
    {
      assert raw[..i + 1][..i] == raw[..i];
      s := s + [NormalChar(raw[i])];
    }
    assert raw[..|raw|] == raw;
  }

  method TrimASCII(s: string) returns (r: string)
    ensures r == Trim(s)
  {
    hide TrimLeft, TrimRight;
    var start := 0;
    assert s[0..] == s;
    while start < |s| && IsSpace(s[start])
      invariant 0 <= start <= |s| && TrimLeft(s) == TrimLeft(s[start..])
    {
      TrimLeftFrom(s, start);
      start := start + 1;
    }
    TrimLeftFrom(s, start);
    var end := |s|;
    assert s[start..end] == s[start..];
    while end > start && IsSpace(s[end - 1])
      invariant start <= end <= |s| && TrimRight(s[start..]) == TrimRight(s[start..end])
    {
      TrimRightFrom(s, start, end);
      end := end - 1;
    }
    TrimRightFrom(s, start, end);
    r := s[start..end];
  }

  /** Normalized names stay as they are. */
  lemma {:induction false} NormalizeTwice(s: string)
    ensures Normalize(Normalize(s)) == Normalize(s) && |Normalize(s)| == |s|
    decreases |s|
  {
    if s != "" {
      NormalizeTwice(s[..|s| - 1]);
      var n := Normalize(s);
      assert n[..|n| - 1] == Normalize(s[..|s| - 1]);
    }
  }

  // ------------------------------------------------------------------ the parser

  /** The parser in the middle of the text: the tokens it has finished, the one it is reading, and whether the
      last character was an escape. */
  datatype Scan = Scan(done: seq<string>, token: string, escaped: bool)

  function Next(st: Scan, c: char): Scan {
    if st.escaped then
      Scan(st.done, st.token + (if c != ',' && c != '\\' then ['\\', c] else [c]), false)
    else if c == '\\' then st.(escaped := true)
    else if c == ',' then Scan(st.done + [st.token], "", false)
    else st.(token := st.token + [c])
  }

  function Scanned(s: string): Scan {
    if s == "" then Scan([], "", false) else Next(Scanned(s[..|s| - 1]), s[|s| - 1])
  }

  /** The text cut at its unescaped commas, without the escapes; a trailing escape stands for itself. */
  function Tokens(s: string): (r: seq<string>)
    ensures r != []
  {
    var st := Scanned(s);
    st.done + [if st.escaped then st.token + ['\\'] else st.token]
  }

  /** The canonical names of the tokens, without the blank ones. */
  function Names(tokens: seq<string>): set<string> {
    set t | t in tokens && Canonical(t) != "" :: Canonical(t)
  }

  method AddToken(out: set<string>, raw: string) returns (next: set<string>)
    ensures next == out + Names([raw])
  {
    var trimmed := TrimASCII(raw);
    var canon := NormalizePredicate(trimmed);
    assert raw in [raw];
    next := if canon != "" then out + {canon} else out;
  }

  lemma NamesOfMore(tokens: seq<string>, t: string)
    ensures Names(tokens + [t]) == Names(tokens) + Names([t])
  {
    assert t in [t];
  }

  method ParseAcceptedPredicates(accepted: string) returns (out: set<string>)
    ensures out == Names(Tokens(accepted))
  {
    out := {};
    var token, escaped := "", false;
    ghost var done: seq<string> := [];
    for i := 0 to |accepted|
      invariant Scanned(accepted[..i]) == Scan(done, token, escaped) && out == Names(done)
    {
      var c := accepted[i];
      assert accepted[..i + 1][..i] == accepted[..i];
      if escaped {
        if c != ',' && c != '\\' {
          token := token + ['\\'];
        }
        token := token + [c];
        escaped := false;
        continue;
      }
      if c == '\\' {
        escaped := true;
        continue;
      }
      if c == ',' {
        NamesOfMore(done, token);
        out := AddToken(out, token);
        done := done + [token];
        token := "";
        continue;
      }
      token := token + [c];
    }
    assert accepted[..|accepted|] == accepted;
    if escaped {
      token := token + ['\\'];
    }
    assert Tokens(accepted) == done + [token];
    NamesOfMore(done, token);
    out := AddToken(out, token);
  }

  // ------------------------------------------------------------------ the round trip

  function Run(st: Scan, s: string): Scan {
    if s == "" then st else Next(Run(st, s[..|s| - 1]), s[|s| - 1])
  }

  lemma {:induction false} ScannedRuns(s: string, t: string)
    ensures Scanned(s + t) == Run(Scanned(s), t)
    decreases |t|
  {
    if t == "" {
      assert s + t == s;
    } else {
      assert (s + t)[..|s + t| - 1] == s + t[..|t| - 1];
      ScannedRuns(s, t[..|t| - 1]);
    }
  }

  lemma RunNothing(st: Scan)
    ensures Run(st, "") == st
  {}

  lemma {:induction false} RunAppends(st: Scan, s: string, t: string)
    ensures Run(st, s + t) == Run(Run(st, s), t)
    decreases |t|
  {
    if t == "" {
      assert s + t == s;
    } else {
      assert (s + t)[..|s + t| - 1] == s + t[..|t| - 1];
      RunAppends(st, s, t[..|t| - 1]);
    }
  }

  lemma EscapedCharIsRead(st: Scan, c: char)
    requires !st.escaped
    ensures Run(st, EscapeChar(c)) == st.(token := st.token + [c])
  {
    assert ['\\', c][..1] == ['\\'] && ['\\'][..0] == "" && [c][..0] == "";
    if c == '\\' || c == ',' {
      assert Run(st, ['\\']) == Next(st, '\\');
    } else {
      assert Run(st, [c]) == Next(st, c);
    }
  }

  /** An escaped name is read back as the name. */
  lemma {:induction false} EscapedIsRead(st: Scan, p: string)
    requires !st.escaped
    ensures Run(st, Escape(p)) == st.(token := st.token + p)
    decreases |p|
  {
    hide Run, Next, EscapeChar;
    if p == "" {
      RunNothing(st);
      assert st.token + p == st.token;
    } else {
      var init, c := p[..|p| - 1], p[|p| - 1];
      EscapedIsRead(st, init);
      RunAppends(st, Escape(init), EscapeChar(c));
      EscapedCharIsRead(st.(token := st.token + init), c);
      assert st.token + p == (st.token + init) + [c];
    }
  }

  /** An unescaped comma ends the token. */
  lemma CommaIsRead(s: string)
    requires !Scanned(s).escaped
    ensures Scanned(s + ",") == Scan(Scanned(s).done + [Scanned(s).token], "", false)
  {
    assert (s + ",")[..|s|] == s;
  }

  lemma ScannedNothing()
    ensures Scanned("") == Scan([], "", false)
  {}

  lemma {:induction false} EncodedIsScanned(preds: seq<string>)
    requires preds != []
    ensures Scanned(Encoded(preds)) == Scan(preds[..|preds| - 1], preds[|preds| - 1], false)
    decreases |preds|
  {
    hide Scanned, Run, Next, Escape;
    var init, last := preds[..|preds| - 1], preds[|preds| - 1];
    if |preds| == 1 {
      ScannedNothing();
      ScannedRuns("", Escape(last));
      assert "" + Escape(last) == Escape(last);
      EscapedIsRead(Scan([], "", false), last);
    } else {
      EncodedIsScanned(init);
      CommaIsRead(Encoded(init));
      assert init == init[..|init| - 1] + [init[|init| - 1]];
      ScannedRuns(Encoded(init) + ",", Escape(last));
      EscapedIsRead(Scan(init, "", false), last);
    }
  }

  /** The tokens of a printed list are the names printed, commas and backslashes included. */
  lemma EncodedIsCut(preds: seq<string>)
    ensures Tokens(Encoded(preds)) == if preds == [] then [""] else preds
  {
    hide Encoded, Scanned;
    NothingEncoded();
    ScannedNothing();
    if preds != [] {
      EncodedIsScanned(preds);
      assert preds[..|preds| - 1] + [preds[|preds| - 1]] == preds;
    }
  }

  /** Printing and parsing a list gives exactly its canonical names. */
  lemma RoundTrip(preds: seq<string>)
    ensures Names(Tokens(Encoded(preds))) == Names(preds)
  {
    EncodedIsCut(preds);
  }

  /** Different lists are printed differently, apart from the empty one and the one holding just a blank. */
  lemma EncodedIsInjective(p: seq<string>, q: seq<string>)
    requires Encoded(p) == Encoded(q)
    ensures p == q || (p in {[], [""]} && q in {[], [""]})
  {
    EncodedIsCut(p);
    EncodedIsCut(q);
  }

  method RoundTripped(preds: seq<string>) returns (out: set<string>)
    ensures out == Names(preds)
  {
    var s := Encode(preds);
    RoundTrip(preds);
    out := ParseAcceptedPredicates(s);
  }

  // ------------------------------------------------------------------ the guard in the extension

  datatype Path = Path(predicates: seq<string>, hops: int)

  /** Every hop has the same canonical predicate. */
  ghost predicate Uniform(p: Path, k: string) {
    p.predicates != [] && k != "" && forall i | 0 <= i < |p.predicates| :: Canonical(p.predicates[i]) == k
  }

  method EffectivePredicate(p: Path) returns (r: Option<string>)
    ensures r.Some? ==> Uniform(p, r.value)
    ensures r.None? ==> forall k :: !Uniform(p, k)
  {
    if p.predicates == [] {
      return None;
    }
    var trimmed := TrimASCII(p.predicates[0]);
    var first := NormalizePredicate(trimmed);
    if first == "" {
      return None;
    }
    for i := 1 to |p.predicates|
      invariant forall j | 0 <= j < i :: Canonical(p.predicates[j]) == first
    {
      trimmed := TrimASCII(p.predicates[i]);
      var next := NormalizePredicate(trimmed);
      if next != first {
        return None;
      }
    }
    return Some(first);
  }

  function Confidence(p: Path): real {
    Pow(0.8, |p.predicates|) * Pow(0.9, if p.hops < 1 then 0 else p.hops - 1)
  }

  /** Every hop is a spelling of the token, surrounding space aside. */
  ghost predicate Spells(p: Path, token: string) {
    p.predicates != [] && Trim(token) != "" && forall i | 0 <= i < |p.predicates| :: SameSpelling(Trim(p.predicates[i]), Trim(token))
  }

  /** A path is acceptable exactly if all its hops are spellings of one accepted name. */
  lemma AcceptableIff(p: Path, tokens: seq<string>)
    ensures Acceptable(p, Names(tokens), true) <==> exists t :: t in tokens && Spells(p, t)
  {
    hide Normalize, Trim, SameSpelling;
    forall s, t: string ensures Normalize(s) == Normalize(t) <==> SameSpelling(s, t) {
      NormalizeIff(s, t);
    }
    forall s: string ensures Canonical(s) == "" <==> Trim(s) == "" {
      NormalizedAt(Trim(s));
    }
    if t :| t in tokens && Spells(p, t) {
      assert Uniform(p, Canonical(t));
    }
    if k :| k in Names(tokens) && Uniform(p, k) {
      var t :| t in tokens && Canonical(t) != "" && Canonical(t) == k;
      assert Spells(p, t);
    }
  }

  ghost predicate Acceptable(p: Path, accepted: set<string>, enforce: bool) {
    enforce ==> exists k :: k in accepted && Uniform(p, k)
  }

  /** The first of the most confident acceptable paths. */
  ghost predicate IsBest(paths: seq<Path>, names: set<string>, enforce: bool, best: nat) {
    && best < |paths| && Acceptable(paths[best], names, enforce)
    && (forall i | 0 <= i < |paths| && Acceptable(paths[i], names, enforce) ::
          Confidence(paths[i]) <= Confidence(paths[best]) && (i < best ==> Confidence(paths[i]) < Confidence(paths[best])))
  }

  /** The path whose proof is returned, or none if no path entails the claim. */
  method RunEntails(paths: seq<Path>, accepted: string, enforce: bool) returns (best: Option<nat>)
    ensures best.None? <==> forall i | 0 <= i < |paths| :: !Acceptable(paths[i], Names(Tokens(accepted)), enforce)
    ensures best.Some? ==> IsBest(paths, Names(Tokens(accepted)), enforce, best.value)
    ensures enforce ==> (best.Some? <==> exists i, t :: 0 <= i < |paths| && t in Tokens(accepted) && Spells(paths[i], t))
  {
    hide Names, Tokens, Uniform, Confidence, Spells, Acceptable;
    ghost var names := Names(Tokens(accepted));
    SpelledIff(paths, Tokens(accepted));
    UnenforcedIsAcceptable(names);
    var acceptedPredicates: set<string> := {};
    best := None;
    if enforce {
      acceptedPredicates := ParseAcceptedPredicates(accepted);
      if acceptedPredicates == {} {
        NothingAcceptable(names);
        return None;
      }
    }
    for i := 0 to |paths|
      invariant best.None? ==> forall j | 0 <= j < i :: !Acceptable(paths[j], names, enforce)
      invariant best.Some? ==> best.value < i && Acceptable(paths[best.value], names, enforce)
      invariant best.Some? ==> forall j | 0 <= j < i && Acceptable(paths[j], names, enforce) ::
                                 Confidence(paths[j]) <= Confidence(paths[best.value])
                                 && (j < best.value ==> Confidence(paths[j]) < Confidence(paths[best.value]))
    {
      if enforce {
        var effective := EffectivePredicate(paths[i]);
        JudgedByGuard(paths[i], effective, names);
        if effective == None || effective.value !in acceptedPredicates {
          continue;
        }
      }
      if best == None || Confidence(paths[i]) > Confidence(paths[best.value]) {
        best := Some(i);
      }
    }
  }

  lemma UnenforcedIsAcceptable(names: set<string>)
    ensures forall p :: Acceptable(p, names, false)
  {}

  lemma NothingAcceptable(names: set<string>)
    ensures names == {} ==> forall p :: !Acceptable(p, names, true)
  {}

  lemma JudgedByGuard(p: Path, effective: Option<string>, names: set<string>)
    requires if effective.Some? then Uniform(p, effective.value) else forall k :: !Uniform(p, k)
    ensures Acceptable(p, names, true) <==> effective.Some? && effective.value in names
  {
    hide Uniform;
    UniformIsUnique(p);
  }

  lemma SpelledIff(paths: seq<Path>, tokens: seq<string>)
    ensures (exists i :: 0 <= i < |paths| && Acceptable(paths[i], Names(tokens), true))
            <==> exists i, t :: 0 <= i < |paths| && t in tokens && Spells(paths[i], t)
  {
    hide Acceptable, Names, Spells;
    forall p ensures Acceptable(p, Names(tokens), true) <==> exists t :: t in tokens && Spells(p, t) {
      AcceptableIff(p, tokens);
    }
  }

  /** One hop on one edge has the confidence 0.8; each further edge leaves 0.8 of it, and each further hop 0.9. */
  lemma ConfidenceLaws(p: Path, pred: string)
    ensures |p.predicates| == 1 && p.hops <= 1 ==> Confidence(p) == 0.8
    ensures Confidence(p.(predicates := p.predicates + [pred])) == 0.8 * Confidence(p)
    ensures p.hops >= 1 ==> Confidence(p.(hops := p.hops + 1)) == 0.9 * Confidence(p)
    ensures p.hops < 1 ==> Confidence(p) == Confidence(p.(hops := 1))
    ensures Confidence(p) > 0.0
  {
    PowPositive(0.8, |p.predicates|);
    PowPositive(0.9, if p.hops < 1 then 0 else p.hops - 1);
    assert Pow(0.8, 1) == 0.8 * Pow(0.8, 0) && Pow(0.9, 0) == 1.0;
  }

  lemma {:induction false} PowPositive(base: real, n: nat)
    requires base > 0.0
    ensures Pow(base, n) > 0.0
  {
    if n > 0 {
      PowPositive(base, n - 1);
    }
  }

  lemma UniformIsUnique(p: Path)
    ensures forall k, l | Uniform(p, k) && Uniform(p, l) :: k == l
  {
    forall k, l | Uniform(p, k) && Uniform(p, l) ensures k == l {
      assert k == Canonical(p.predicates[0]) == l;
    }
  }
}
