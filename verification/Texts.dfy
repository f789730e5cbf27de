/** Surrounding white space of ASCII texts. */
module Texts {

  predicate IsSpace(c: char) {
    c == ' ' || c == '\t' || c == '\n' || c == '\r' || c == 11 as char || c == 12 as char
  }

  function TrimLeft(s: string): string {
    if s != "" && IsSpace(s[0]) then TrimLeft(s[1..]) else s
  }

  function TrimRight(s: string): string {
    if s != "" && IsSpace(s[|s| - 1]) then TrimRight(s[..|s| - 1]) else s
  }

  function Trim(s: string): string {
    TrimRight(TrimLeft(s))
  }

  lemma TrimLeftFrom(s: string, i: nat)
    requires i <= |s|
    ensures TrimLeft(s[i..]) == if i < |s| && IsSpace(s[i]) then TrimLeft(s[i + 1..]) else s[i..]
  {
    assert i < |s| ==> s[i..][1..] == s[i + 1..];
  }

  lemma TrimRightFrom(s: string, i: nat, j: nat)
    requires i <= j <= |s|
    ensures TrimRight(s[i..j]) == if i < j && IsSpace(s[j - 1]) then TrimRight(s[i..j - 1]) else s[i..j]
  {
    assert i < j ==> s[i..j][..j - i - 1] == s[i..j - 1];
  }

  /** Neither end is a space. */
  predicate Trimmed(s: string) {
    s == "" || (!IsSpace(s[0]) && !IsSpace(s[|s| - 1]))
  }

  lemma TrimmedStays(s: string)
    requires Trimmed(s)
    ensures Trim(s) == s
  {}

  lemma {:induction false} TrimRightEnds(s: string)
    ensures TrimRight(s) == "" || (s != "" && TrimRight(s)[0] == s[0] && !IsSpace(TrimRight(s)[|TrimRight(s)| - 1]))
    decreases |s|
  {
    if s != "" && IsSpace(s[|s| - 1]) {
      TrimRightEnds(s[..|s| - 1]);
    }
  }

  lemma {:induction false} TrimLeftStarts(s: string)
    ensures TrimLeft(s) == "" || !IsSpace(TrimLeft(s)[0])
    decreases |s|
  {
    if s != "" && IsSpace(s[0]) {
      TrimLeftStarts(s[1..]);
    }
  }

  lemma TrimTrims(s: string)
    ensures Trimmed(Trim(s)) && Trim(Trim(s)) == Trim(s)
  {
    TrimLeftStarts(s);
    TrimRightEnds(TrimLeft(s));
    TrimmedStays(Trim(s));
  }

  /** The white space of ASCII: tab, line feed, vertical tab, form feed, carriage return and the space itself. */
  lemma SpacesAre(c: char)
    ensures IsSpace(c) <==> 9 <= c as int <= 13 || c as int == 32
  {}

  ghost predicate AllSpaces(s: string) {
    forall i | 0 <= i < |s| :: IsSpace(s[i])
  }

  /** Trimming takes off white space at both ends, and nothing else. */
  lemma TrimMeans(s: string) returns (before: string, after: string)
    ensures s == before + Trim(s) + after && AllSpaces(before) && AllSpaces(after) && Trimmed(Trim(s))
  {
    hide TrimLeft, TrimRight;
    before := TrimLeftTakes(s);
    after := TrimRightTakes(TrimLeft(s));
    TrimTrims(s);
  }

  lemma {:induction false} TrimLeftTakes(s: string) returns (before: string)
    ensures s == before + TrimLeft(s) && AllSpaces(before)
    decreases |s|
  {
    if s != "" && IsSpace(s[0]) {
      before := TrimLeftTakes(s[1..]);
      before := [s[0]] + before;
    } else {
      before := "";
    }
  }

  lemma {:induction false} TrimRightTakes(s: string) returns (after: string)
    ensures s == TrimRight(s) + after && AllSpaces(after)
    decreases |s|
  {
    if s != "" && IsSpace(s[|s| - 1]) {
      after := TrimRightTakes(s[..|s| - 1]);
      after := after + [s[|s| - 1]];
      assert s == s[..|s| - 1] + [s[|s| - 1]];
    } else {
      after := "";
    }
  }
}
