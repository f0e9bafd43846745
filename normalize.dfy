/**
 The text normaliser `preprocess_text`: five whole-string rewrites applied
 one after the other. Each rewrite is a function over strings; the
 normaliser is their composition.
 */
module Normalize {
  import opened CharClass

  /** Step 1, `text.lower()`: every character lower-cased in place. */
  function Lowercase(s: string): (r: string)
    ensures |r| == |s|
    ensures forall i :: 0 <= i < |s| ==> r[i] == Lower(s[i])
    ensures forall i :: 0 <= i < |r| ==> !IsUpper(r[i])
  {
    if s == [] then [] else [Lower(s[0])] + Lowercase(s[1..])
  }

  /** Step 2, `re.sub(r"[^\w\s]", " ", text)`: every character that is neither
      a word character nor whitespace becomes one space; the others stay. */
  function BlankNonWord(s: string): (r: string)
    ensures |r| == |s|
    ensures forall i :: 0 <= i < |s| ==> (IsWordChar(s[i]) || IsSpace(s[i]) ==> r[i] == s[i])
    ensures forall i :: 0 <= i < |s| ==> (!IsWordChar(s[i]) && !IsSpace(s[i]) ==> r[i] == ' ')
    ensures forall i :: 0 <= i < |r| ==> IsWordChar(r[i]) || IsSpace(r[i])
  {
    if s == [] then []
    else [if IsWordChar(s[0]) || IsSpace(s[0]) then s[0] else ' '] + BlankNonWord(s[1..])
  }

  /** What is left of `s` after the longest prefix of `p` characters: the
      greedy match of `p+` at the start of `s`. */
  function SkipRun(s: string, p: char -> bool): (r: string)
    ensures |r| <= |s| && r == s[|s| - |r|..]
    ensures forall i :: 0 <= i < |s| - |r| ==> p(s[i])
    ensures r != [] ==> !p(r[0])
  {
    if s != [] && p(s[0]) then SkipRun(s[1..], p) else s
  }

  /** `re.sub(P + "+", " ", s)` for a one-character class `P`: each maximal
      run of `p` characters is replaced by a single space, everything else
      is copied. Steps 3 (`\d+`) and 4 (`\s+`) are instances. */
  function ReplaceRuns(s: string, p: char -> bool): (r: string)
    ensures |r| <= |s|
    ensures s != [] ==> r != [] && r[0] == if p(s[0]) then ' ' else s[0]
    decreases |s|
  {
    if s == [] then []
    else if p(s[0]) then [' '] + ReplaceRuns(SkipRun(s[1..], p), p)
    else [s[0]] + ReplaceRuns(s[1..], p)
  }

  /** The only character of `r` that may match `p` is the plain space. */
  ghost predicate OnlySpaceMatches(r: string, p: char -> bool)
  {
    forall i :: 0 <= i < |r| ==> r[i] == ' ' || !p(r[i])
  }

  /** No two neighbouring characters of `r` both match `p`. */
  ghost predicate NoAdjacentMatches(r: string, p: char -> bool)
  {
    forall i, j :: 0 <= i < j < |r| && j == i + 1 ==> !(p(r[i]) && p(r[j]))
  }

  lemma ConsKeepsOnlySpaceMatches(c: char, r: string, p: char -> bool)
    requires c == ' ' || !p(c)
    requires OnlySpaceMatches(r, p)
    ensures OnlySpaceMatches([c] + r, p)
  {
    var t := [c] + r;
    forall i | 1 <= i < |t| ensures t[i] == ' ' || !p(t[i]) {
      assert t[i] == r[i - 1];
    }
  }

  lemma ConsKeepsNoAdjacentMatches(c: char, r: string, p: char -> bool)
    requires r == [] || !p(c) || !p(r[0])
    requires NoAdjacentMatches(r, p)
    ensures NoAdjacentMatches([c] + r, p)
  {
    var t := [c] + r;
    forall i, j | 0 <= i < j < |t| && j == i + 1 ensures !(p(t[i]) && p(t[j])) {
      if i > 0 {
        assert t[i] == r[i - 1] && t[j] == r[j - 1];
      }
    }
  }

  /** One step of `ReplaceRuns`: the first character (or a space for a run)
      followed by the rest. */
  lemma ReplaceRunsStep(s: string, p: char -> bool)
    requires s != []
    ensures p(s[0]) ==> ReplaceRuns(s, p) == [' '] + ReplaceRuns(SkipRun(s[1..], p), p)
    ensures !p(s[0]) ==> ReplaceRuns(s, p) == [s[0]] + ReplaceRuns(s[1..], p)
  {
  }

  /** After `ReplaceRuns` the only character left that could match is the
      inserted space. */
  lemma {:induction false} ReplaceRunsLeavesNoMatch(s: string, p: char -> bool)
    ensures OnlySpaceMatches(ReplaceRuns(s, p), p)
    decreases |s|
  {
    if s != [] {
      ReplaceRunsStep(s, p);
      if p(s[0]) {
        ReplaceRunsLeavesNoMatch(SkipRun(s[1..], p), p);
        ConsKeepsOnlySpaceMatches(' ', ReplaceRuns(SkipRun(s[1..], p), p), p);
      } else {
        ReplaceRunsLeavesNoMatch(s[1..], p);
        ConsKeepsOnlySpaceMatches(s[0], ReplaceRuns(s[1..], p), p);
      }
    }
  }

  /** After `ReplaceRuns` no two neighbouring characters both match. */
  lemma {:induction false} ReplaceRunsNoAdjacentMatches(s: string, p: char -> bool)
    ensures NoAdjacentMatches(ReplaceRuns(s, p), p)
    decreases |s|
  {
    if s != [] {
      ReplaceRunsStep(s, p);
      if p(s[0]) {
        var rest := SkipRun(s[1..], p);
        ReplaceRunsNoAdjacentMatches(rest, p);
        ConsKeepsNoAdjacentMatches(' ', ReplaceRuns(rest, p), p);
      } else {
        ReplaceRunsNoAdjacentMatches(s[1..], p);
        ConsKeepsNoAdjacentMatches(s[0], ReplaceRuns(s[1..], p), p);
      }
    }
  }

  /** `s` without its trailing whitespace (`str.rstrip()`). */
  function TrimEnd(s: string): (r: string)
    ensures |r| <= |s| && r == s[..|r|]
    ensures forall i :: |r| <= i < |s| ==> IsSpace(s[i])
    ensures r != [] ==> !IsSpace(r[|r| - 1])
  {
    if s != [] && IsSpace(s[|s| - 1]) then TrimEnd(s[..|s| - 1]) else s
  }

  /** `u` is made of whitespace only */
  predicate AllSpace(u: string) { forall i :: 0 <= i < |u| ==> IsSpace(u[i]) }

  /** `r` sits at offset `a` of `s`, with only whitespace before and after it */
  predicate Framed(s: string, a: int, r: string)
  {
    0 <= a <= |s| - |r| && r == s[a..a + |r|] && AllSpace(s[..a]) && AllSpace(s[a + |r|..])
  }

  /** The trimmed middle of `s` is framed by its leading and trailing whitespace. */
  lemma StripFramed(s: string, t: string, r: string)
    requires |t| <= |s| && t == s[|s| - |t|..] && forall i :: 0 <= i < |s| - |t| ==> IsSpace(s[i])
    requires |r| <= |t| && r == t[..|r|] && forall i :: |r| <= i < |t| ==> IsSpace(t[i])
    ensures Framed(s, |s| - |t|, r)
  {
  }

  /** Step 5, `str.strip()`: the middle of `s` between leading and trailing
      whitespace. */
  function Strip(s: string): (r: string)
    ensures r != [] ==> !IsSpace(r[0]) && !IsSpace(r[|r| - 1])
    ensures exists a :: Framed(s, a, r)
  {
    var t := SkipRun(s, IsSpace);
    var r := TrimEnd(t);
    StripFramed(s, t, r);
    r
  }

  /** `preprocess_text` */
  function PreprocessText(s: string): (r: string)
    ensures |r| <= |s|
    ensures r != [] ==> !IsSpace(r[0]) && !IsSpace(r[|r| - 1])
  {
    Strip(ReplaceRuns(ReplaceRuns(BlankNonWord(Lowercase(s)), IsDigit), IsSpace))
  }
}
