/**
 An independent description of what the normaliser produces: the words of
 the input (its maximal runs of letters and underscores, lower-cased)
 joined by single spaces. Facts about this description, proved here, carry
 over to `preprocess_text` through the theorem in NormalizeProperties.
 */
module Tokens {
  import opened CharClass

  /** A normalised word: non-empty, lower-case letters and underscores only */
  predicate IsWord(w: string)
  {
    w != [] && forall i :: 0 <= i < |w| ==> IsTokenChar(w[i])
  }

  predicate AllWords(ws: seq<string>)
  {
    forall k :: 0 <= k < |ws| ==> IsWord(ws[k])
  }

  /** The maximal runs of letters and underscores of `s`, lower-cased, in order. */
  function Words(s: string): (ws: seq<string>)
    ensures AllWords(ws)
    ensures s != [] && Survives(s[0]) ==> ws != [] && ws[0][0] == Lower(s[0])
  {
    if s == [] then []
    else if !Survives(s[0]) then Words(s[1..])
    else
      var ws := Words(s[1..]);
      if |s| > 1 && Survives(s[1]) then [[Lower(s[0])] + ws[0]] + ws[1..]
      else [[Lower(s[0])]] + ws
  }

  /** `" ".join(ws)` */
  function Join(ws: seq<string>): (r: string)
  {
    if ws == [] then [] else if |ws| == 1 then ws[0] else ws[0] + [' '] + Join(ws[1..])
  }

  /** The letters and underscores of `s`, lower-cased, in their order. */
  function LettersOf(s: string): (r: string)
    ensures |r| <= |s|
    ensures forall i :: 0 <= i < |r| ==> IsTokenChar(r[i])
  {
    if s == [] then []
    else if Survives(s[0]) then [Lower(s[0])] + LettersOf(s[1..])
    else LettersOf(s[1..])
  }

  /** `s` with every plain space removed, nothing else changed or reordered. */
  function RemoveSpaces(s: string): (r: string)
    ensures |r| <= |s|
    ensures forall i :: 0 <= i < |r| ==> r[i] != ' '
  {
    if s == [] then []
    else if s[0] == ' ' then RemoveSpaces(s[1..])
    else [s[0]] + RemoveSpaces(s[1..])
  }

  /** The words written one after the other */
  function Concat(ws: seq<string>): (r: string)
  {
    if ws == [] then [] else ws[0] + Concat(ws[1..])
  }

  /** A string in normal form: lower-case letters, underscores and single
      spaces, with no space at either end. */
  predicate Canonical(t: string)
  {
    && (forall i :: 0 <= i < |t| ==> IsTokenChar(t[i]) || t[i] == ' ')
    && (forall i :: 0 <= i < |t| - 1 ==> t[i] != ' ' || t[i + 1] != ' ')
    && (t != [] ==> t[0] != ' ' && t[|t| - 1] != ' ')
  }

  lemma {:induction false} WordsEmptyIff(s: string)
    ensures Words(s) == [] <==> forall i :: 0 <= i < |s| ==> !Survives(s[i])
  {
    if s != [] {
      WordsEmptyIff(s[1..]);
      if !Survives(s[0]) {
        assert forall i :: 1 <= i < |s| ==> s[i] == s[1..][i - 1];
      }
    }
  }

  lemma JoinEmptyIff(ws: seq<string>)
    requires AllWords(ws)
    ensures Join(ws) == [] <==> ws == []
  {
  }

  lemma {:induction false} JoinCanonical(ws: seq<string>)
    requires AllWords(ws)
    ensures Canonical(Join(ws))
  {
    if |ws| > 1 {
      JoinCanonical(ws[1..]);
      var a, b := ws[0], Join(ws[1..]);
      assert IsWord(a);
      JoinEmptyIff(ws[1..]);
      var t := a + [' '] + b;
      assert t == Join(ws);
      forall i | 0 <= i < |t|
        ensures IsTokenChar(t[i]) || t[i] == ' '
      {
        if i > |a| { assert t[i] == b[i - |a| - 1]; }
      }
      forall i | 0 <= i < |t| - 1
        ensures t[i] != ' ' || t[i + 1] != ' '
      {
        if i > |a| { assert t[i] == b[i - |a| - 1] && t[i + 1] == b[i - |a|]; }
      }
    } else if |ws| == 1 {
      assert IsWord(ws[0]);
    }
  }

  lemma {:induction false} RemoveSpacesAppend(a: string, b: string)
    ensures RemoveSpaces(a + b) == RemoveSpaces(a) + RemoveSpaces(b)
  {
    if a != [] {
      assert (a + b)[1..] == a[1..] + b;
      RemoveSpacesAppend(a[1..], b);
    } else {
      assert a + b == b;
    }
  }

  lemma {:induction false} RemoveSpacesWord(w: string)
    requires forall i :: 0 <= i < |w| ==> IsTokenChar(w[i])
    ensures RemoveSpaces(w) == w
  {
    if w != [] {
      RemoveSpacesWord(w[1..]);
    }
  }

  lemma {:induction false} RemoveSpacesJoin(ws: seq<string>)
    requires AllWords(ws)
    ensures RemoveSpaces(Join(ws)) == Concat(ws)
  {
    if ws != [] {
      var w := ws[0];
      assert IsWord(w);
      RemoveSpacesWord(w);
      if |ws| == 1 {
        assert Concat(ws) == w + Concat([]);
      } else {
        var rest := Join(ws[1..]);
        RemoveSpacesJoin(ws[1..]);
        assert Join(ws) == (w + [' ']) + rest;
        RemoveSpacesAppend(w + [' '], rest);
        RemoveSpacesAppend(w, [' ']);
        assert RemoveSpaces([' ']) == [];
        assert RemoveSpaces(w + [' ']) == w;
        assert Concat(ws) == w + Concat(ws[1..]);
      }
    }
  }

  /** Extending the first word by one character extends the concatenation. */
  lemma ConcatExtendFirst(c: char, ws: seq<string>)
    requires ws != []
    ensures Concat([[c] + ws[0]] + ws[1..]) == [c] + Concat(ws)
  {
    var vs := [[c] + ws[0]] + ws[1..];
    assert vs[1..] == ws[1..];
  }

  lemma ConcatCons(w: string, ws: seq<string>)
    ensures Concat([w] + ws) == w + Concat(ws)
  {
    assert ([w] + ws)[1..] == ws;
  }

  lemma {:induction false} ConcatWords(s: string)
    ensures Concat(Words(s)) == LettersOf(s)
  {
    if s != [] {
      ConcatWords(s[1..]);
      var c, ws := Lower(s[0]), Words(s[1..]);
      if !Survives(s[0]) {
        assert Words(s) == ws;
      } else if |s| > 1 && Survives(s[1]) {
        assert Words(s) == [[c] + ws[0]] + ws[1..];
        ConcatExtendFirst(c, ws);
      } else {
        assert Words(s) == [[c]] + ws;
        ConcatCons([c], ws);
      }
    }
  }

  /** A run of letters and underscores followed by anything else (or
      nothing) is the first word, lower-cased. */
  lemma {:induction false} WordsOfRunThen(u: string, rest: string)
    requires u != [] && forall i :: 0 <= i < |u| ==> Survives(u[i])
    requires rest == [] || !Survives(rest[0])
    ensures Words(u + rest) == [LettersOf(u)] + Words(rest)
    decreases |u|
  {
    var s := u + rest;
    assert s[1..] == u[1..] + rest;
    if |u| == 1 {
      assert u[1..] == [];
      assert LettersOf(u) == [Lower(u[0])];
    } else {
      WordsOfRunThen(u[1..], rest);
    }
  }

  /** Characters that are not letters or underscores contribute no word. */
  lemma {:induction false} WordsAfterSeparators(m: string, rest: string)
    requires forall i :: 0 <= i < |m| ==> !Survives(m[i])
    ensures Words(m + rest) == Words(rest)
  {
    if m == [] {
      assert m + rest == rest;
    } else {
      assert (m + rest)[1..] == m[1..] + rest;
      WordsAfterSeparators(m[1..], rest);
    }
  }

  /** Two runs of letters and underscores around a run of other characters
      make two words. */
  lemma WordsOfTwoRuns(u: string, m: string, v: string)
    requires u != [] && forall i :: 0 <= i < |u| ==> Survives(u[i])
    requires m != [] && forall i :: 0 <= i < |m| ==> !Survives(m[i])
    requires v != [] && forall i :: 0 <= i < |v| ==> Survives(v[i])
    ensures Words(u + m + v) == [LettersOf(u), LettersOf(v)]
  {
    assert u + m + v == u + (m + v);
    WordsOfRunThen(u, m + v);
    WordsAfterSeparators(m, v);
    WordsOfRunThen(v, []);
    assert v + [] == v;
  }

  /** A string of lower-case letters, underscores and plain spaces has no
      upper case, no digit and no whitespace other than the plain space. */
  lemma AlphabetChars(t: string)
    requires forall i :: 0 <= i < |t| ==> IsTokenChar(t[i]) || t[i] == ' '
    ensures forall i :: 0 <= i < |t| ==> !IsUpper(t[i]) && !IsDigit(t[i]) && (IsSpace(t[i]) ==> t[i] == ' ')
  {
  }

  /** A normalised word is its own letters. */
  lemma {:induction false} LettersOfWord(w: string)
    requires forall i :: 0 <= i < |w| ==> IsTokenChar(w[i])
    ensures LettersOf(w) == w
  {
    if w != [] {
      LettersOfWord(w[1..]);
    }
  }

  /** A word followed by a non-letter (or nothing) is the first word. */
  lemma WordsOfWordThen(w: string, rest: string)
    requires IsWord(w)
    requires rest == [] || !Survives(rest[0])
    ensures Words(w + rest) == [w] + Words(rest)
  {
    WordsOfRunThen(w, rest);
    LettersOfWord(w);
  }

  /** Words undoes Join on well-formed words. */
  lemma {:induction false} WordsOfJoin(ws: seq<string>)
    requires AllWords(ws)
    ensures Words(Join(ws)) == ws
  {
    if |ws| == 1 {
      assert IsWord(ws[0]);
      WordsOfWordThen(ws[0], []);
      assert ws[0] + [] == ws[0];
    } else if |ws| > 1 {
      assert IsWord(ws[0]);
      var rest := [' '] + Join(ws[1..]);
      assert Join(ws) == ws[0] + rest;
      WordsOfWordThen(ws[0], rest);
      assert rest[1..] == Join(ws[1..]);
      WordsOfJoin(ws[1..]);
    }
  }
}
