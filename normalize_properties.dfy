/**
 What `preprocess_text` guarantees. The central theorem says that the
 five rewrites together produce exactly the words of the input (maximal
 runs of letters and underscores, lower-cased) joined by single spaces;
 the remaining lemmas follow from it.
 */
module NormalizeProperties {
  import opened CharClass
  import opened Normalize
  import opened Tokens

  /** A left-to-right reading of `ReplaceRuns`: `inRun` says that the
      character before `s` matched `p`, so a match continues rather than
      starts. */
  function Scan(s: string, p: char -> bool, inRun: bool): (r: string)
    ensures inRun ==> r == [] || !p(r[0])
  {
    if s == [] then []
    else if p(s[0]) then (if inRun then [] else [' ']) + Scan(s[1..], p, true)
    else [s[0]] + Scan(s[1..], p, false)
  }

  /** `s` with every `p` character turned into a space */
  function BlankWhere(s: string, p: char -> bool): (r: string)
    ensures |r| == |s|
    ensures forall i :: 0 <= i < |s| ==> r[i] == if p(s[i]) then ' ' else s[i]
  {
    if s == [] then [] else [if p(s[0]) then ' ' else s[0]] + BlankWhere(s[1..], p)
  }

  /** Letters and underscores of `s` lower-cased, every other character a space */
  function Blanked(s: string): (r: string)
    ensures |r| == |s|
    ensures forall i :: 0 <= i < |s| ==> r[i] == if Survives(s[i]) then Lower(s[i]) else ' '
  {
    if s == [] then [] else [if Survives(s[0]) then Lower(s[0]) else ' '] + Blanked(s[1..])
  }

  /** Inside a match, the scanner consumes the rest of the run silently. */
  lemma {:induction false} ScanInRun(s: string, p: char -> bool)
    ensures Scan(s, p, true) == Scan(SkipRun(s, p), p, false)
  {
    if s != [] && p(s[0]) {
      ScanInRun(s[1..], p);
    }
  }

  /** The regular-expression substitution and the scanner agree. */
  lemma {:induction false} ReplaceRunsIsScan(s: string, p: char -> bool)
    ensures ReplaceRuns(s, p) == Scan(s, p, false)
    decreases |s|
  {
    if s != [] {
      if p(s[0]) {
        ReplaceRunsIsScan(SkipRun(s[1..], p), p);
        ScanInRun(s[1..], p);
      } else {
        ReplaceRunsIsScan(s[1..], p);
      }
    }
  }

  /** The scanner on a string whose first character is `c`. */
  lemma ScanCons(c: char, t: string, p: char -> bool, inRun: bool)
    ensures Scan([c] + t, p, inRun) ==
      if p(c) then (if inRun then [] else [' ']) + Scan(t, p, true) else [c] + Scan(t, p, false)
  {
    assert ([c] + t)[1..] == t;
  }

  /** Replacing `d` runs by a space and then collapsing `sp` runs is the same
      as blanking every `d` character and collapsing once. */
  lemma {:induction false} ScanTwice(x: string, d: char -> bool, sp: char -> bool, dRun: bool, spRun: bool)
    requires sp(' ')
    requires dRun ==> spRun
    ensures Scan(Scan(x, d, dRun), sp, spRun) == Scan(BlankWhere(x, d), sp, spRun)
  {
    if x != [] {
      assert x == [x[0]] + x[1..];
      ScanCons(x[0], x[1..], d, dRun);
      var bw := BlankWhere(x, d);
      assert bw == [bw[0]] + BlankWhere(x[1..], d);
      ScanCons(bw[0], BlankWhere(x[1..], d), sp, spRun);
      if d(x[0]) {
        var rest := Scan(x[1..], d, true);
        ScanTwice(x[1..], d, sp, true, true);
        assert bw[0] == ' ';
        if dRun {
          assert Scan(x, d, dRun) == rest;
        } else {
          assert Scan(x, d, dRun) == [' '] + rest;
          ScanCons(' ', rest, sp, spRun);
        }
      } else {
        var rest := Scan(x[1..], d, false);
        ScanCons(x[0], rest, sp, spRun);
        ScanTwice(x[1..], d, sp, false, sp(x[0]));
      }
    }
  }

  /** The scanner only looks at which characters match `p`, not at which
      matching character it sees. */
  lemma {:induction false} ScanSameClass(x: string, y: string, p: char -> bool, inRun: bool)
    requires |x| == |y|
    requires forall i :: 0 <= i < |x| ==> p(x[i]) == p(y[i]) && (!p(x[i]) ==> x[i] == y[i])
    ensures Scan(x, p, inRun) == Scan(y, p, inRun)
  {
    if x != [] {
      ScanSameClass(x[1..], y[1..], p, p(x[0]));
    }
  }

  /** Stripping a collapsed string removes the one leading space, if any. */
  lemma SkipScan(z: string)
    ensures SkipRun(Scan(z, IsSpace, false), IsSpace) == Scan(z, IsSpace, true)
  {
  }

  lemma {:induction false} TrimEndAppend(a: string, x: string)
    ensures TrimEnd(a + x) == if TrimEnd(x) == [] then TrimEnd(a) else a + TrimEnd(x)
    decreases |x|
  {
    if x == [] {
      assert a + x == a;
    } else if IsSpace(x[|x| - 1]) {
      assert (a + x)[..|a + x| - 1] == a + x[..|x| - 1];
      TrimEndAppend(a, x[..|x| - 1]);
    }
  }

  /** One step of the scanner over the blanked input. */
  lemma ScanBlankedStep(s: string, inRun: bool)
    requires s != []
    ensures Scan(Blanked(s), IsSpace, inRun) ==
      if Survives(s[0]) then [Lower(s[0])] + Scan(Blanked(s[1..]), IsSpace, false)
      else (if inRun then [] else [' ']) + Scan(Blanked(s[1..]), IsSpace, true)
  {
    var b := Blanked(s);
    assert b[1..] == Blanked(s[1..]);
    assert IsSpace(b[0]) <==> !Survives(s[0]);
  }

  /** Prefixing a character to the first word prefixes it to the joined string. */
  lemma JoinExtendFirst(c: char, ws: seq<string>)
    requires ws != []
    ensures Join([[c] + ws[0]] + ws[1..]) == [c] + Join(ws)
  {
    var vs := [[c] + ws[0]] + ws[1..];
    if |ws| > 1 {
      assert vs[1..] == ws[1..];
    }
  }

  /** The case of `TrimScanBlanked` where `s` starts with two letters. */
  lemma TrimScanBlankedJoined(s: string)
    requires |s| > 1 && Survives(s[0]) && Survives(s[1])
    requires TrimEnd(Scan(Blanked(s[1..]), IsSpace, true)) == Join(Words(s[1..]))
    ensures TrimEnd(Scan(Blanked(s), IsSpace, true)) == Join(Words(s))
  {
    var c := Lower(s[0]);
    var ws := Words(s[1..]);
    var x := Scan(Blanked(s[1..]), IsSpace, true);
    ScanBlankedStep(s, true);
    ScanBlankedStep(s[1..], true);
    ScanBlankedStep(s[1..], false);
    assert Scan(Blanked(s), IsSpace, true) == [c] + x;
    TrimEndAppend([c], x);
    assert Words(s) == [[c] + ws[0]] + ws[1..];
    JoinExtendFirst(c, ws);
  }

  /** The scanner over a blanked input that starts with a one-letter word. */
  lemma ScanBlankedSplit(s: string)
    requires |s| > 1 && Survives(s[0]) && !Survives(s[1])
    ensures Scan(Blanked(s), IsSpace, true) == [Lower(s[0]), ' '] + Scan(Blanked(s[1..]), IsSpace, true)
  {
    ScanBlankedStep(s, true);
    ScanBlankedStep(s[1..], true);
    ScanBlankedStep(s[1..], false);
  }

  lemma TrimEndAfterSpace(c: char, x: string)
    requires !IsSpace(c)
    ensures TrimEnd([c, ' '] + x) == if TrimEnd(x) == [] then [c] else [c, ' '] + TrimEnd(x)
  {
    TrimEndAppend([c, ' '], x);
    assert [c, ' '][..1] == [c];
  }

  lemma JoinAfterLetter(c: char, ws: seq<string>)
    ensures Join([[c]] + ws) == if ws == [] then [c] else [c, ' '] + Join(ws)
  {
    if ws != [] {
      assert ([[c]] + ws)[1..] == ws;
    }
  }

  /** The case of `TrimScanBlanked` where a letter ends a word. */
  lemma TrimScanBlankedSplit(s: string)
    requires |s| > 1 && Survives(s[0]) && !Survives(s[1])
    requires TrimEnd(Scan(Blanked(s[1..]), IsSpace, true)) == Join(Words(s[1..]))
    ensures TrimEnd(Scan(Blanked(s), IsSpace, true)) == Join(Words(s))
  {
    var c := Lower(s[0]);
    var ws := Words(s[1..]);
    var x := Scan(Blanked(s[1..]), IsSpace, true);
    ScanBlankedSplit(s);
    TrimEndAfterSpace(c, x);
    JoinEmptyIff(ws);
    assert Words(s) == [[c]] + ws;
    JoinAfterLetter(c, ws);
  }

  /** Collapsing and trimming the blanked input gives its words joined by
      single spaces. */
  lemma {:induction false} TrimScanBlanked(s: string)
    ensures TrimEnd(Scan(Blanked(s), IsSpace, true)) == Join(Words(s))
  {
    if s != [] {
      TrimScanBlanked(s[1..]);
      ScanBlankedStep(s, true);
      if !Survives(s[0]) {
        assert Scan(Blanked(s), IsSpace, true) == Scan(Blanked(s[1..]), IsSpace, true);
        assert Words(s) == Words(s[1..]);
      } else if |s| == 1 {
        assert s[1..] == [];
        assert Scan(Blanked(s), IsSpace, true) == [Lower(s[0])];
        assert Words(s) == [[Lower(s[0])]];
      } else if Survives(s[1]) {
        TrimScanBlankedJoined(s);
      } else {
        TrimScanBlankedSplit(s);
      }
    }
  }

  /** The normaliser produces the words of its input joined by single spaces. */
  lemma NormalizedIsJoinedWords(s: string)
    ensures PreprocessText(s) == Join(Words(s))
  {
    var x := BlankNonWord(Lowercase(s));
    var c := ReplaceRuns(x, IsDigit);
    ReplaceRunsIsScan(x, IsDigit);
    ReplaceRunsIsScan(c, IsSpace);
    ScanTwice(x, IsDigit, IsSpace, false, false);
    ScanSameClass(BlankWhere(x, IsDigit), Blanked(s), IsSpace, false);
    SkipScan(Blanked(s));
    TrimScanBlanked(s);
  }
}
