/**
 Consequences of the central theorem, one property of `preprocess_text`
 per lemma.
 */
module NormalizeFacts {
  import opened CharClass
  import opened Normalize
  import opened Tokens
  import opened NormalizeProperties

  /** Every output character is a lower-case letter, an underscore or a
      plain space. */
  lemma OutputAlphabet(s: string)
    ensures forall i :: 0 <= i < |PreprocessText(s)| ==>
      IsTokenChar(PreprocessText(s)[i]) || PreprocessText(s)[i] == ' '
  {
    NormalizedIsJoinedWords(s);
    JoinCanonical(Words(s));
  }

  /** No upper-case letter, no digit and no whitespace other than the plain
      space (no tab, no newline) survives. */
  lemma NoUpperDigitOrTab(s: string)
    ensures forall i :: 0 <= i < |PreprocessText(s)| ==>
      !IsUpper(PreprocessText(s)[i]) && !IsDigit(PreprocessText(s)[i])
      && (IsSpace(PreprocessText(s)[i]) ==> PreprocessText(s)[i] == ' ')
  {
    OutputAlphabet(s);
    AlphabetChars(PreprocessText(s));
  }

  /** No two spaces are adjacent in the output. */
  lemma NoDoubleSpace(s: string)
    ensures forall i :: 0 <= i < |PreprocessText(s)| - 1 ==>
      PreprocessText(s)[i] != ' ' || PreprocessText(s)[i + 1] != ' '
  {
    NormalizedIsJoinedWords(s);
    JoinCanonical(Words(s));
  }

  /** The output neither starts nor ends with a space: both of its ends are
      letters or underscores. */
  lemma NoEdgeSpace(s: string)
    ensures PreprocessText(s) != [] ==>
      IsTokenChar(PreprocessText(s)[0]) && IsTokenChar(PreprocessText(s)[|PreprocessText(s)| - 1])
  {
    NormalizedIsJoinedWords(s);
    JoinCanonical(Words(s));
  }

  /** The output is empty exactly when the input has no letter and no
      underscore (only whitespace, digits and punctuation, or nothing). */
  lemma EmptyIffNoLetters(s: string)
    ensures PreprocessText(s) == [] <==> forall i :: 0 <= i < |s| ==> !Survives(s[i])
  {
    NormalizedIsJoinedWords(s);
    JoinEmptyIff(Words(s));
    WordsEmptyIff(s);
  }

  /** Removing the spaces from the output leaves exactly the letters and
      underscores of the input, lower-cased, in their original order. */
  lemma LettersKeptInOrder(s: string)
    ensures RemoveSpaces(PreprocessText(s)) == LettersOf(s)
  {
    NormalizedIsJoinedWords(s);
    RemoveSpacesJoin(Words(s));
    ConcatWords(s);
  }

  /** Normalising twice is normalising once. */
  lemma Idempotent(s: string)
    ensures PreprocessText(PreprocessText(s)) == PreprocessText(s)
  {
    NormalizedIsJoinedWords(s);
    NormalizedIsJoinedWords(PreprocessText(s));
    WordsOfJoin(Words(s));
  }

  /** Two runs of letters and underscores separated by any non-empty run of
      digits, punctuation and whitespace come out as the two lower-cased runs
      with exactly one space between them (`"abc1def"`, `"a,b"`). */
  lemma Separated(u: string, m: string, v: string)
    requires u != [] && forall i :: 0 <= i < |u| ==> Survives(u[i])
    requires m != [] && forall i :: 0 <= i < |m| ==> !Survives(m[i])
    requires v != [] && forall i :: 0 <= i < |v| ==> Survives(v[i])
    ensures PreprocessText(u + m + v) == LettersOf(u) + [' '] + LettersOf(v)
  {
    NormalizedIsJoinedWords(u + m + v);
    WordsOfTwoRuns(u, m, v);
    assert [LettersOf(u), LettersOf(v)][1..] == [LettersOf(v)];
  }
}
