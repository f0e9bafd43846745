# Resume text normaliser and upload dispatch, modelled in Dafny

The resume-based job finder reads an uploaded resume and cleans its text.
The cleaned text goes only to a keyword extractor, and its keywords are only
displayed. The job search uses the job title chosen in the sidebar
(app.py:37-43, 82-84), not the resume. Two pieces of
`app.py` hold logic of their own, and this project models both:

- **The text normaliser `preprocess_text`.** It applies five whole-string
  rewrites in order:
  1. lower-case the text;
  2. turn every character that is neither a word character (`\w`) nor
     whitespace into a space;
  3. turn every run of digits into one space;
  4. turn every run of whitespace into one space;
  5. strip both ends.
- **The upload dispatch.** The upload's MIME type picks the PDF reader, the
  plain-text reader or the DOCX reader. Any other type is refused with an
  error message, and the page stops.

Module layout:

- `CharClass` (`charclass.dfy`) defines the character classes `\w`, `\d`
  and `\s`, and the per-character `str.lower`. All of them are over ASCII.
- `Normalize` (`normalize.dfy`) has one function per rewrite and their
  composition `PreprocessText`. Steps 3 and 4 are both `re.sub(X+, " ", ·)`,
  so both use one function, `ReplaceRuns`.
- `Tokens` (`tokens.dfy`) is an independent description of the intended
  output. `Words` gives the maximal runs of letters and underscores,
  lower-cased. `Join` is `" ".join`. The file also proves facts about them.
- `NormalizeProperties` (`normalize_properties.dfy`) proves the central
  theorem `PreprocessText(s) == Join(Words(s))`. The proof goes through a
  left-to-right scanner (`Scan`), which is shown to agree with the regex
  substitution.
- `NormalizeFacts` (`normalize_facts.dfy`) derives one lemma per property
  of the normaliser from that theorem.
- `Upload` (`upload.dfy`) holds the MIME dispatch, its inverse, and the
  step that reads and cleans an upload.

Python's `\w` includes the underscore, so `_` survives normalisation. The
model keeps it too (`CharClass.Survives`, `CharClass.IsWordChar`).

Three behaviours of the code are worth stating plainly:

- Step 2's class `[^\w\s]` keeps the underscore as well as letters, digits
  and whitespace.
- `preprocess_text` calls `text.lower()` directly, so a non-string input
  raises. The page's catch-all `except` (app.py:118-119) reports the error.
  The model takes strings only.
- The page lists jobs in the order the scraper returns them
  (app.py:100-110). It ranks nothing and reports no missing keywords.

## Model

| member | source | states |
|---|---|---|
| `CharClass.Lower` | app.py:22 | Lower-casing one character: the result is never upper case. A letter or underscore maps to a lower-case letter or underscore, and nothing else does. Membership in `\w`, `\d` and `\s` is unchanged. Characters that are not upper case are left as they are. An upper-case letter becomes the same letter of the alphabet in lower case. |
| `Normalize.Lowercase` | app.py:22 | `text.lower()`: same length, each character lower-cased in place, and no upper-case letter in the result. |
| `Normalize.BlankNonWord` | app.py:23 | `re.sub(r"[^\w\s]", " ", text)`: same length. Word and whitespace characters stay in place. Every other character becomes one space. Afterwards every character is a word character or whitespace. |
| `Normalize.SkipRun` | app.py:24-25 | The greedy `+` match: it removes the longest prefix of matching characters. The result is a suffix of the input, everything removed matched, and the first remaining character does not match. |
| `Normalize.ReplaceRuns` | app.py:24-25 | `re.sub(X+, " ", s)`: the result is no longer than the input. Its first character is a space when the input starts with a run, and the input's first character otherwise. |
| `Normalize.ReplaceRunsLeavesNoMatch` | app.py:24-25 | After the substitution, the only character that can still match the class is the inserted space. So no digit survives line 24, and no whitespace other than `' '` survives line 25. |
| `Normalize.ReplaceRunsNoAdjacentMatches` | app.py:24-25 | After the substitution, no two neighbouring characters both match the class. So line 25 leaves no two adjacent whitespace characters. |
| `Normalize.TrimEnd` | app.py:26 | Trailing-whitespace removal: the result is a prefix of the input, everything cut is whitespace, and the result does not end in whitespace. |
| `Normalize.Strip` | app.py:26 | `str.strip()`: the result sits inside the input with only whitespace before and after it, and it neither starts nor ends with whitespace. |
| `Normalize.PreprocessText` | app.py:21-26 | `preprocess_text`: the five steps composed in source order. The result is no longer than the input and has no whitespace at either end. Its full meaning is stated by `NormalizeProperties.NormalizedIsJoinedWords`. |
| `NormalizeProperties.Scan` | app.py:24-25 | A scanner that is inside a run never starts its output with a matching character. |
| `NormalizeProperties.ReplaceRunsIsScan` | app.py:24-25 | The regex substitution of each maximal run equals a left-to-right scan that emits one space where a run starts and nothing for the rest of the run, for every input and every class. |
| `NormalizeProperties.ScanTwice` | app.py:24-25 | Replacing digit runs and then collapsing whitespace runs is the same as blanking every digit and collapsing once. |
| `NormalizeProperties.NormalizedIsJoinedWords` | app.py:21-26 | Central theorem: `preprocess_text(s)` is the maximal runs of letters and underscores of `s`, lower-cased, joined by single spaces. |
| `NormalizeFacts.OutputAlphabet` | app.py:21-26 | Every output character is a lower-case letter, an underscore or a plain space. |
| `NormalizeFacts.NoUpperDigitOrTab` | app.py:22-25 | No upper-case letter, no digit, and no whitespace other than `' '` (no tab or newline) is in the output. |
| `NormalizeFacts.NoDoubleSpace` | app.py:23-25 | The output never has two adjacent spaces. |
| `NormalizeFacts.NoEdgeSpace` | app.py:25-26 | The output neither starts nor ends with a space: a non-empty output begins and ends with a lower-case letter or an underscore. |
| `NormalizeFacts.EmptyIffNoLetters` | app.py:21-26 | The output is `""` if and only if the input has no letter and no underscore (it is empty, or only whitespace, digits and punctuation). |
| `NormalizeFacts.LettersKeptInOrder` | app.py:21-26 | Removing the spaces from the output gives exactly the input's letters and underscores, lower-cased, in their original order. |
| `NormalizeFacts.Idempotent` | app.py:21-26 | `preprocess_text(preprocess_text(s)) == preprocess_text(s)` for every `s`. |
| `NormalizeFacts.Separated` | app.py:23-25 | Two runs of letters or underscores with any non-empty run of digits, punctuation or whitespace between them come out lower-cased with exactly one space between them (`"abc1def"` gives `"abc def"`). |
| `Tokens.WordsOfJoin` | app.py:21-26 | Splitting normalised output back into words gives the words it was joined from. Idempotence rests on this. |
| `Tokens.JoinCanonical` | app.py:23-26 | Joining words with single spaces gives a string of lower-case letters, underscores and single inner spaces, with no space at either end. |
| `Tokens.ConcatWords` | app.py:21-26 | The words of the input, written one after another, are its letters and underscores lower-cased, in order. |
| `Upload.KindOf` | app.py:57-65 | `"application/pdf"` goes to the PDF reader, `"text/plain"` to the text reader, and the OOXML word-processing type to the DOCX reader, each if and only if. Every other string is Unsupported. |
| `Upload.MimeOf` | app.py:57-61 | Each reader has a MIME string that the dispatch sends to it. |
| `Upload.AcceptedMimeIsUnique` | app.py:57-61 | Every accepted MIME string is the one string for its reader, so the dispatch is one-to-one on accepted types. |
| `Upload.CleanedResume` | app.py:57-68 | An unsupported type fails with the message of line 64, and nothing is read or normalised. Otherwise the text from the selected reader is cleaned into its words joined by single spaces. |

## Left out

- `CharClass`: Python's `\w`, `\d`, `\s`, `str.lower` and `str.strip` are Unicode-aware; the model classifies ASCII only. A non-ASCII character counts as neither a word character, nor a digit, nor whitespace, and lower-casing keeps it. So the model turns a non-ASCII letter such as `é` into a space, where Python keeps it. The model also leaves out non-ASCII whitespace such as U+00A0, and lower-case mappings that change the length of the string.
- PDF and DOCX text extraction (app.py:10-18) and the UTF-8 decoding of plain-text uploads (app.py:60) are library calls. `Upload.CleanedResume` takes them as the parameter `extract`, a total function, so a reader that raises on a malformed file (app.py:11, 17) is not modelled; in the code that error reaches the catch-all at app.py:118-119.
- KeyBERT keyword extraction (app.py:71-72) is an opaque embedding model. Nothing of its ranking or output is visible in the code.
- Job scraping through `scrape_jobs` (app.py:82-90) is network I/O against third-party sites.
- The Streamlit page is UI and I/O plumbing: configuration, sidebar job-title choice, debug output, job listing, CSV download, and the catch-all error display (app.py:29-51, 74-79, 92-119).
- Similarity ranking and missing-keyword feedback do not exist in the code, so they are not modelled.
- `app_dinesh.py` is a separate visualisation script over a CSV file (pandas filtering, `ast.literal_eval`, matplotlib). It has no core logic.
