# Indonesian keyword sentiment scorer — a Dafny model

This project models the scoring core of a small Streamlit application
(`main.py`) that labels Indonesian text as `Positif`, `Negatif` or `Netral`.
The core has four parts:

- **The normaliser `preprocess_text`.** It deletes every character that is
  neither a word character nor whitespace. It then turns each whitespace run
  into one space, strips both ends and lowercases.
- **The scorer `analyze_sentiment_id`.** It counts how many entries of a
  fixed positive list and a fixed negative list occur as substrings of the
  normalised text. Any negation marker found forces the label `Negatif`,
  with score `negative - positive`. Otherwise the larger count wins.
- **The language gate `detect_language`.** It answers `"unknown"` for blank
  text or a detector failure. The manual-input path scores only text tagged
  `"id"` and shows `("Tidak Diketahui", "N/A")` for everything else.
- **The batch path.** It applies the scorer to every cell of an uploaded
  column.

The project has five modules:

- `Normalizer` (`normalizer.dfy`) is the normaliser. Its main results are:
  - the normal form's shape;
  - equality with `" ".join(split())` of the punctuation-free text;
  - idempotence;
  - invariance under case, deleted punctuation, and the kind of whitespace
    used;
  - a whitespace run of two normalises like a run of one, so by repetition
    any run does.
- `Lexicon` (`lexicon.dfy`) holds the three word lists, Python's substring
  test `word in text` (proved equal to "occurs at some index"), hit counting
  and the negation search.
- `Classifier` (`classifier.dfy`) is the scorer and its decision table.
- `App` (`app.dfy`) is the language gate, the manual dispatch and the batch
  column.
- `Scenarios` (`scenarios.dfy`) proves worked inputs, one text at a time.
  The four texts `"bagus"`, `"tidak bagus"`, `"bagus tapi jelek"` and
  `"buruk dan mengecewakan"` get their full hit sets in both lists and their
  verdict. The other four examples each state one focused fact:
  - `"bagus sekali"`: its positive hits and count;
  - `"BAGUS!!!"`: its verdict;
  - `"luar\n\tbiasa"` and `"terima-kasih"`: their normal form, and whether one
    phrase entry occurs in it.

  The per-entry lemmas (`BagusHasBagus`, `OverlapLacksKecewa`, …) support
  these examples and have no rows of their own below.

Characters are modelled as Python classifies ASCII:

- a word character is `[A-Za-z0-9_]`;
- whitespace is space, `\t` to `\r`, and U+001C to U+001F;
- lowercasing maps `A`-`Z` to `a`-`z`.

## Model

| member | source | states |
|---|---|---|
| Lexicon.PositiveWords | main.py:23 | the fifteen positive entries, in source order |
| Lexicon.NegativeWords | main.py:24 | the seventeen negative entries, in source order |
| Lexicon.NegationWords | main.py:27 | the five negation markers, in source order |
| Lexicon.Contains | main.py:36-37 | Python's `word in text`, as a scan of `text` from left to right; its meaning is given by `ContainsIffOccurs` |
| Lexicon.HasNegation | main.py:40-41 | the marker loop reaches its `return` branch: `FirstMarker` finds a marker |
| Lexicon.ListsAreDistinct | main.py:23-27 | none of the three word lists repeats an entry |
| Lexicon.ContainsIffOccurs | main.py:36-37 | `word in text` holds exactly when `word` occurs at some index of `text` |
| Lexicon.ContainsInfix | main.py:36-37 | a text built as `a + word + b` contains `word` |
| Lexicon.ContainsInEmpty | main.py:36-37 | the empty text contains only the empty word |
| Lexicon.NotContainsLonger | main.py:36-37 | a word longer than the text does not occur in it |
| Lexicon.NotContainsMissingChar | main.py:36-37 | a word holding a character the text lacks does not occur in it |
| Lexicon.NotContainsSplit | main.py:36-37 | a word without the separator character occurs in neither half, so it does not occur in the joined text |
| Lexicon.NotContainsMissingPiece | main.py:36-37 | if a piece of a word is absent from the text, the word is absent too |
| Lexicon.CountHits | main.py:36-37 | the count is at most the list length; it is zero iff no entry occurs, and full iff every entry occurs |
| Lexicon.CountHitsIsHitSetSize | main.py:36-37 | for a list without repeats, the count equals the number of distinct entries found |
| Lexicon.FirstMarker | main.py:40-41 | the index found is the first marker, in list order, that occurs; none is found iff no marker occurs |
| Lexicon.HasNegationIff | main.py:40-41 | the negation branch is taken iff some marker is a substring, iff the marker count is positive |
| Normalizer.IsWordChar | main.py:30 | the ASCII `\w` class: a letter, a digit or `_` |
| Normalizer.IsSpaceChar | main.py:30-31 | the ASCII `\s` class: space, `\t` to `\r`, and U+001C to U+001F |
| Normalizer.Kept | main.py:30 | the complement of `[^\w\s]`: the characters that survive punctuation removal |
| Normalizer.TrimStart | main.py:31 | `lstrip`: the result is no longer than the input and does not start with whitespace |
| Normalizer.TrimEnd | main.py:31 | `rstrip`: the result is no longer than the input and does not end with whitespace |
| Normalizer.ToLower | main.py:31 | lowercasing keeps a character's class, leaves no upper-case letter, and leaves other characters alone |
| Normalizer.RemovePunctuation | main.py:30 | the result holds only word and whitespace characters, is no longer than the input, and equals it when nothing is deleted |
| Normalizer.RemovePunctuationAppend | main.py:30 | punctuation removal works character by character, so it distributes over concatenation |
| Normalizer.TrimStartIsSuffix | main.py:31 | `lstrip` returns a suffix and removes only whitespace |
| Normalizer.TrimEndIsPrefix | main.py:31 | `rstrip` returns a prefix and removes only whitespace |
| Normalizer.Strip | main.py:31 | the stripped text neither starts nor ends with whitespace |
| Normalizer.CollapseWhitespace | main.py:31 | collapsing keeps emptiness, and keeps whether the text starts with whitespace |
| Normalizer.CollapseShape | main.py:31 | after collapsing, every whitespace character is a single space and no two are adjacent |
| Normalizer.StripKeepsShape | main.py:31 | stripping keeps the collapsed shape |
| Normalizer.CollapseRun | main.py:31 | two whitespace characters in a row collapse like one |
| Normalizer.Lower | main.py:31 | lowercasing keeps the length and maps each character |
| Normalizer.Preprocess | main.py:29-32 | the normal form has only word characters and single interior spaces, no space at either end and no upper-case letter |
| Normalizer.LowerNormalizes | main.py:31 | lowercasing a stripped, collapsed, punctuation-free text gives a normal form |
| Normalizer.StripCollapseIsJoin | main.py:31 | collapse-then-strip equals joining the whitespace-separated words with single spaces |
| Normalizer.PreprocessIsSplitJoin | main.py:29-32 | the normaliser equals `" ".join(split())` of the punctuation-free text, lowercased |
| Normalizer.NormalizedIsFixpoint | main.py:29-32 | a text already in normal form is returned unchanged |
| Normalizer.PreprocessIdempotent | main.py:29-32 | normalising twice gives the same text as normalising once |
| Normalizer.RemovePunctuationLower | main.py:30-31 | punctuation removal commutes with lowercasing |
| Normalizer.CollapseLower | main.py:31 | collapsing whitespace commutes with lowercasing |
| Normalizer.PreprocessIgnoresCase | main.py:29-32 | two inputs that lowercase alike have the same normal form |
| Normalizer.PreprocessOfLower | main.py:29-32 | lowercasing the input first does not change the normal form |
| Normalizer.PreprocessIgnoresPunctuation | main.py:30 | deleting one non-word, non-space character anywhere does not change the normal form |
| Normalizer.PreprocessIgnoresSpaceKind | main.py:31 | inputs that differ only in which whitespace characters they use have the same normal form |
| Normalizer.PreprocessCollapsesRuns | main.py:31 | a whitespace run of two normalises like a run of one |
| Classifier.PositiveScore | main.py:36 | `positive_score` is the hit count over the positive list, at most its length |
| Classifier.NegativeScore | main.py:37 | `negative_score` is the hit count over the negative list, at most its length |
| Classifier.Decide | main.py:40-53 | under negation the label is `Negatif` with score `neg - pos`; otherwise `Positif`/`Negatif`/`Netral` iff pos > neg, neg > pos, pos == neg, with the absolute difference as score |
| Classifier.Analyze | main.py:34-53 | the result is always a numeric score with one of the three scorer labels, between -15 and 17 |
| Classifier.ScoresCountDistinctEntries | main.py:36-37 | each score is the number of distinct list entries found: at most 15 positive and 17 negative |
| Classifier.AnalyzeFromHits | main.py:34-53 | the verdict depends only on the two sets of entries found and on whether a marker occurs |
| Classifier.NegationOverrides | main.py:40-46 | any marker in the normal form makes the result `Negatif` with score `negative - positive`, whichever count is larger |
| Classifier.WithoutNegation | main.py:48-53 | without a marker the larger count decides; the score is then non-negative, and zero iff `Netral` |
| Classifier.LabelIff | main.py:34-53 | `Positif` iff no marker and pos > neg; `Netral` iff no marker and pos == neg; `Negatif` iff a marker or neg > pos |
| Classifier.GagalIsNegativeAndNegation | main.py:24-27 | `gagal` is both a negative entry and a marker, so a text containing it is `Negatif` and counts it as a negative hit |
| Classifier.AnalyzeFactorsThroughPreprocess | main.py:35 | the verdict depends on the input only through its normal form |
| Classifier.AnalyzeIgnoresCase | main.py:31-35 | inputs that lowercase alike get the same verdict |
| Classifier.AnalyzeIgnoresPunctuation | main.py:30-35 | deleting a punctuation character does not change the verdict |
| Classifier.AnalyzeIgnoresWhitespace | main.py:31-35 | a whitespace run of two characters of any kind scores like a single space |
| Classifier.EmptyTextIsNeutral | main.py:48-53 | an empty normal form is `Netral` with score 0 |
| Classifier.EmptyTextHitsNothing | main.py:36-41 | no entry of any list occurs in the empty text |
| Classifier.NoWordCharacterIsNeutral | main.py:29-53 | a text with no word character normalises to the empty text and is `Netral` with score 0 |
| Classifier.RemovePunctuationDropsWords | main.py:30 | removing punctuation from a text without word characters leaves only whitespace |
| App.IsBlank | main.py:57 | `not text.strip()`: stripping leaves nothing; `IsBlankIff` gives its meaning |
| App.DetectLanguage | main.py:55-62 | the result is `"unknown"` iff the text is blank, the detector fails or answers `"unknown"`; otherwise it is the detector's tag |
| App.BlankSkipsDetector | main.py:57-58 | the detector is not consulted for blank text |
| App.IsBlankIff | main.py:57 | `not text.strip()` holds iff every character is whitespace |
| App.AnalyzeInput | main.py:122-128 | nothing is shown iff the text area is empty; otherwise the detected tag is shown, and the scorer's verdict iff the tag is `"id"`, else `("Tidak Diketahui", "N/A")` |
| App.ScoredIffIndonesian | main.py:124-128 | the sentinel label and the `"N/A"` score each appear exactly for tags other than `"id"` |
| App.BlankInputIsUnknown | main.py:122-128 | a non-empty blank input is never scored, whatever the detector |
| App.AnalyzeColumn | main.py:162 | a successful column has one verdict per cell |
| App.HasNonTextCons | main.py:162 | a column holds a non-text cell iff its head is one or its tail holds one |
| App.AnalyzeColumnFailsIffNonText | main.py:162 | the column fails exactly when some cell is not text |
| App.AnalyzeColumnScoresEachCell | main.py:162 | when the column succeeds, every cell is text and its verdict, in order, is the scorer's verdict on it |
| Scenarios.BagusExample | main.py:34-53 | `"bagus"` hits only `bagus` and no marker: `Positif`, score 1 |
| Scenarios.TidakBagusExample | main.py:40-46 | `"tidak bagus"` hits `bagus` and the marker `tidak`: `Negatif`, score -1 |
| Scenarios.MixedExample | main.py:48-53 | `"bagus tapi jelek"` hits one entry of each list: `Netral`, score 0 |
| Scenarios.OverlapExample | main.py:36-53 | `"buruk dan mengecewakan"` hits `buruk` and `mengecewakan` but not `kecewa`: `Negatif`, score 2 |
| Scenarios.PhraseAlsoHitsItsWordExample | main.py:23-36 | `"bagus sekali"` hits both `bagus` and `bagus sekali`, so the positive count is 2 |
| Scenarios.ShoutedBagusExample | main.py:29-53 | `"BAGUS!!!"` scores like `"bagus"`: `Positif`, score 1 |
| Scenarios.WhitespaceRunJoinsPhraseExample | main.py:31-36 | a newline and a tab between `luar` and `biasa` become one space, so the phrase entry `luar biasa` occurs |
| Scenarios.HyphenBreaksPhraseExample | main.py:30-36 | the hyphen in `"terima-kasih"` is deleted, not spaced, so the entry `terima kasih` does not occur |

## Left out

- The Streamlit interface is not modelled: widgets, charts, the word cloud, the data-frame display and the sentiment counts.
- Logging, the CSV log and the GitHub synchronisation are not modelled. They are I/O with no effect on the verdicts.
- The statistical detector inside `detect_language` is not modelled. It is a parameter that names a language or fails. Any exception it raises becomes `DetectionFailed`.
- Non-ASCII characters are not modelled as Python treats them. Python's `\w`, `\s` and `lower()` follow Unicode. The model classifies ASCII only, so an accented letter counts as punctuation and is deleted.
- The batch path's per-row logging (`log_analysis` with the fixed tag `"id"`) is not modelled.
- A missing batch cell is not scored as the empty string. pandas reads it as NaN, `re.sub` in the normaliser raises on it, and the whole column is aborted. `AnalyzeColumn` returns `None` in that case.
- Python's exceptions are not modelled as control flow. The one failure in the core is the batch case above, and it is modelled as `Option`.
- The normaliser's intermediate strings are not tied to Python's regex engine. `re.sub(r'\s+', ' ', …)` is modelled by its effect: each maximal whitespace run becomes one space.
- App.AnalyzeColumn: its own contract states only the length of a successful result. The failure condition and the per-cell verdicts are proved in `AnalyzeColumnFailsIffNonText` and `AnalyzeColumnScoresEachCell`.
