/** The keyword-and-negation scorer `analyze_sentiment_id`: normalise the
    text, count the positive and negative entries found in it, and decide
    the label. A negation marker anywhere in the text forces the label
    `Negatif`, whatever the counts. */
module Classifier {
  import opened Normalizer
  import opened Lexicon

  /** The four labels the application shows. `TidakDiketahui` ("unknown")
      is produced only by the language gate, never by the scorer. */
  datatype Label = Positif | Negatif | Netral | TidakDiketahui

  /** A numeric score, or the `"N/A"` shown for text that is not scored. */
  datatype Score = Num(value: int) | NA

  datatype Verdict = Verdict(sentiment: Label, score: Score)

  /** `positive_score`: how many positive entries occur in the text. */
  function PositiveScore(text: string): (n: nat)
    ensures n <= |PositiveWords|
  {
    CountHits(text, PositiveWords)
  }

  /** `negative_score`: how many negative entries occur in the text. */
  function NegativeScore(text: string): (n: nat)
    ensures n <= |NegativeWords|
  {
    CountHits(text, NegativeWords)
  }

  /** The decision at the end of `analyze_sentiment_id`, from whether a
      negation marker was found and the two counts. Both branches under a
      negation return the same value. */
  function Decide(negated: bool, pos: nat, neg: nat): (r: Verdict)
    ensures r.score.Num? && r.sentiment != TidakDiketahui
    ensures negated ==> r.sentiment == Negatif && r.score.value == neg - pos
    ensures !negated ==> (r.sentiment == Positif <==> pos > neg)
    ensures !negated ==> (r.sentiment == Negatif <==> neg > pos)
    ensures !negated ==> (r.sentiment == Netral <==> pos == neg)
    ensures !negated ==> r.score.value == if pos >= neg then pos - neg else neg - pos
  {
    if negated then
      if pos > neg then Verdict(Negatif, Num(neg - pos))
      else Verdict(Negatif, Num(neg - pos))
    else if pos > neg then Verdict(Positif, Num(pos - neg))
    else if neg > pos then Verdict(Negatif, Num(neg - pos))
    else Verdict(Netral, Num(0))
  }

  /** `analyze_sentiment_id`. */
  function Analyze(raw: string): (r: Verdict)
    ensures r.score.Num? && r.sentiment != TidakDiketahui
    ensures -|PositiveWords| <= r.score.value <= |NegativeWords|
  {
    var text := Preprocess(raw);
    Decide(HasNegation(text), PositiveScore(text), NegativeScore(text))
  }

  // ---------------------------------------------------------------------
  // Properties
  // ---------------------------------------------------------------------

  /** Each count is the number of distinct list entries found, so it lies
      between 0 and the length of its list (15 and 17). */
  lemma ScoresCountDistinctEntries(text: string)
    ensures PositiveScore(text) == |HitSet(text, PositiveWords)| <= 15
    ensures NegativeScore(text) == |HitSet(text, NegativeWords)| <= 17
  {
    PositiveScoreCountsEntries(text);
    NegativeScoreCountsEntries(text);
  }

  lemma PositiveScoreCountsEntries(text: string)
    ensures PositiveScore(text) == |HitSet(text, PositiveWords)|
  {
    ListsAreDistinct();
    CountHitsIsHitSetSize(text, PositiveWords);
  }

  lemma NegativeScoreCountsEntries(text: string)
    ensures NegativeScore(text) == |HitSet(text, NegativeWords)|
  {
    ListsAreDistinct();
    CountHitsIsHitSetSize(text, NegativeWords);
  }

  /** The verdict is determined by the normal form's two hit sets and
      whether it holds a negation marker. */
  lemma AnalyzeFromHits(raw: string, pos: set<string>, neg: set<string>, negated: bool)
    requires HitSet(Preprocess(raw), PositiveWords) == pos
    requires HitSet(Preprocess(raw), NegativeWords) == neg
    requires HasNegation(Preprocess(raw)) == negated
    ensures Analyze(raw) == Decide(negated, |pos|, |neg|)
  {
    ScoresCountDistinctEntries(Preprocess(raw));
  }

  /** With a negation marker in the normalised text the label is `Negatif`
      and the score is `negative_score - positive_score`, even when that is
      zero or negative. */
  lemma NegationOverrides(raw: string, w: string)
    requires w in NegationWords && Contains(Preprocess(raw), w)
    ensures var text := Preprocess(raw);
      Analyze(raw) == Verdict(Negatif, Num(NegativeScore(text) - PositiveScore(text)))
  {
    HasNegationIff(Preprocess(raw));
  }

  /** Without a negation marker the result is one of three cases, its score
      is never negative, and it is zero exactly for `Netral`. */
  lemma WithoutNegation(raw: string)
    requires forall w :: w in NegationWords ==> !Contains(Preprocess(raw), w)
    ensures var text := Preprocess(raw);
      var pos, neg := PositiveScore(text), NegativeScore(text);
      && (pos > neg ==> Analyze(raw) == Verdict(Positif, Num(pos - neg)))
      && (neg > pos ==> Analyze(raw) == Verdict(Negatif, Num(neg - pos)))
      && (pos == neg ==> Analyze(raw) == Verdict(Netral, Num(0)))
    ensures Analyze(raw).score.value >= 0
    ensures Analyze(raw).score.value == 0 <==> Analyze(raw).sentiment == Netral
  {
    HasNegationIff(Preprocess(raw));
  }

  /** The label is `Positif` exactly when no marker occurs and the positive
      count is larger; `Netral` exactly when no marker occurs and the counts
      tie; `Negatif` in every other case. */
  lemma LabelIff(raw: string)
    ensures var text := Preprocess(raw);
      var negated := exists w :: w in NegationWords && Contains(text, w);
      var pos, neg := PositiveScore(text), NegativeScore(text);
      && (Analyze(raw).sentiment == Positif <==> !negated && pos > neg)
      && (Analyze(raw).sentiment == Netral <==> !negated && pos == neg)
      && (Analyze(raw).sentiment == Negatif <==> negated || neg > pos)
  {
    HasNegationIff(Preprocess(raw));
  }

  /** `"gagal"` is both a negative entry and a negation marker: a text that
      contains it is `Negatif`, and `gagal` is among its negative hits. */
  lemma GagalIsNegativeAndNegation(raw: string)
    requires Contains(Preprocess(raw), "gagal")
    ensures Analyze(raw).sentiment == Negatif
    ensures "gagal" in HitSet(Preprocess(raw), NegativeWords)
    ensures NegativeScore(Preprocess(raw)) >= 1
  {
    assert NegationWords[4] == "gagal";
    assert NegativeWords[15] == "gagal";
    NegationOverrides(raw, "gagal");
  }

  /** The result depends on the input only through its normal form. */
  lemma AnalyzeFactorsThroughPreprocess(s1: string, s2: string)
    requires Preprocess(s1) == Preprocess(s2)
    ensures Analyze(s1) == Analyze(s2)
  {
  }

  /** Upper- and lower-case spellings score alike. */
  lemma AnalyzeIgnoresCase(s1: string, s2: string)
    requires Lower(s1) == Lower(s2)
    ensures Analyze(s1) == Analyze(s2)
  {
    PreprocessIgnoresCase(s1, s2);
  }

  /** Deleting a punctuation character anywhere does not change the result. */
  lemma AnalyzeIgnoresPunctuation(a: string, c: char, b: string)
    requires !Kept(c)
    ensures Analyze(a + [c] + b) == Analyze(a + b)
  {
    PreprocessIgnoresPunctuation(a, c, b);
  }

  /** A whitespace run of two characters of any kind scores like a single
      space; by repetition, so does any longer run. */
  lemma AnalyzeIgnoresWhitespace(a: string, c: char, d: char, b: string)
    requires IsSpaceChar(c) && IsSpaceChar(d)
    ensures Analyze(a + [c, d] + b) == Analyze(a + [' '] + b)
  {
    PreprocessCollapsesRuns(a, c, d, b);
    var x, y := a + [c] + b, a + [' '] + b;
    assert SameUpToSpaceKind(x, y) by {
      forall i | 0 <= i < |x| ensures x[i] == y[i] || (IsSpaceChar(x[i]) && IsSpaceChar(y[i])) {
        if i != |a| {
          assert x[i] == y[i];
        }
      }
    }
    PreprocessIgnoresSpaceKind(x, y);
  }

  /** An empty normal form scores `Netral` with score 0: no entry of any
      list is empty, so none occurs in it. */
  lemma EmptyTextIsNeutral(raw: string)
    requires Preprocess(raw) == []
    ensures Analyze(raw) == Verdict(Netral, Num(0))
  {
    EmptyTextHitsNothing();
  }

  lemma EmptyTextHitsNothing()
    ensures PositiveScore([]) == 0 && NegativeScore([]) == 0 && !HasNegation([])
  {
    NoPositiveInEmpty();
    NoNegativeInEmpty();
    NoNegationInEmpty();
  }

  lemma NoPositiveInEmpty()
    ensures PositiveScore([]) == 0
  {
    NothingOccursInEmpty(PositiveWords);
  }

  lemma NoNegativeInEmpty()
    ensures NegativeScore([]) == 0
  {
    NothingOccursInEmpty(NegativeWords);
  }

  lemma NoNegationInEmpty()
    ensures !HasNegation([])
  {
    NothingOccursInEmpty(NegationWords);
    HasNegationIff([]);
  }

  lemma NothingOccursInEmpty(entries: seq<string>)
    requires [] !in entries
    ensures CountHits([], entries) == 0
  {
    forall k | 0 <= k < |entries| ensures !Contains([], entries[k]) {
      assert entries[k] in entries;
      ContainsInEmpty(entries[k]);
    }
  }

  /** Text with no word character at all (empty, blank or punctuation only)
      normalises to the empty text, so it is `Netral` with score 0. */
  lemma NoWordCharacterIsNeutral(raw: string)
    requires forall i :: 0 <= i < |raw| ==> !IsWordChar(raw[i])
    ensures Preprocess(raw) == []
    ensures Analyze(raw) == Verdict(Netral, Num(0))
  {
    var k := RemovePunctuation(raw);
    RemovePunctuationDropsWords(raw);
    TrimStartIsSuffix(k);
    assert TrimStart(k) == [];
    assert Words(k) == [];
    PreprocessIsSplitJoin(raw);
    EmptyTextIsNeutral(raw);
  }

  /** Removing punctuation adds no word character. */
  lemma {:induction false} RemovePunctuationDropsWords(raw: string)
    requires forall i :: 0 <= i < |raw| ==> !IsWordChar(raw[i])
    ensures forall i :: 0 <= i < |RemovePunctuation(raw)| ==> IsSpaceChar(RemovePunctuation(raw)[i])
  {
    if raw != [] {
      RemovePunctuationDropsWords(raw[1..]);
    }
  }
}
