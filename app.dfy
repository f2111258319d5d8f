/** The language gate (`detect_language`), the manual-input path that runs
    the scorer only on Indonesian text, and the batch path that applies the
    scorer to every cell of an uploaded column. The statistical language
    detector is not modelled: it is a parameter that either names a
    language or fails. */
module App {
  import opened Normalizer
  import opened Classifier
  import opened Lexicon

  /** What the external detector does with a text: name a language, or
      raise. */
  datatype Detection = Detected(tag: string) | DetectionFailed

  const Unknown: string := "unknown"
  const Indonesian: string := "id"

  /** `not text.strip()`: the text holds nothing but whitespace. */
  predicate IsBlank(raw: string) {
    Strip(raw) == []
  }

  /** `detect_language`: a blank text is `"unknown"` without consulting the
      detector; otherwise the detector's tag, with a failure mapped to
      `"unknown"`. It never fails itself. */
  function DetectLanguage(raw: string, detect: string -> Detection): (tag: string)
    ensures tag == Unknown <==>
      IsBlank(raw) || detect(raw) == DetectionFailed || detect(raw) == Detected(Unknown)
    ensures !IsBlank(raw) && detect(raw).Detected? ==> tag == detect(raw).tag
  {
    if IsBlank(raw) then Unknown
    else match detect(raw) {
      case Detected(t) => t
      case DetectionFailed => Unknown
    }
  }

  /** The detector is not consulted on blank text: any two detectors give
      the same answer there. */
  lemma BlankSkipsDetector(raw: string, d1: string -> Detection, d2: string -> Detection)
    requires IsBlank(raw)
    ensures DetectLanguage(raw, d1) == DetectLanguage(raw, d2) == Unknown
  {
  }

  /** A text is blank exactly when every character is whitespace. */
  lemma {:induction false} IsBlankIff(raw: string)
    ensures IsBlank(raw) <==> forall i :: 0 <= i < |raw| ==> IsSpaceChar(raw[i])
  {
    TrimStartIsSuffix(raw);
    var t := TrimStart(raw);
    if t != [] {
      TrimEndIsPrefix(t);
      assert t[0] == raw[|raw| - |t|];
    }
  }

  /** What the "Analisis Sentimen" button shows. */
  datatype Shown = NothingShown | Shown(verdict: Verdict, lang: string)

  /** The manual path: nothing for an empty text area; otherwise detect the
      language, score Indonesian text and give every other text the
      sentinel `("Tidak Diketahui", "N/A")`. */
  function AnalyzeInput(raw: string, detect: string -> Detection): (r: Shown)
    ensures r == NothingShown <==> raw == []
    ensures r.Shown? ==> r.lang == DetectLanguage(raw, detect)
    ensures r.Shown? && r.lang == Indonesian ==> r.verdict == Analyze(raw)
    ensures r.Shown? && r.lang != Indonesian ==> r.verdict == Verdict(TidakDiketahui, NA)
  {
    if raw == [] then NothingShown
    else
      var lang := DetectLanguage(raw, detect);
      if lang == Indonesian then Shown(Analyze(raw), lang)
      else Shown(Verdict(TidakDiketahui, NA), lang)
  }

  /** The scorer ran exactly when the tag was `"id"`: the sentinel label and
      the `"N/A"` score each appear exactly for other tags. */
  lemma ScoredIffIndonesian(raw: string, detect: string -> Detection)
    requires raw != []
    ensures var r := AnalyzeInput(raw, detect);
      && (r.verdict.sentiment == TidakDiketahui <==> r.lang != Indonesian)
      && (r.verdict.score == NA <==> r.lang != Indonesian)
  {
  }

  /** A non-empty blank input is never scored, whatever the detector. */
  lemma BlankInputIsUnknown(raw: string, detect: string -> Detection)
    requires raw != [] && forall i :: 0 <= i < |raw| ==> IsSpaceChar(raw[i])
    ensures AnalyzeInput(raw, detect) == Shown(Verdict(TidakDiketahui, NA), Unknown)
  {
    IsBlankIff(raw);
  }

  // ---------------------------------------------------------------------
  // Batch path
  // ---------------------------------------------------------------------

  /** A cell of the uploaded column: text, or anything else pandas reads
      (an empty cell becomes NaN, a numeric column holds numbers). */
  datatype Cell = Text(text: string) | NonText

  /** `df[col].apply(analyze_sentiment_id)`: every cell is scored, in order,
      without the language gate. A cell that is not text makes the scorer
      raise, which aborts the whole column. */
  function AnalyzeColumn(cells: seq<Cell>): (r: Option<seq<Verdict>>)
    ensures r.Some? ==> |r.value| == |cells|
  {
    if cells == [] then Some([])
    else match cells[0] {
      case NonText => None
      case Text(t) =>
        match AnalyzeColumn(cells[1..]) {
          case None => None
          case Some(rest) => Some([Analyze(t)] + rest)
        }
    }
  }

  predicate HasNonText(cells: seq<Cell>) {
    exists i :: 0 <= i < |cells| && cells[i].NonText?
  }

  /** A list holds a non-text cell when its head is one or its tail holds
      one. */
  lemma HasNonTextCons(cells: seq<Cell>)
    requires cells != []
    ensures HasNonText(cells) <==> cells[0].NonText? || HasNonText(cells[1..])
  {
    if HasNonText(cells) && !cells[0].NonText? {
      var i :| 0 <= i < |cells| && cells[i].NonText?;
      assert cells[1..][i - 1] == cells[i];
    }
    if HasNonText(cells[1..]) {
      var i :| 0 <= i < |cells[1..]| && cells[1..][i].NonText?;
      assert cells[i + 1] == cells[1..][i];
    }
  }

  /** The column fails exactly when some cell is not text. */
  lemma {:induction false} AnalyzeColumnFailsIffNonText(cells: seq<Cell>)
    ensures AnalyzeColumn(cells).None? <==> HasNonText(cells)
  {
    if cells != [] {
      HasNonTextCons(cells);
      AnalyzeColumnFailsIffNonText(cells[1..]);
    }
  }

  /** When the column succeeds, its `i`-th verdict is the score of the
      `i`-th cell. */
  lemma {:induction false} AnalyzeColumnScoresEachCell(cells: seq<Cell>)
    requires AnalyzeColumn(cells).Some?
    ensures forall i :: 0 <= i < |cells| ==>
      cells[i].Text? && AnalyzeColumn(cells).value[i] == Analyze(cells[i].text)
  {
    if cells != [] {
      var rest := AnalyzeColumn(cells[1..]).value;
      AnalyzeColumnScoresEachCell(cells[1..]);
      forall i | 0 < i < |cells|
        ensures cells[i].Text? && AnalyzeColumn(cells).value[i] == Analyze(cells[i].text)
      {
        assert cells[i] == cells[1..][i - 1];
        assert AnalyzeColumn(cells).value[i] == rest[i - 1];
      }
    }
  }
}
