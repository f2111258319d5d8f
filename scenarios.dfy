/** Worked inputs for the scorer, each proved for its one text. The
    lemmas state outright which list entries occur in the normal form, so
    that the counts and the verdict follow; each is proved from the general
    facts about containment in the Lexicon module. */
module Scenarios {
  import opened Normalizer
  import opened Lexicon
  import opened Classifier

  // ---------------------------------------------------------------------
  // Case, punctuation and whitespace
  // ---------------------------------------------------------------------

  /** Deleting the three `!` leaves the scorer's input unchanged. */
  lemma ShoutedDropsPunctuation(raw: string, up: string)
    requires raw == "BAGUS!!!" && up == "BAGUS"
    ensures Analyze(raw) == Analyze(up)
  {
    assert raw == up + ['!'] + "!!";
    assert up + "!!" == up + ['!'] + "!";
    assert up + "!" == up + ['!'] + "";
    assert up + "" == up;
    AnalyzeIgnoresPunctuation(up, '!', "!!");
    AnalyzeIgnoresPunctuation(up, '!', "!");
    AnalyzeIgnoresPunctuation(up, '!', "");
  }

  /** Upper case scores like lower case. */
  lemma ShoutedIgnoresCase(up: string, low: string)
    requires up == "BAGUS" && low == "bagus"
    ensures Analyze(up) == Analyze(low)
  {
    assert Lower(up) == Lower(low);
    AnalyzeIgnoresCase(up, low);
  }

  /** `"BAGUS!!!"` scores exactly like `"bagus"`: each `!` is deleted and
      the letters are lowercased. */
  lemma ShoutedBagusExample(raw: string)
    requires raw == "BAGUS!!!"
    ensures Analyze(raw) == Verdict(Positif, Num(1))
  {
    var up, low := "BAGUS", "bagus";
    ShoutedDropsPunctuation(raw, up);
    ShoutedIgnoresCase(up, low);
    BagusExample(low);
  }

  lemma LuarBiasaNormal(t: string)
    requires t == "luar biasa"
    ensures Preprocess(t) == t
  {
    NormalizedIsFixpoint(t);
  }

  /** A newline followed by a tab collapses to one space, so the phrase
      entry `"luar biasa"` matches. */
  lemma WhitespaceRunJoinsPhraseExample(raw: string)
    requires raw == "luar\n\tbiasa"
    ensures Preprocess(raw) == "luar biasa"
    ensures Contains(Preprocess(raw), "luar biasa")
  {
    var a, b, y := "luar", "biasa", "luar biasa";
    var x := a + ['\n'] + b;
    assert raw == a + ['\n', '\t'] + b;
    assert y == "" + y + "";
    assert SameUpToSpaceKind(x, y) by {
      forall i | 0 <= i < |x| ensures x[i] == y[i] || (IsSpaceChar(x[i]) && IsSpaceChar(y[i])) {
        if i != 4 {
          assert x[i] == y[i];
        }
      }
    }
    PreprocessCollapsesRuns(a, '\n', '\t', b);
    PreprocessIgnoresSpaceKind(x, y);
    LuarBiasaNormal(y);
    ContainsInfix(y, "", y, "");
  }

  lemma TerimakasihNormal(t: string)
    requires t == "terimakasih"
    ensures Preprocess(t) == t
  {
    NormalizedIsFixpoint(t);
  }

  lemma TerimakasihLacksPhrase(t: string, p: string)
    requires t == "terimakasih" && p == "terima kasih"
    ensures !Contains(t, p)
  {
    NotContainsMissingChar(t, p, ' ');
  }

  lemma HyphenDeleted(raw: string, a: string, b: string)
    requires raw == "terima-kasih" && a == "terima" && b == "kasih"
    ensures Preprocess(raw) == Preprocess(a + b)
  {
    assert raw == a + ['-'] + b;
    PreprocessIgnoresPunctuation(a, '-', b);
  }

  /** The hyphen is deleted, not turned into a space, so `"terima-kasih"`
      does not match the phrase entry `"terima kasih"`. */
  lemma HyphenBreaksPhraseExample(raw: string)
    requires raw == "terima-kasih"
    ensures Preprocess(raw) == "terimakasih"
    ensures !Contains(Preprocess(raw), "terima kasih")
  {
    var a, b, t := "terima", "kasih", "terimakasih";
    assert a + b == t;
    HyphenDeleted(raw, a, b);
    TerimakasihNormal(t);
    TerimakasihLacksPhrase(t, "terima kasih");
  }

  // ---------------------------------------------------------------------
  // Overlapping entries
  // ---------------------------------------------------------------------

  /** `"bagus sekali"` contains the entry `"bagus"` as well, and both count. */
  lemma PhraseAlsoHitsItsWordExample(t: string)
    requires t == "bagus sekali"
    ensures HitSet(t, PositiveWords) == {"bagus", "bagus sekali"}
    ensures PositiveScore(t) == 2
  {
    var hits: set<string> := {"bagus", "bagus sekali"};
    assert |hits| == 2;
    BagusSekaliPositiveHits(t);
    PositiveScoreCountsEntries(t);
  }

  // ---------------------------------------------------------------------
  // The text "bagus": which entries it contains, and its verdict
  // ---------------------------------------------------------------------

  lemma BagusLacksBaik(t: string)
    requires t == "bagus"
    ensures !Contains(t, "baik")
  {
    NotContainsMissingChar(t, "baik", 'i');
  }

  lemma BagusLacksPuas(t: string)
    requires t == "bagus"
    ensures !Contains(t, "puas")
  {
    NotContainsMissingChar(t, "puas", 'p');
  }

  lemma BagusLacksHebat(t: string)
    requires t == "bagus"
    ensures !Contains(t, "hebat")
  {
    NotContainsMissingChar(t, "hebat", 'h');
  }

  lemma BagusHasBagus(t: string)
    requires t == "bagus"
    ensures Contains(t, "bagus")
  {
    assert t == "" + "bagus" + "";
    ContainsInfix(t, "", "bagus", "");
  }

  lemma BagusLacksIndah(t: string)
    requires t == "bagus"
    ensures !Contains(t, "indah")
  {
    NotContainsMissingChar(t, "indah", 'i');
  }

  lemma BagusLacksTerimaKasih(t: string)
    requires t == "bagus"
    ensures !Contains(t, "terima kasih")
  {
    NotContainsLonger(t, "terima kasih");
  }

  lemma BagusLacksSenang(t: string)
    requires t == "bagus"
    ensures !Contains(t, "senang")
  {
    NotContainsLonger(t, "senang");
  }

  lemma BagusLacksSuka(t: string)
    requires t == "bagus"
    ensures !Contains(t, "suka")
  {
    NotContainsMissingChar(t, "suka", 'k');
  }

  lemma BagusLacksLuarBiasa(t: string)
    requires t == "bagus"
    ensures !Contains(t, "luar biasa")
  {
    NotContainsLonger(t, "luar biasa");
  }

  lemma BagusLacksMemuaskan(t: string)
    requires t == "bagus"
    ensures !Contains(t, "memuaskan")
  {
    NotContainsLonger(t, "memuaskan");
  }

  lemma BagusLacksRamah(t: string)
    requires t == "bagus"
    ensures !Contains(t, "ramah")
  {
    NotContainsMissingChar(t, "ramah", 'r');
  }

  lemma BagusLacksCepat(t: string)
    requires t == "bagus"
    ensures !Contains(t, "cepat")
  {
    NotContainsMissingChar(t, "cepat", 'c');
  }

  lemma BagusLacksMantap(t: string)
    requires t == "bagus"
    ensures !Contains(t, "mantap")
  {
    NotContainsLonger(t, "mantap");
  }

  lemma BagusLacksBagusSekali(t: string)
    requires t == "bagus"
    ensures !Contains(t, "bagus sekali")
  {
    NotContainsLonger(t, "bagus sekali");
  }

  lemma BagusLacksMenyenangkan(t: string)
    requires t == "bagus"
    ensures !Contains(t, "menyenangkan")
  {
    NotContainsLonger(t, "menyenangkan");
  }

  lemma BagusLacksBuruk(t: string)
    requires t == "bagus"
    ensures !Contains(t, "buruk")
  {
    NotContainsMissingChar(t, "buruk", 'r');
  }

  lemma BagusLacksJelek(t: string)
    requires t == "bagus"
    ensures !Contains(t, "jelek")
  {
    NotContainsMissingChar(t, "jelek", 'j');
  }

  lemma BagusLacksKecewa(t: string)
    requires t == "bagus"
    ensures !Contains(t, "kecewa")
  {
    NotContainsLonger(t, "kecewa");
  }

  lemma BagusLacksBenci(t: string)
    requires t == "bagus"
    ensures !Contains(t, "benci")
  {
    NotContainsMissingChar(t, "benci", 'e');
  }

  lemma BagusLacksSedih(t: string)
    requires t == "bagus"
    ensures !Contains(t, "sedih")
  {
    NotContainsMissingChar(t, "sedih", 'e');
  }

  lemma BagusLacksMarah(t: string)
    requires t == "bagus"
    ensures !Contains(t, "marah")
  {
    NotContainsMissingChar(t, "marah", 'm');
  }

  lemma BagusLacksTidakPuas(t: string)
    requires t == "bagus"
    ensures !Contains(t, "tidak puas")
  {
    NotContainsLonger(t, "tidak puas");
  }

  lemma BagusLacksPayah(t: string)
    requires t == "bagus"
    ensures !Contains(t, "payah")
  {
    NotContainsMissingChar(t, "payah", 'p');
  }

  lemma BagusLacksMengecewakan(t: string)
    requires t == "bagus"
    ensures !Contains(t, "mengecewakan")
  {
    NotContainsLonger(t, "mengecewakan");
  }

  lemma BagusLacksParah(t: string)
    requires t == "bagus"
    ensures !Contains(t, "parah")
  {
    NotContainsMissingChar(t, "parah", 'p');
  }

  lemma BagusLacksLambat(t: string)
    requires t == "bagus"
    ensures !Contains(t, "lambat")
  {
    NotContainsLonger(t, "lambat");
  }

  lemma BagusLacksSombong(t: string)
    requires t == "bagus"
    ensures !Contains(t, "sombong")
  {
    NotContainsLonger(t, "sombong");
  }

  lemma BagusLacksMelelahkan(t: string)
    requires t == "bagus"
    ensures !Contains(t, "melelahkan")
  {
    NotContainsLonger(t, "melelahkan");
  }

  lemma BagusLacksTidakRamah(t: string)
    requires t == "bagus"
    ensures !Contains(t, "tidak ramah")
  {
    NotContainsLonger(t, "tidak ramah");
  }

  lemma BagusLacksParahSekali(t: string)
    requires t == "bagus"
    ensures !Contains(t, "parah sekali")
  {
    NotContainsLonger(t, "parah sekali");
  }

  lemma BagusLacksGagal(t: string)
    requires t == "bagus"
    ensures !Contains(t, "gagal")
  {
    NotContainsMissingChar(t, "gagal", 'l');
  }

  lemma BagusLacksKesal(t: string)
    requires t == "bagus"
    ensures !Contains(t, "kesal")
  {
    NotContainsMissingChar(t, "kesal", 'k');
  }

  lemma BagusLacksTidak(t: string)
    requires t == "bagus"
    ensures !Contains(t, "tidak")
  {
    NotContainsMissingChar(t, "tidak", 't');
  }

  lemma BagusLacksBukan(t: string)
    requires t == "bagus"
    ensures !Contains(t, "bukan")
  {
    NotContainsMissingChar(t, "bukan", 'k');
  }

  lemma BagusLacksKurang(t: string)
    requires t == "bagus"
    ensures !Contains(t, "kurang")
  {
    NotContainsLonger(t, "kurang");
  }

  lemma BagusLacksJangan(t: string)
    requires t == "bagus"
    ensures !Contains(t, "jangan")
  {
    NotContainsLonger(t, "jangan");
  }

  lemma BagusPositiveHitsFrom(t: string)
    requires !Contains(t, "baik")
    requires !Contains(t, "puas")
    requires !Contains(t, "hebat")
    requires Contains(t, "bagus")
    requires !Contains(t, "indah")
    requires !Contains(t, "terima kasih")
    requires !Contains(t, "senang")
    requires !Contains(t, "suka")
    requires !Contains(t, "luar biasa")
    requires !Contains(t, "memuaskan")
    requires !Contains(t, "ramah")
    requires !Contains(t, "cepat")
    requires !Contains(t, "mantap")
    requires !Contains(t, "bagus sekali")
    requires !Contains(t, "menyenangkan")
    ensures HitSet(t, PositiveWords) == {"bagus"}
  {
  }

  lemma BagusPositiveHits(t: string)
    requires t == "bagus"
    ensures HitSet(t, PositiveWords) == {"bagus"}
  {
    BagusLacksBaik(t);
    BagusLacksPuas(t);
    BagusLacksHebat(t);
    BagusHasBagus(t);
    BagusLacksIndah(t);
    BagusLacksTerimaKasih(t);
    BagusLacksSenang(t);
    BagusLacksSuka(t);
    BagusLacksLuarBiasa(t);
    BagusLacksMemuaskan(t);
    BagusLacksRamah(t);
    BagusLacksCepat(t);
    BagusLacksMantap(t);
    BagusLacksBagusSekali(t);
    BagusLacksMenyenangkan(t);
    BagusPositiveHitsFrom(t);
  }

  lemma BagusNegativeHitsFrom(t: string)
    requires !Contains(t, "buruk")
    requires !Contains(t, "jelek")
    requires !Contains(t, "kecewa")
    requires !Contains(t, "benci")
    requires !Contains(t, "sedih")
    requires !Contains(t, "marah")
    requires !Contains(t, "tidak puas")
    requires !Contains(t, "payah")
    requires !Contains(t, "mengecewakan")
    requires !Contains(t, "parah")
    requires !Contains(t, "lambat")
    requires !Contains(t, "sombong")
    requires !Contains(t, "melelahkan")
    requires !Contains(t, "tidak ramah")
    requires !Contains(t, "parah sekali")
    requires !Contains(t, "gagal")
    requires !Contains(t, "kesal")
    ensures HitSet(t, NegativeWords) == {}
  {
  }

  lemma BagusNegativeHits(t: string)
    requires t == "bagus"
    ensures HitSet(t, NegativeWords) == {}
  {
    BagusLacksBuruk(t);
    BagusLacksJelek(t);
    BagusLacksKecewa(t);
    BagusLacksBenci(t);
    BagusLacksSedih(t);
    BagusLacksMarah(t);
    BagusLacksTidakPuas(t);
    BagusLacksPayah(t);
    BagusLacksMengecewakan(t);
    BagusLacksParah(t);
    BagusLacksLambat(t);
    BagusLacksSombong(t);
    BagusLacksMelelahkan(t);
    BagusLacksTidakRamah(t);
    BagusLacksParahSekali(t);
    BagusLacksGagal(t);
    BagusLacksKesal(t);
    BagusNegativeHitsFrom(t);
  }

  lemma BagusNegated(t: string)
    requires t == "bagus"
    ensures !HasNegation(t)
  {
    BagusLacksTidak(t);
    BagusLacksBukan(t);
    BagusLacksKurang(t);
    BagusLacksJangan(t);
    BagusLacksGagal(t);
    HasNegationIff(t);
  }

  lemma BagusNormal(t: string)
    requires t == "bagus"
    ensures Preprocess(t) == t
  {
    NormalizedIsFixpoint(t);
  }

  /** One positive entry and no negation: positive, score 1. */
  lemma BagusExample(t: string)
    requires t == "bagus"
    ensures HitSet(t, PositiveWords) == {"bagus"}
    ensures HitSet(t, NegativeWords) == {}
    ensures Analyze(t) == Verdict(Positif, Num(1))
  {
    BagusNormal(t);
    BagusPositiveHits(t);
    BagusNegativeHits(t);
    BagusNegated(t);
    AnalyzeFromHits(t, {"bagus"}, {}, false);
  }

  // ---------------------------------------------------------------------
  // The text "tidak bagus": which entries it contains, and its verdict
  // ---------------------------------------------------------------------

  /** A spaceless pattern absent from every word of "tidak bagus" is absent from it. */
  lemma TidakBagusLacks(t: string, p: string)
    requires t == "tidak bagus"
    requires p != [] && ' ' !in p
    requires !Contains("tidak", p)
    requires !Contains("bagus", p)
    ensures !Contains(t, p)
  {
    var t1 := "bagus";
    var t0 := "tidak" + [' '] + t1;
    NotContainsSplit(t0, "tidak", ' ', t1, p);
    assert t0 == t;
  }

  lemma TidakBagusLacksBaik(t: string)
    requires t == "tidak bagus"
    ensures !Contains(t, "baik")
  {
    var w0 := "tidak";
    var w1 := "bagus";
    NotContainsMissingChar(w0, "baik", 'b');
    NotContainsMissingChar(w1, "baik", 'i');
    TidakBagusLacks(t, "baik");
  }

  lemma TidakBagusLacksPuas(t: string)
    requires t == "tidak bagus"
    ensures !Contains(t, "puas")
  {
    NotContainsMissingChar(t, "puas", 'p');
  }

  lemma TidakBagusLacksHebat(t: string)
    requires t == "tidak bagus"
    ensures !Contains(t, "hebat")
  {
    NotContainsMissingChar(t, "hebat", 'h');
  }

  lemma TidakBagusHasBagus(t: string)
    requires t == "tidak bagus"
    ensures Contains(t, "bagus")
  {
    assert t == "tidak " + "bagus" + "";
    ContainsInfix(t, "tidak ", "bagus", "");
  }

  lemma TidakBagusLacksIndah(t: string)
    requires t == "tidak bagus"
    ensures !Contains(t, "indah")
  {
    NotContainsMissingChar(t, "indah", 'n');
  }

  lemma TidakBagusLacksTerimaKasih(t: string)
    requires t == "tidak bagus"
    ensures !Contains(t, "terima kasih")
  {
    NotContainsLonger(t, "terima kasih");
  }

  lemma TidakBagusLacksSenang(t: string)
    requires t == "tidak bagus"
    ensures !Contains(t, "senang")
  {
    NotContainsMissingChar(t, "senang", 'e');
  }

  lemma TidakBagusLacksSuka(t: string)
    requires t == "tidak bagus"
    ensures !Contains(t, "suka")
  {
    var w0 := "tidak";
    var w1 := "bagus";
    NotContainsMissingChar(w0, "suka", 's');
    NotContainsMissingChar(w1, "suka", 'k');
    TidakBagusLacks(t, "suka");
  }

  lemma TidakBagusLacksLuarBiasa(t: string)
    requires t == "tidak bagus"
    ensures !Contains(t, "luar biasa")
  {
    NotContainsMissingChar(t, "luar biasa", 'l');
  }

  lemma TidakBagusLacksMemuaskan(t: string)
    requires t == "tidak bagus"
    ensures !Contains(t, "memuaskan")
  {
    NotContainsMissingChar(t, "memuaskan", 'm');
  }

  lemma TidakBagusLacksRamah(t: string)
    requires t == "tidak bagus"
    ensures !Contains(t, "ramah")
  {
    NotContainsMissingChar(t, "ramah", 'r');
  }

  lemma TidakBagusLacksCepat(t: string)
    requires t == "tidak bagus"
    ensures !Contains(t, "cepat")
  {
    NotContainsMissingChar(t, "cepat", 'c');
  }

  lemma TidakBagusLacksMantap(t: string)
    requires t == "tidak bagus"
    ensures !Contains(t, "mantap")
  {
    NotContainsMissingChar(t, "mantap", 'm');
  }

  lemma TidakBagusLacksBagusSekali(t: string)
    requires t == "tidak bagus"
    ensures !Contains(t, "bagus sekali")
  {
    NotContainsLonger(t, "bagus sekali");
  }

  lemma TidakBagusLacksMenyenangkan(t: string)
    requires t == "tidak bagus"
    ensures !Contains(t, "menyenangkan")
  {
    NotContainsLonger(t, "menyenangkan");
  }

  lemma TidakBagusLacksBuruk(t: string)
    requires t == "tidak bagus"
    ensures !Contains(t, "buruk")
  {
    NotContainsMissingChar(t, "buruk", 'r');
  }

  lemma TidakBagusLacksJelek(t: string)
    requires t == "tidak bagus"
    ensures !Contains(t, "jelek")
  {
    NotContainsMissingChar(t, "jelek", 'j');
  }

  lemma TidakBagusLacksKecewa(t: string)
    requires t == "tidak bagus"
    ensures !Contains(t, "kecewa")
  {
    NotContainsMissingChar(t, "kecewa", 'e');
  }

  lemma TidakBagusLacksBenci(t: string)
    requires t == "tidak bagus"
    ensures !Contains(t, "benci")
  {
    NotContainsMissingChar(t, "benci", 'e');
  }

  lemma TidakBagusLacksSedih(t: string)
    requires t == "tidak bagus"
    ensures !Contains(t, "sedih")
  {
    NotContainsMissingChar(t, "sedih", 'e');
  }

  lemma TidakBagusLacksMarah(t: string)
    requires t == "tidak bagus"
    ensures !Contains(t, "marah")
  {
    NotContainsMissingChar(t, "marah", 'm');
  }

  lemma TidakBagusLacksTidakPuas(t: string)
    requires t == "tidak bagus"
    ensures !Contains(t, "tidak puas")
  {
    NotContainsMissingChar(t, "tidak puas", 'p');
  }

  lemma TidakBagusLacksPayah(t: string)
    requires t == "tidak bagus"
    ensures !Contains(t, "payah")
  {
    NotContainsMissingChar(t, "payah", 'p');
  }

  lemma TidakBagusLacksMengecewakan(t: string)
    requires t == "tidak bagus"
    ensures !Contains(t, "mengecewakan")
  {
    NotContainsLonger(t, "mengecewakan");
  }

  lemma TidakBagusLacksParah(t: string)
    requires t == "tidak bagus"
    ensures !Contains(t, "parah")
  {
    NotContainsMissingChar(t, "parah", 'p');
  }

  lemma TidakBagusLacksLambat(t: string)
    requires t == "tidak bagus"
    ensures !Contains(t, "lambat")
  {
    NotContainsMissingChar(t, "lambat", 'l');
  }

  lemma TidakBagusLacksSombong(t: string)
    requires t == "tidak bagus"
    ensures !Contains(t, "sombong")
  {
    NotContainsMissingChar(t, "sombong", 'o');
  }

  lemma TidakBagusLacksMelelahkan(t: string)
    requires t == "tidak bagus"
    ensures !Contains(t, "melelahkan")
  {
    NotContainsMissingChar(t, "melelahkan", 'm');
  }

  lemma TidakBagusLacksTidakRamah(t: string)
    requires t == "tidak bagus"
    ensures !Contains(t, "tidak ramah")
  {
    NotContainsMissingChar(t, "tidak ramah", 'r');
  }

  lemma TidakBagusLacksParahSekali(t: string)
    requires t == "tidak bagus"
    ensures !Contains(t, "parah sekali")
  {
    NotContainsLonger(t, "parah sekali");
  }

  lemma TidakBagusLacksGagal(t: string)
    requires t == "tidak bagus"
    ensures !Contains(t, "gagal")
  {
    NotContainsMissingChar(t, "gagal", 'l');
  }

  lemma TidakBagusLacksKesal(t: string)
    requires t == "tidak bagus"
    ensures !Contains(t, "kesal")
  {
    NotContainsMissingChar(t, "kesal", 'e');
  }

  lemma TidakBagusHasTidak(t: string)
    requires t == "tidak bagus"
    ensures Contains(t, "tidak")
  {
    assert t == "" + "tidak" + " bagus";
    ContainsInfix(t, "", "tidak", " bagus");
  }

  lemma TidakBagusLacksBukan(t: string)
    requires t == "tidak bagus"
    ensures !Contains(t, "bukan")
  {
    NotContainsMissingChar(t, "bukan", 'n');
  }

  lemma TidakBagusLacksKurang(t: string)
    requires t == "tidak bagus"
    ensures !Contains(t, "kurang")
  {
    NotContainsMissingChar(t, "kurang", 'r');
  }

  lemma TidakBagusLacksJangan(t: string)
    requires t == "tidak bagus"
    ensures !Contains(t, "jangan")
  {
    NotContainsMissingChar(t, "jangan", 'j');
  }

  lemma TidakBagusPositiveHitsFrom(t: string)
    requires !Contains(t, "baik")
    requires !Contains(t, "puas")
    requires !Contains(t, "hebat")
    requires Contains(t, "bagus")
    requires !Contains(t, "indah")
    requires !Contains(t, "terima kasih")
    requires !Contains(t, "senang")
    requires !Contains(t, "suka")
    requires !Contains(t, "luar biasa")
    requires !Contains(t, "memuaskan")
    requires !Contains(t, "ramah")
    requires !Contains(t, "cepat")
    requires !Contains(t, "mantap")
    requires !Contains(t, "bagus sekali")
    requires !Contains(t, "menyenangkan")
    ensures HitSet(t, PositiveWords) == {"bagus"}
  {
  }

  lemma TidakBagusPositiveHits(t: string)
    requires t == "tidak bagus"
    ensures HitSet(t, PositiveWords) == {"bagus"}
  {
    TidakBagusLacksBaik(t);
    TidakBagusLacksPuas(t);
    TidakBagusLacksHebat(t);
    TidakBagusHasBagus(t);
    TidakBagusLacksIndah(t);
    TidakBagusLacksTerimaKasih(t);
    TidakBagusLacksSenang(t);
    TidakBagusLacksSuka(t);
    TidakBagusLacksLuarBiasa(t);
    TidakBagusLacksMemuaskan(t);
    TidakBagusLacksRamah(t);
    TidakBagusLacksCepat(t);
    TidakBagusLacksMantap(t);
    TidakBagusLacksBagusSekali(t);
    TidakBagusLacksMenyenangkan(t);
    TidakBagusPositiveHitsFrom(t);
  }

  lemma TidakBagusNegativeHitsFrom(t: string)
    requires !Contains(t, "buruk")
    requires !Contains(t, "jelek")
    requires !Contains(t, "kecewa")
    requires !Contains(t, "benci")
    requires !Contains(t, "sedih")
    requires !Contains(t, "marah")
    requires !Contains(t, "tidak puas")
    requires !Contains(t, "payah")
    requires !Contains(t, "mengecewakan")
    requires !Contains(t, "parah")
    requires !Contains(t, "lambat")
    requires !Contains(t, "sombong")
    requires !Contains(t, "melelahkan")
    requires !Contains(t, "tidak ramah")
    requires !Contains(t, "parah sekali")
    requires !Contains(t, "gagal")
    requires !Contains(t, "kesal")
    ensures HitSet(t, NegativeWords) == {}
  {
  }

  lemma TidakBagusNegativeHits(t: string)
    requires t == "tidak bagus"
    ensures HitSet(t, NegativeWords) == {}
  {
    TidakBagusLacksBuruk(t);
    TidakBagusLacksJelek(t);
    TidakBagusLacksKecewa(t);
    TidakBagusLacksBenci(t);
    TidakBagusLacksSedih(t);
    TidakBagusLacksMarah(t);
    TidakBagusLacksTidakPuas(t);
    TidakBagusLacksPayah(t);
    TidakBagusLacksMengecewakan(t);
    TidakBagusLacksParah(t);
    TidakBagusLacksLambat(t);
    TidakBagusLacksSombong(t);
    TidakBagusLacksMelelahkan(t);
    TidakBagusLacksTidakRamah(t);
    TidakBagusLacksParahSekali(t);
    TidakBagusLacksGagal(t);
    TidakBagusLacksKesal(t);
    TidakBagusNegativeHitsFrom(t);
  }

  lemma TidakBagusNegated(t: string)
    requires t == "tidak bagus"
    ensures HasNegation(t)
  {
    TidakBagusHasTidak(t);
    TidakBagusLacksBukan(t);
    TidakBagusLacksKurang(t);
    TidakBagusLacksJangan(t);
    TidakBagusLacksGagal(t);
    HasNegationIff(t);
  }

  lemma TidakBagusNormal(t: string)
    requires t == "tidak bagus"
    ensures Preprocess(t) == t
  {
    NormalizedIsFixpoint(t);
  }

  /** A negation marker makes the verdict negative with score -1, whatever the counts. */
  lemma TidakBagusExample(t: string)
    requires t == "tidak bagus"
    ensures HitSet(t, PositiveWords) == {"bagus"}
    ensures HitSet(t, NegativeWords) == {}
    ensures Analyze(t) == Verdict(Negatif, Num(-1))
  {
    TidakBagusNormal(t);
    TidakBagusPositiveHits(t);
    TidakBagusNegativeHits(t);
    TidakBagusNegated(t);
    AnalyzeFromHits(t, {"bagus"}, {}, true);
  }

  // ---------------------------------------------------------------------
  // The text "bagus tapi jelek": which entries it contains, and its verdict
  // ---------------------------------------------------------------------

  /** A spaceless pattern absent from every word of "bagus tapi jelek" is absent from it. */
  lemma MixedLacks(t: string, p: string)
    requires t == "bagus tapi jelek"
    requires p != [] && ' ' !in p
    requires !Contains("bagus", p)
    requires !Contains("tapi", p)
    requires !Contains("jelek", p)
    ensures !Contains(t, p)
  {
    var t2 := "jelek";
    var t1 := "tapi" + [' '] + t2;
    NotContainsSplit(t1, "tapi", ' ', t2, p);
    var t0 := "bagus" + [' '] + t1;
    NotContainsSplit(t0, "bagus", ' ', t1, p);
    assert t0 == t;
  }

  lemma MixedLacksBaik(t: string)
    requires t == "bagus tapi jelek"
    ensures !Contains(t, "baik")
  {
    var w0 := "bagus";
    var w1 := "tapi";
    var w2 := "jelek";
    NotContainsMissingChar(w0, "baik", 'i');
    NotContainsMissingChar(w1, "baik", 'b');
    NotContainsMissingChar(w2, "baik", 'b');
    MixedLacks(t, "baik");
  }

  lemma MixedLacksPuas(t: string)
    requires t == "bagus tapi jelek"
    ensures !Contains(t, "puas")
  {
    var w0 := "bagus";
    var w1 := "tapi";
    var w2 := "jelek";
    NotContainsMissingChar(w0, "puas", 'p');
    NotContainsMissingChar(w1, "puas", 'u');
    NotContainsMissingChar(w2, "puas", 'p');
    MixedLacks(t, "puas");
  }

  lemma MixedLacksHebat(t: string)
    requires t == "bagus tapi jelek"
    ensures !Contains(t, "hebat")
  {
    NotContainsMissingChar(t, "hebat", 'h');
  }

  lemma MixedHasBagus(t: string)
    requires t == "bagus tapi jelek"
    ensures Contains(t, "bagus")
  {
    assert t == "" + "bagus" + " tapi jelek";
    ContainsInfix(t, "", "bagus", " tapi jelek");
  }

  lemma MixedLacksIndah(t: string)
    requires t == "bagus tapi jelek"
    ensures !Contains(t, "indah")
  {
    NotContainsMissingChar(t, "indah", 'n');
  }

  lemma MixedLacksTerimaKasih(t: string)
    requires t == "bagus tapi jelek"
    ensures !Contains(t, "terima kasih")
  {
    NotContainsMissingChar(t, "terima kasih", 'r');
  }

  lemma MixedLacksSenang(t: string)
    requires t == "bagus tapi jelek"
    ensures !Contains(t, "senang")
  {
    NotContainsMissingChar(t, "senang", 'n');
  }

  lemma MixedLacksSuka(t: string)
    requires t == "bagus tapi jelek"
    ensures !Contains(t, "suka")
  {
    var w0 := "bagus";
    var w1 := "tapi";
    var w2 := "jelek";
    NotContainsMissingChar(w0, "suka", 'k');
    NotContainsMissingChar(w1, "suka", 's');
    NotContainsMissingChar(w2, "suka", 's');
    MixedLacks(t, "suka");
  }

  lemma MixedLacksLuarBiasa(t: string)
    requires t == "bagus tapi jelek"
    ensures !Contains(t, "luar biasa")
  {
    NotContainsMissingChar(t, "luar biasa", 'r');
  }

  lemma MixedLacksMemuaskan(t: string)
    requires t == "bagus tapi jelek"
    ensures !Contains(t, "memuaskan")
  {
    NotContainsMissingChar(t, "memuaskan", 'm');
  }

  lemma MixedLacksRamah(t: string)
    requires t == "bagus tapi jelek"
    ensures !Contains(t, "ramah")
  {
    NotContainsMissingChar(t, "ramah", 'r');
  }

  lemma MixedLacksCepat(t: string)
    requires t == "bagus tapi jelek"
    ensures !Contains(t, "cepat")
  {
    NotContainsMissingChar(t, "cepat", 'c');
  }

  lemma MixedLacksMantap(t: string)
    requires t == "bagus tapi jelek"
    ensures !Contains(t, "mantap")
  {
    NotContainsMissingChar(t, "mantap", 'm');
  }

  lemma MixedLacksBagusSekali(t: string)
    requires t == "bagus tapi jelek"
    ensures !Contains(t, "bagus sekali")
  {
    var w0 := "bagus";
    var w1 := "tapi";
    var w2 := "jelek";
    NotContainsLonger(w0, "sekali");
    NotContainsLonger(w1, "sekali");
    NotContainsLonger(w2, "sekali");
    MixedLacks(t, "sekali");
    ContainsInfix("bagus sekali", "bagus ", "sekali", "");
    NotContainsMissingPiece(t, "bagus sekali", "sekali");
  }

  lemma MixedLacksMenyenangkan(t: string)
    requires t == "bagus tapi jelek"
    ensures !Contains(t, "menyenangkan")
  {
    NotContainsMissingChar(t, "menyenangkan", 'm');
  }

  lemma MixedLacksBuruk(t: string)
    requires t == "bagus tapi jelek"
    ensures !Contains(t, "buruk")
  {
    NotContainsMissingChar(t, "buruk", 'r');
  }

  lemma MixedHasJelek(t: string)
    requires t == "bagus tapi jelek"
    ensures Contains(t, "jelek")
  {
    assert t == "bagus tapi " + "jelek" + "";
    ContainsInfix(t, "bagus tapi ", "jelek", "");
  }

  lemma MixedLacksKecewa(t: string)
    requires t == "bagus tapi jelek"
    ensures !Contains(t, "kecewa")
  {
    NotContainsMissingChar(t, "kecewa", 'c');
  }

  lemma MixedLacksBenci(t: string)
    requires t == "bagus tapi jelek"
    ensures !Contains(t, "benci")
  {
    NotContainsMissingChar(t, "benci", 'n');
  }

  lemma MixedLacksSedih(t: string)
    requires t == "bagus tapi jelek"
    ensures !Contains(t, "sedih")
  {
    NotContainsMissingChar(t, "sedih", 'd');
  }

  lemma MixedLacksMarah(t: string)
    requires t == "bagus tapi jelek"
    ensures !Contains(t, "marah")
  {
    NotContainsMissingChar(t, "marah", 'm');
  }

  lemma MixedLacksTidakPuas(t: string)
    requires t == "bagus tapi jelek"
    ensures !Contains(t, "tidak puas")
  {
    NotContainsMissingChar(t, "tidak puas", 'd');
  }

  lemma MixedLacksPayah(t: string)
    requires t == "bagus tapi jelek"
    ensures !Contains(t, "payah")
  {
    NotContainsMissingChar(t, "payah", 'y');
  }

  lemma MixedLacksMengecewakan(t: string)
    requires t == "bagus tapi jelek"
    ensures !Contains(t, "mengecewakan")
  {
    NotContainsMissingChar(t, "mengecewakan", 'm');
  }

  lemma MixedLacksParah(t: string)
    requires t == "bagus tapi jelek"
    ensures !Contains(t, "parah")
  {
    NotContainsMissingChar(t, "parah", 'r');
  }

  lemma MixedLacksLambat(t: string)
    requires t == "bagus tapi jelek"
    ensures !Contains(t, "lambat")
  {
    NotContainsMissingChar(t, "lambat", 'm');
  }

  lemma MixedLacksSombong(t: string)
    requires t == "bagus tapi jelek"
    ensures !Contains(t, "sombong")
  {
    NotContainsMissingChar(t, "sombong", 'o');
  }

  lemma MixedLacksMelelahkan(t: string)
    requires t == "bagus tapi jelek"
    ensures !Contains(t, "melelahkan")
  {
    NotContainsMissingChar(t, "melelahkan", 'm');
  }

  lemma MixedLacksTidakRamah(t: string)
    requires t == "bagus tapi jelek"
    ensures !Contains(t, "tidak ramah")
  {
    NotContainsMissingChar(t, "tidak ramah", 'd');
  }

  lemma MixedLacksParahSekali(t: string)
    requires t == "bagus tapi jelek"
    ensures !Contains(t, "parah sekali")
  {
    NotContainsMissingChar(t, "parah sekali", 'r');
  }

  lemma MixedLacksGagal(t: string)
    requires t == "bagus tapi jelek"
    ensures !Contains(t, "gagal")
  {
    var w0 := "bagus";
    var w1 := "tapi";
    var w2 := "jelek";
    NotContainsMissingChar(w0, "gagal", 'l');
    NotContainsLonger(w1, "gagal");
    NotContainsMissingChar(w2, "gagal", 'g');
    MixedLacks(t, "gagal");
  }

  lemma MixedLacksKesal(t: string)
    requires t == "bagus tapi jelek"
    ensures !Contains(t, "kesal")
  {
    var w0 := "bagus";
    var w1 := "tapi";
    var w2 := "jelek";
    NotContainsMissingChar(w0, "kesal", 'k');
    NotContainsLonger(w1, "kesal");
    NotContainsMissingChar(w2, "kesal", 's');
    MixedLacks(t, "kesal");
  }

  lemma MixedLacksTidak(t: string)
    requires t == "bagus tapi jelek"
    ensures !Contains(t, "tidak")
  {
    NotContainsMissingChar(t, "tidak", 'd');
  }

  lemma MixedLacksBukan(t: string)
    requires t == "bagus tapi jelek"
    ensures !Contains(t, "bukan")
  {
    NotContainsMissingChar(t, "bukan", 'n');
  }

  lemma MixedLacksKurang(t: string)
    requires t == "bagus tapi jelek"
    ensures !Contains(t, "kurang")
  {
    NotContainsMissingChar(t, "kurang", 'r');
  }

  lemma MixedLacksJangan(t: string)
    requires t == "bagus tapi jelek"
    ensures !Contains(t, "jangan")
  {
    NotContainsMissingChar(t, "jangan", 'n');
  }

  lemma MixedPositiveHitsFrom(t: string)
    requires !Contains(t, "baik")
    requires !Contains(t, "puas")
    requires !Contains(t, "hebat")
    requires Contains(t, "bagus")
    requires !Contains(t, "indah")
    requires !Contains(t, "terima kasih")
    requires !Contains(t, "senang")
    requires !Contains(t, "suka")
    requires !Contains(t, "luar biasa")
    requires !Contains(t, "memuaskan")
    requires !Contains(t, "ramah")
    requires !Contains(t, "cepat")
    requires !Contains(t, "mantap")
    requires !Contains(t, "bagus sekali")
    requires !Contains(t, "menyenangkan")
    ensures HitSet(t, PositiveWords) == {"bagus"}
  {
  }

  lemma MixedPositiveHits(t: string)
    requires t == "bagus tapi jelek"
    ensures HitSet(t, PositiveWords) == {"bagus"}
  {
    MixedLacksBaik(t);
    MixedLacksPuas(t);
    MixedLacksHebat(t);
    MixedHasBagus(t);
    MixedLacksIndah(t);
    MixedLacksTerimaKasih(t);
    MixedLacksSenang(t);
    MixedLacksSuka(t);
    MixedLacksLuarBiasa(t);
    MixedLacksMemuaskan(t);
    MixedLacksRamah(t);
    MixedLacksCepat(t);
    MixedLacksMantap(t);
    MixedLacksBagusSekali(t);
    MixedLacksMenyenangkan(t);
    MixedPositiveHitsFrom(t);
  }

  lemma MixedNegativeHitsFrom(t: string)
    requires !Contains(t, "buruk")
    requires Contains(t, "jelek")
    requires !Contains(t, "kecewa")
    requires !Contains(t, "benci")
    requires !Contains(t, "sedih")
    requires !Contains(t, "marah")
    requires !Contains(t, "tidak puas")
    requires !Contains(t, "payah")
    requires !Contains(t, "mengecewakan")
    requires !Contains(t, "parah")
    requires !Contains(t, "lambat")
    requires !Contains(t, "sombong")
    requires !Contains(t, "melelahkan")
    requires !Contains(t, "tidak ramah")
    requires !Contains(t, "parah sekali")
    requires !Contains(t, "gagal")
    requires !Contains(t, "kesal")
    ensures HitSet(t, NegativeWords) == {"jelek"}
  {
  }

  lemma MixedNegativeHits(t: string)
    requires t == "bagus tapi jelek"
    ensures HitSet(t, NegativeWords) == {"jelek"}
  {
    MixedLacksBuruk(t);
    MixedHasJelek(t);
    MixedLacksKecewa(t);
    MixedLacksBenci(t);
    MixedLacksSedih(t);
    MixedLacksMarah(t);
    MixedLacksTidakPuas(t);
    MixedLacksPayah(t);
    MixedLacksMengecewakan(t);
    MixedLacksParah(t);
    MixedLacksLambat(t);
    MixedLacksSombong(t);
    MixedLacksMelelahkan(t);
    MixedLacksTidakRamah(t);
    MixedLacksParahSekali(t);
    MixedLacksGagal(t);
    MixedLacksKesal(t);
    MixedNegativeHitsFrom(t);
  }

  lemma MixedNegated(t: string)
    requires t == "bagus tapi jelek"
    ensures !HasNegation(t)
  {
    MixedLacksTidak(t);
    MixedLacksBukan(t);
    MixedLacksKurang(t);
    MixedLacksJangan(t);
    MixedLacksGagal(t);
    HasNegationIff(t);
  }

  lemma MixedNormal(t: string)
    requires t == "bagus tapi jelek"
    ensures Preprocess(t) == t
  {
    NormalizedIsFixpoint(t);
  }

  /** One positive and one negative entry cancel: neutral, score 0. */
  lemma MixedExample(t: string)
    requires t == "bagus tapi jelek"
    ensures HitSet(t, PositiveWords) == {"bagus"}
    ensures HitSet(t, NegativeWords) == {"jelek"}
    ensures Analyze(t) == Verdict(Netral, Num(0))
  {
    MixedNormal(t);
    MixedPositiveHits(t);
    MixedNegativeHits(t);
    MixedNegated(t);
    AnalyzeFromHits(t, {"bagus"}, {"jelek"}, false);
  }

  // ---------------------------------------------------------------------
  // The text "bagus sekali": which positive entries it contains
  // ---------------------------------------------------------------------

  /** A spaceless pattern absent from every word of "bagus sekali" is absent from it. */
  lemma BagusSekaliLacks(t: string, p: string)
    requires t == "bagus sekali"
    requires p != [] && ' ' !in p
    requires !Contains("bagus", p)
    requires !Contains("sekali", p)
    ensures !Contains(t, p)
  {
    var t1 := "sekali";
    var t0 := "bagus" + [' '] + t1;
    NotContainsSplit(t0, "bagus", ' ', t1, p);
    assert t0 == t;
  }

  lemma BagusSekaliLacksBaik(t: string)
    requires t == "bagus sekali"
    ensures !Contains(t, "baik")
  {
    var w0 := "bagus";
    var w1 := "sekali";
    NotContainsMissingChar(w0, "baik", 'i');
    NotContainsMissingChar(w1, "baik", 'b');
    BagusSekaliLacks(t, "baik");
  }

  lemma BagusSekaliLacksPuas(t: string)
    requires t == "bagus sekali"
    ensures !Contains(t, "puas")
  {
    NotContainsMissingChar(t, "puas", 'p');
  }

  lemma BagusSekaliLacksHebat(t: string)
    requires t == "bagus sekali"
    ensures !Contains(t, "hebat")
  {
    NotContainsMissingChar(t, "hebat", 'h');
  }

  lemma BagusSekaliHasBagus(t: string)
    requires t == "bagus sekali"
    ensures Contains(t, "bagus")
  {
    assert t == "" + "bagus" + " sekali";
    ContainsInfix(t, "", "bagus", " sekali");
  }

  lemma BagusSekaliLacksIndah(t: string)
    requires t == "bagus sekali"
    ensures !Contains(t, "indah")
  {
    NotContainsMissingChar(t, "indah", 'n');
  }

  lemma BagusSekaliLacksTerimaKasih(t: string)
    requires t == "bagus sekali"
    ensures !Contains(t, "terima kasih")
  {
    NotContainsMissingChar(t, "terima kasih", 't');
  }

  lemma BagusSekaliLacksSenang(t: string)
    requires t == "bagus sekali"
    ensures !Contains(t, "senang")
  {
    NotContainsMissingChar(t, "senang", 'n');
  }

  lemma BagusSekaliLacksSuka(t: string)
    requires t == "bagus sekali"
    ensures !Contains(t, "suka")
  {
    var w0 := "bagus";
    var w1 := "sekali";
    NotContainsMissingChar(w0, "suka", 'k');
    NotContainsMissingChar(w1, "suka", 'u');
    BagusSekaliLacks(t, "suka");
  }

  lemma BagusSekaliLacksLuarBiasa(t: string)
    requires t == "bagus sekali"
    ensures !Contains(t, "luar biasa")
  {
    NotContainsMissingChar(t, "luar biasa", 'r');
  }

  lemma BagusSekaliLacksMemuaskan(t: string)
    requires t == "bagus sekali"
    ensures !Contains(t, "memuaskan")
  {
    NotContainsMissingChar(t, "memuaskan", 'm');
  }

  lemma BagusSekaliLacksRamah(t: string)
    requires t == "bagus sekali"
    ensures !Contains(t, "ramah")
  {
    NotContainsMissingChar(t, "ramah", 'r');
  }

  lemma BagusSekaliLacksCepat(t: string)
    requires t == "bagus sekali"
    ensures !Contains(t, "cepat")
  {
    NotContainsMissingChar(t, "cepat", 'c');
  }

  lemma BagusSekaliLacksMantap(t: string)
    requires t == "bagus sekali"
    ensures !Contains(t, "mantap")
  {
    NotContainsMissingChar(t, "mantap", 'm');
  }

  lemma BagusSekaliHasBagusSekali(t: string)
    requires t == "bagus sekali"
    ensures Contains(t, "bagus sekali")
  {
    assert t == "" + "bagus sekali" + "";
    ContainsInfix(t, "", "bagus sekali", "");
  }

  lemma BagusSekaliLacksMenyenangkan(t: string)
    requires t == "bagus sekali"
    ensures !Contains(t, "menyenangkan")
  {
    NotContainsMissingChar(t, "menyenangkan", 'm');
  }

  lemma BagusSekaliPositiveHitsFrom(t: string)
    requires !Contains(t, "baik")
    requires !Contains(t, "puas")
    requires !Contains(t, "hebat")
    requires Contains(t, "bagus")
    requires !Contains(t, "indah")
    requires !Contains(t, "terima kasih")
    requires !Contains(t, "senang")
    requires !Contains(t, "suka")
    requires !Contains(t, "luar biasa")
    requires !Contains(t, "memuaskan")
    requires !Contains(t, "ramah")
    requires !Contains(t, "cepat")
    requires !Contains(t, "mantap")
    requires Contains(t, "bagus sekali")
    requires !Contains(t, "menyenangkan")
    ensures HitSet(t, PositiveWords) == {"bagus", "bagus sekali"}
  {
  }

  lemma BagusSekaliPositiveHits(t: string)
    requires t == "bagus sekali"
    ensures HitSet(t, PositiveWords) == {"bagus", "bagus sekali"}
  {
    BagusSekaliLacksBaik(t);
    BagusSekaliLacksPuas(t);
    BagusSekaliLacksHebat(t);
    BagusSekaliHasBagus(t);
    BagusSekaliLacksIndah(t);
    BagusSekaliLacksTerimaKasih(t);
    BagusSekaliLacksSenang(t);
    BagusSekaliLacksSuka(t);
    BagusSekaliLacksLuarBiasa(t);
    BagusSekaliLacksMemuaskan(t);
    BagusSekaliLacksRamah(t);
    BagusSekaliLacksCepat(t);
    BagusSekaliLacksMantap(t);
    BagusSekaliHasBagusSekali(t);
    BagusSekaliLacksMenyenangkan(t);
    BagusSekaliPositiveHitsFrom(t);
  }

  // ---------------------------------------------------------------------
  // The text "buruk dan mengecewakan": which entries it contains, and its verdict
  // ---------------------------------------------------------------------

  /** A spaceless pattern absent from every word of "buruk dan mengecewakan" is absent from it. */
  lemma OverlapLacks(t: string, p: string)
    requires t == "buruk dan mengecewakan"
    requires p != [] && ' ' !in p
    requires !Contains("buruk", p)
    requires !Contains("dan", p)
    requires !Contains("mengecewakan", p)
    ensures !Contains(t, p)
  {
    var t2 := "mengecewakan";
    var t1 := "dan" + [' '] + t2;
    NotContainsSplit(t1, "dan", ' ', t2, p);
    var t0 := "buruk" + [' '] + t1;
    NotContainsSplit(t0, "buruk", ' ', t1, p);
    assert t0 == t;
  }

  lemma OverlapLacksBaik(t: string)
    requires t == "buruk dan mengecewakan"
    ensures !Contains(t, "baik")
  {
    NotContainsMissingChar(t, "baik", 'i');
  }

  lemma OverlapLacksPuas(t: string)
    requires t == "buruk dan mengecewakan"
    ensures !Contains(t, "puas")
  {
    NotContainsMissingChar(t, "puas", 'p');
  }

  lemma OverlapLacksHebat(t: string)
    requires t == "buruk dan mengecewakan"
    ensures !Contains(t, "hebat")
  {
    NotContainsMissingChar(t, "hebat", 'h');
  }

  lemma OverlapLacksBagus(t: string)
    requires t == "buruk dan mengecewakan"
    ensures !Contains(t, "bagus")
  {
    NotContainsMissingChar(t, "bagus", 's');
  }

  lemma OverlapLacksIndah(t: string)
    requires t == "buruk dan mengecewakan"
    ensures !Contains(t, "indah")
  {
    NotContainsMissingChar(t, "indah", 'i');
  }

  lemma OverlapLacksTerimaKasih(t: string)
    requires t == "buruk dan mengecewakan"
    ensures !Contains(t, "terima kasih")
  {
    NotContainsMissingChar(t, "terima kasih", 't');
  }

  lemma OverlapLacksSenang(t: string)
    requires t == "buruk dan mengecewakan"
    ensures !Contains(t, "senang")
  {
    NotContainsMissingChar(t, "senang", 's');
  }

  lemma OverlapLacksSuka(t: string)
    requires t == "buruk dan mengecewakan"
    ensures !Contains(t, "suka")
  {
    NotContainsMissingChar(t, "suka", 's');
  }

  lemma OverlapLacksLuarBiasa(t: string)
    requires t == "buruk dan mengecewakan"
    ensures !Contains(t, "luar biasa")
  {
    NotContainsMissingChar(t, "luar biasa", 'l');
  }

  lemma OverlapLacksMemuaskan(t: string)
    requires t == "buruk dan mengecewakan"
    ensures !Contains(t, "memuaskan")
  {
    NotContainsMissingChar(t, "memuaskan", 's');
  }

  lemma OverlapLacksRamah(t: string)
    requires t == "buruk dan mengecewakan"
    ensures !Contains(t, "ramah")
  {
    NotContainsMissingChar(t, "ramah", 'h');
  }

  lemma OverlapLacksCepat(t: string)
    requires t == "buruk dan mengecewakan"
    ensures !Contains(t, "cepat")
  {
    NotContainsMissingChar(t, "cepat", 'p');
  }

  lemma OverlapLacksMantap(t: string)
    requires t == "buruk dan mengecewakan"
    ensures !Contains(t, "mantap")
  {
    NotContainsMissingChar(t, "mantap", 't');
  }

  lemma OverlapLacksBagusSekali(t: string)
    requires t == "buruk dan mengecewakan"
    ensures !Contains(t, "bagus sekali")
  {
    NotContainsMissingChar(t, "bagus sekali", 's');
  }

  lemma OverlapLacksMenyenangkan(t: string)
    requires t == "buruk dan mengecewakan"
    ensures !Contains(t, "menyenangkan")
  {
    NotContainsMissingChar(t, "menyenangkan", 'y');
  }

  lemma OverlapHasBuruk(t: string)
    requires t == "buruk dan mengecewakan"
    ensures Contains(t, "buruk")
  {
    assert t == "" + "buruk" + " dan mengecewakan";
    ContainsInfix(t, "", "buruk", " dan mengecewakan");
  }

  lemma OverlapLacksJelek(t: string)
    requires t == "buruk dan mengecewakan"
    ensures !Contains(t, "jelek")
  {
    NotContainsMissingChar(t, "jelek", 'j');
  }

  lemma OverlapLacksKecewa(t: string)
    requires t == "buruk dan mengecewakan"
    ensures !Contains(t, "kecewa")
  {
    var w0 := "buruk";
    var w1 := "dan";
    NotContainsLonger(w0, "kecewa");
    NotContainsLonger(w1, "kecewa");
    NotContainsLonger("men", "kecewa");
    NotContainsMissingChar("ece", "ke", 'k');
    NotContainsMissingChar("aka", "ke", 'e');
    assert "ecewaka" == "ece" + ['w'] + "aka";
    NotContainsSplit("ecewaka", "ece", 'w', "aka", "ke");
    ContainsInfix("kecewa", "", "ke", "cewa");
    NotContainsMissingPiece("ecewaka", "kecewa", "ke");
    NotContainsLonger("", "kecewa");
    assert "ecewakan" == "ecewaka" + ['n'] + "";
    NotContainsSplit("ecewakan", "ecewaka", 'n', "", "kecewa");
    assert "mengecewakan" == "men" + ['g'] + "ecewakan";
    NotContainsSplit("mengecewakan", "men", 'g', "ecewakan", "kecewa");
    OverlapLacks(t, "kecewa");
  }

  lemma OverlapLacksBenci(t: string)
    requires t == "buruk dan mengecewakan"
    ensures !Contains(t, "benci")
  {
    NotContainsMissingChar(t, "benci", 'i');
  }

  lemma OverlapLacksSedih(t: string)
    requires t == "buruk dan mengecewakan"
    ensures !Contains(t, "sedih")
  {
    NotContainsMissingChar(t, "sedih", 's');
  }

  lemma OverlapLacksMarah(t: string)
    requires t == "buruk dan mengecewakan"
    ensures !Contains(t, "marah")
  {
    NotContainsMissingChar(t, "marah", 'h');
  }

  lemma OverlapLacksTidakPuas(t: string)
    requires t == "buruk dan mengecewakan"
    ensures !Contains(t, "tidak puas")
  {
    NotContainsMissingChar(t, "tidak puas", 't');
  }

  lemma OverlapLacksPayah(t: string)
    requires t == "buruk dan mengecewakan"
    ensures !Contains(t, "payah")
  {
    NotContainsMissingChar(t, "payah", 'p');
  }

  lemma OverlapHasMengecewakan(t: string)
    requires t == "buruk dan mengecewakan"
    ensures Contains(t, "mengecewakan")
  {
    assert t == "buruk dan " + "mengecewakan" + "";
    ContainsInfix(t, "buruk dan ", "mengecewakan", "");
  }

  lemma OverlapLacksParah(t: string)
    requires t == "buruk dan mengecewakan"
    ensures !Contains(t, "parah")
  {
    NotContainsMissingChar(t, "parah", 'p');
  }

  lemma OverlapLacksLambat(t: string)
    requires t == "buruk dan mengecewakan"
    ensures !Contains(t, "lambat")
  {
    NotContainsMissingChar(t, "lambat", 'l');
  }

  lemma OverlapLacksSombong(t: string)
    requires t == "buruk dan mengecewakan"
    ensures !Contains(t, "sombong")
  {
    NotContainsMissingChar(t, "sombong", 's');
  }

  lemma OverlapLacksMelelahkan(t: string)
    requires t == "buruk dan mengecewakan"
    ensures !Contains(t, "melelahkan")
  {
    NotContainsMissingChar(t, "melelahkan", 'l');
  }

  lemma OverlapLacksTidakRamah(t: string)
    requires t == "buruk dan mengecewakan"
    ensures !Contains(t, "tidak ramah")
  {
    NotContainsMissingChar(t, "tidak ramah", 't');
  }

  lemma OverlapLacksParahSekali(t: string)
    requires t == "buruk dan mengecewakan"
    ensures !Contains(t, "parah sekali")
  {
    NotContainsMissingChar(t, "parah sekali", 'p');
  }

  lemma OverlapLacksGagal(t: string)
    requires t == "buruk dan mengecewakan"
    ensures !Contains(t, "gagal")
  {
    NotContainsMissingChar(t, "gagal", 'l');
  }

  lemma OverlapLacksKesal(t: string)
    requires t == "buruk dan mengecewakan"
    ensures !Contains(t, "kesal")
  {
    NotContainsMissingChar(t, "kesal", 's');
  }

  lemma OverlapLacksTidak(t: string)
    requires t == "buruk dan mengecewakan"
    ensures !Contains(t, "tidak")
  {
    NotContainsMissingChar(t, "tidak", 't');
  }

  lemma OverlapLacksBukan(t: string)
    requires t == "buruk dan mengecewakan"
    ensures !Contains(t, "bukan")
  {
    var w0 := "buruk";
    var w1 := "dan";
    var w2 := "mengecewakan";
    NotContainsMissingChar(w0, "bukan", 'a');
    NotContainsLonger(w1, "bukan");
    NotContainsMissingChar(w2, "bukan", 'b');
    OverlapLacks(t, "bukan");
  }

  lemma OverlapLacksKurang(t: string)
    requires t == "buruk dan mengecewakan"
    ensures !Contains(t, "kurang")
  {
    var w0 := "buruk";
    var w1 := "dan";
    var w2 := "mengecewakan";
    NotContainsLonger(w0, "kurang");
    NotContainsLonger(w1, "kurang");
    NotContainsMissingChar(w2, "kurang", 'u');
    OverlapLacks(t, "kurang");
  }

  lemma OverlapLacksJangan(t: string)
    requires t == "buruk dan mengecewakan"
    ensures !Contains(t, "jangan")
  {
    NotContainsMissingChar(t, "jangan", 'j');
  }

  lemma OverlapPositiveHitsFrom(t: string)
    requires !Contains(t, "baik")
    requires !Contains(t, "puas")
    requires !Contains(t, "hebat")
    requires !Contains(t, "bagus")
    requires !Contains(t, "indah")
    requires !Contains(t, "terima kasih")
    requires !Contains(t, "senang")
    requires !Contains(t, "suka")
    requires !Contains(t, "luar biasa")
    requires !Contains(t, "memuaskan")
    requires !Contains(t, "ramah")
    requires !Contains(t, "cepat")
    requires !Contains(t, "mantap")
    requires !Contains(t, "bagus sekali")
    requires !Contains(t, "menyenangkan")
    ensures HitSet(t, PositiveWords) == {}
  {
  }

  lemma OverlapPositiveHits(t: string)
    requires t == "buruk dan mengecewakan"
    ensures HitSet(t, PositiveWords) == {}
  {
    OverlapLacksBaik(t);
    OverlapLacksPuas(t);
    OverlapLacksHebat(t);
    OverlapLacksBagus(t);
    OverlapLacksIndah(t);
    OverlapLacksTerimaKasih(t);
    OverlapLacksSenang(t);
    OverlapLacksSuka(t);
    OverlapLacksLuarBiasa(t);
    OverlapLacksMemuaskan(t);
    OverlapLacksRamah(t);
    OverlapLacksCepat(t);
    OverlapLacksMantap(t);
    OverlapLacksBagusSekali(t);
    OverlapLacksMenyenangkan(t);
    OverlapPositiveHitsFrom(t);
  }

  lemma OverlapNegativeHitsFrom(t: string)
    requires Contains(t, "buruk")
    requires !Contains(t, "jelek")
    requires !Contains(t, "kecewa")
    requires !Contains(t, "benci")
    requires !Contains(t, "sedih")
    requires !Contains(t, "marah")
    requires !Contains(t, "tidak puas")
    requires !Contains(t, "payah")
    requires Contains(t, "mengecewakan")
    requires !Contains(t, "parah")
    requires !Contains(t, "lambat")
    requires !Contains(t, "sombong")
    requires !Contains(t, "melelahkan")
    requires !Contains(t, "tidak ramah")
    requires !Contains(t, "parah sekali")
    requires !Contains(t, "gagal")
    requires !Contains(t, "kesal")
    ensures HitSet(t, NegativeWords) == {"buruk", "mengecewakan"}
  {
  }

  lemma OverlapNegativeHits(t: string)
    requires t == "buruk dan mengecewakan"
    ensures HitSet(t, NegativeWords) == {"buruk", "mengecewakan"}
  {
    OverlapHasBuruk(t);
    OverlapLacksJelek(t);
    OverlapLacksKecewa(t);
    OverlapLacksBenci(t);
    OverlapLacksSedih(t);
    OverlapLacksMarah(t);
    OverlapLacksTidakPuas(t);
    OverlapLacksPayah(t);
    OverlapHasMengecewakan(t);
    OverlapLacksParah(t);
    OverlapLacksLambat(t);
    OverlapLacksSombong(t);
    OverlapLacksMelelahkan(t);
    OverlapLacksTidakRamah(t);
    OverlapLacksParahSekali(t);
    OverlapLacksGagal(t);
    OverlapLacksKesal(t);
    OverlapNegativeHitsFrom(t);
  }

  lemma OverlapNegated(t: string)
    requires t == "buruk dan mengecewakan"
    ensures !HasNegation(t)
  {
    OverlapLacksTidak(t);
    OverlapLacksBukan(t);
    OverlapLacksKurang(t);
    OverlapLacksJangan(t);
    OverlapLacksGagal(t);
    HasNegationIff(t);
  }

  lemma OverlapNormal(t: string)
    requires t == "buruk dan mengecewakan"
    ensures Preprocess(t) == t
  {
    NormalizedIsFixpoint(t);
  }

  /** Two distinct negative entries; "kecewa" is not a substring of "mengecewakan", so the score is 2. */
  lemma OverlapExample(t: string)
    requires t == "buruk dan mengecewakan"
    ensures HitSet(t, PositiveWords) == {}
    ensures HitSet(t, NegativeWords) == {"buruk", "mengecewakan"}
    ensures Analyze(t) == Verdict(Negatif, Num(2))
  {
    var neg: set<string> := {"buruk", "mengecewakan"};
    assert |neg| == 2;
    OverlapNormal(t);
    OverlapPositiveHits(t);
    OverlapNegativeHits(t);
    OverlapNegated(t);
    AnalyzeFromHits(t, {}, neg, false);
  }

}
