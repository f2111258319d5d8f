/** The fixed word lists and the substring tests the scorer runs against
    the normalised text. Matching is plain substring containment (Python's
    `word in text`): it does not respect word boundaries, and an entry counts
    once however often it occurs. */
module Lexicon {

  /** `positive_words`. */
  const PositiveWords: seq<string> := [
    "baik", "puas", "hebat", "bagus", "indah", "terima kasih", "senang", "suka",
    "luar biasa", "memuaskan", "ramah", "cepat", "mantap", "bagus sekali",
    "menyenangkan"]

  /** `negative_words`. */
  const NegativeWords: seq<string> := [
    "buruk", "jelek", "kecewa", "benci", "sedih", "marah", "tidak puas", "payah",
    "mengecewakan", "parah", "lambat", "sombong", "melelahkan", "tidak ramah",
    "parah sekali", "gagal", "kesal"]

  /** `negation_words`, in the order the scorer tries them. */
  const NegationWords: seq<string> := ["tidak", "bukan", "kurang", "jangan", "gagal"]

  // ---------------------------------------------------------------------
  // Substring containment
  // ---------------------------------------------------------------------

  /** `p` occurs in `s` at index `i`. */
  predicate OccursAt(s: string, p: string, i: int) {
    0 <= i && i + |p| <= |s| && s[i..i + |p|] == p
  }

  /** The characters of `p` from `j` on match those of `s` from `i + j`. */
  predicate MatchFrom(s: string, p: string, i: nat, j: nat)
    requires i + |p| <= |s| && j <= |p|
    decreases |p| - j
  {
    j == |p| || (s[i + j] == p[j] && MatchFrom(s, p, i, j + 1))
  }

  /** `p` occurs in `s` at some index `i` or later: a left-to-right scan. */
  predicate SearchFrom(s: string, p: string, i: nat)
    decreases |s| - i
  {
    i + |p| <= |s| && (MatchFrom(s, p, i, 0) || SearchFrom(s, p, i + 1))
  }

  /** `p in s`. */
  predicate Contains(s: string, p: string) {
    SearchFrom(s, p, 0)
  }

  lemma {:induction false} MatchFromIff(s: string, p: string, i: nat, j: nat)
    requires i + |p| <= |s| && j <= |p|
    decreases |p| - j
    ensures MatchFrom(s, p, i, j) <==> s[i + j..i + |p|] == p[j..]
  {
    if j < |p| {
      MatchFromIff(s, p, i, j + 1);
      assert s[i + j..i + |p|] == [s[i + j]] + s[i + j + 1..i + |p|];
      assert p[j..] == [p[j]] + p[j + 1..];
    }
  }

  lemma {:induction false} SearchFromIff(s: string, p: string, i: nat)
    decreases |s| - i
    ensures SearchFrom(s, p, i) <==> exists k :: i <= k && OccursAt(s, p, k)
  {
    if i + |p| <= |s| {
      MatchFromIff(s, p, i, 0);
      SearchFromIff(s, p, i + 1);
      assert p[0..] == p;
      if MatchFrom(s, p, i, 0) {
        assert OccursAt(s, p, i);
      }
    } else {
      assert forall k :: i <= k ==> !OccursAt(s, p, k);
    }
  }

  /** The scan finds `p` exactly when `p` occurs at some index. */
  lemma ContainsIffOccurs(s: string, p: string)
    ensures Contains(s, p) <==> exists i :: OccursAt(s, p, i)
  {
    SearchFromIff(s, p, 0);
  }

  /** Whatever contains `s` contains every piece of `s`. */
  lemma ContainsInfix(s: string, a: string, p: string, b: string)
    requires s == a + p + b
    ensures Contains(s, p)
  {
    assert s[|a|..|a| + |p|] == p;
    assert OccursAt(s, p, |a|);
    ContainsIffOccurs(s, p);
  }

  /** Only the empty text is contained in the empty text. */
  lemma ContainsInEmpty(p: string)
    ensures Contains([], p) <==> p == []
  {
    ContainsIffOccurs([], p);
    if p == [] {
      assert OccursAt([], p, 0);
    }
  }

  /** A pattern longer than the text does not occur in it. */
  lemma NotContainsLonger(s: string, p: string)
    requires |s| < |p|
    ensures !Contains(s, p)
  {
  }

  /** A pattern holding a character the text lacks does not occur in it. */
  lemma NotContainsMissingChar(s: string, p: string, c: char)
    requires c in p && c !in s
    ensures !Contains(s, p)
  {
    ContainsIffOccurs(s, p);
  }

  /** A character the pattern lacks separates the text into two parts, and
      the pattern occurs in the whole only if it occurs in one part. */
  lemma NotContainsSplit(s: string, a: string, c: char, b: string, p: string)
    requires s == a + [c] + b && c !in p
    requires !Contains(a, p) && !Contains(b, p)
    ensures !Contains(s, p)
  {
    ContainsIffOccurs(a, p);
    ContainsIffOccurs(b, p);
    forall i ensures !OccursAt(s, p, i) {
      if 0 <= i && i + |p| <= |s| {
        if i + |p| <= |a| {
          assert s[i..i + |p|] == a[i..i + |p|];
          assert !OccursAt(a, p, i);
        } else if i > |a| {
          var k := i - |a| - 1;
          assert s[i..i + |p|] == b[k..k + |p|];
          assert !OccursAt(b, p, k);
        } else {
          assert s[i..i + |p|][|a| - i] == c;
        }
      }
    }
    ContainsIffOccurs(s, p);
  }

  /** An occurrence of `q` inside an occurrence of `p` is an occurrence of
      `q` in the text. */
  lemma OccursInside(s: string, p: string, q: string, i: int, j: int)
    requires OccursAt(s, p, i) && OccursAt(p, q, j)
    ensures OccursAt(s, q, i + j)
  {
    forall k | 0 <= k < |q| ensures s[i + j + k] == q[k] {
      assert s[i + j + k] == s[i..i + |p|][j + k];
      assert q[k] == p[j..j + |q|][k];
    }
  }

  /** Containment is transitive, so a pattern with a piece the text lacks
      does not occur in it. */
  lemma NotContainsMissingPiece(s: string, p: string, q: string)
    requires Contains(p, q) && !Contains(s, q)
    ensures !Contains(s, p)
  {
    ContainsIffOccurs(p, q);
    ContainsIffOccurs(s, q);
    var j :| OccursAt(p, q, j);
    forall i ensures !OccursAt(s, p, i) {
      if OccursAt(s, p, i) {
        OccursInside(s, p, q, i, j);
      }
    }
    ContainsIffOccurs(s, p);
  }

  // ---------------------------------------------------------------------
  // Counting hits
  // ---------------------------------------------------------------------

  /** The number of entries of `entries` that occur in `text`
      (`sum(1 for word in entries if word in text)`). */
  function CountHits(text: string, entries: seq<string>): (n: nat)
    ensures n <= |entries|
    ensures n == 0 <==> forall k :: 0 <= k < |entries| ==> !Contains(text, entries[k])
    ensures n == |entries| <==> forall k :: 0 <= k < |entries| ==> Contains(text, entries[k])
  {
    if entries == [] then 0
    else (if Contains(text, entries[0]) then 1 else 0) + CountHits(text, entries[1..])
  }

  /** The entries of `entries` that occur in `text`. */
  function HitSet(text: string, entries: seq<string>): set<string> {
    set w | w in entries && Contains(text, w)
  }

  predicate Distinct(entries: seq<string>) {
    forall i, j :: 0 <= i < j < |entries| ==> entries[i] != entries[j]
  }

  /** The hits of a list are the hits of its head together with the hits
      of its tail. */
  lemma HitSetCons(text: string, entries: seq<string>)
    requires entries != []
    ensures HitSet(text, entries) ==
      (if Contains(text, entries[0]) then {entries[0]} else {}) + HitSet(text, entries[1..])
  {
    assert forall x :: x in entries <==> x == entries[0] || x in entries[1..];
  }

  /** For a list without repeats, the count is the number of distinct
      entries found in the text. */
  lemma {:induction false} CountHitsIsHitSetSize(text: string, entries: seq<string>)
    requires Distinct(entries)
    ensures CountHits(text, entries) == |HitSet(text, entries)|
  {
    if entries != [] {
      var w, rest := entries[0], entries[1..];
      assert Distinct(rest) by {
        forall i, j | 0 <= i < j < |rest| ensures rest[i] != rest[j] {
          assert rest[i] == entries[i + 1] && rest[j] == entries[j + 1];
        }
      }
      assert w !in rest by {
        forall k | 0 <= k < |rest| ensures rest[k] != w {
          assert rest[k] == entries[k + 1];
        }
      }
      CountHitsIsHitSetSize(text, rest);
      HitSetCons(text, entries);
    }
  }

  /** Any two entries differ in length or in one of their first three
      characters. */
  lemma PositiveWordsDistinct()
    ensures Distinct(PositiveWords)
  {
    var ws := PositiveWords;
    forall i, j | 0 <= i < j < |ws| ensures ws[i] != ws[j] {
      assert |ws[i]| != |ws[j]| || ws[i][0] != ws[j][0] || ws[i][1] != ws[j][1] || ws[i][2] != ws[j][2];
    }
  }

  lemma NegativeWordsDistinct()
    ensures Distinct(NegativeWords)
  {
    var ws := NegativeWords;
    forall i, j | 0 <= i < j < |ws| ensures ws[i] != ws[j] {
      assert |ws[i]| != |ws[j]| || ws[i][0] != ws[j][0] || ws[i][1] != ws[j][1] || ws[i][2] != ws[j][2];
    }
  }

  lemma NegationWordsDistinct()
    ensures Distinct(NegationWords)
  {
    var ws := NegationWords;
    forall i, j | 0 <= i < j < |ws| ensures ws[i] != ws[j] {
      assert |ws[i]| != |ws[j]| || ws[i][0] != ws[j][0] || ws[i][1] != ws[j][1] || ws[i][2] != ws[j][2];
    }
  }

  /** No list repeats an entry, so each list's count is the size of the set
      of its entries found. */
  lemma ListsAreDistinct()
    ensures Distinct(PositiveWords) && Distinct(NegativeWords) && Distinct(NegationWords)
  {
    PositiveWordsDistinct();
    NegativeWordsDistinct();
    NegationWordsDistinct();
  }

  // ---------------------------------------------------------------------
  // Searching for a negation marker
  // ---------------------------------------------------------------------

  datatype Option<T> = None | Some(value: T)

  /** The `for neg_word in negation_words` loop: the index of the first
      marker, in list order, that occurs in `text`, if any. */
  function FirstMarker(text: string, markers: seq<string>): (r: Option<nat>)
    ensures r.Some? ==> r.value < |markers| && Contains(text, markers[r.value])
    ensures r.Some? ==> forall k :: 0 <= k < r.value ==> !Contains(text, markers[k])
    ensures r.None? <==> forall k :: 0 <= k < |markers| ==> !Contains(text, markers[k])
  {
    if markers == [] then None
    else if Contains(text, markers[0]) then Some(0)
    else match FirstMarker(text, markers[1..]) {
      case None => None
      case Some(k) => Some(k + 1)
    }
  }

  /** Some negation marker occurs in `text`. */
  predicate HasNegation(text: string) {
    FirstMarker(text, NegationWords).Some?
  }

  /** The first marker found matters only through its existence: negation
      is present exactly when some marker is a substring, and then so is
      some count of markers. */
  lemma HasNegationIff(text: string)
    ensures HasNegation(text) <==> exists w :: w in NegationWords && Contains(text, w)
    ensures HasNegation(text) <==> CountHits(text, NegationWords) > 0
  {
    if HasNegation(text) {
      var k := FirstMarker(text, NegationWords).value;
      assert NegationWords[k] in NegationWords;
    }
  }
}
