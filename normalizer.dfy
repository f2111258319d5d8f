/** The text normaliser applied before scoring (`preprocess_text`):
    delete every character that is neither a word character nor whitespace,
    turn each run of whitespace into one space, strip both ends, lowercase.

    Characters are classified as Python classifies ASCII: a word character
    is a letter, a digit or `_`; whitespace is the space, `\t` through `\r`
    and the four separators U+001C..U+001F. */
module Normalizer {

  // ---------------------------------------------------------------------
  // Character classes
  // ---------------------------------------------------------------------

  predicate IsUpper(c: char) { 'A' <= c <= 'Z' }

  /** `\w` on ASCII: letters, digits and the underscore. */
  predicate IsWordChar(c: char) {
    'a' <= c <= 'z' || IsUpper(c) || '0' <= c <= '9' || c == '_'
  }

  /** `\s` on ASCII, which is also what `str.strip()` removes. */
  predicate IsSpaceChar(c: char) {
    c == ' ' || '\t' <= c <= '\r' || '\U{1C}' <= c <= '\U{1F}'
  }

  /** What the first substitution keeps: `[\w\s]`. */
  predicate Kept(c: char) { IsWordChar(c) || IsSpaceChar(c) }

  function ToLower(c: char): (d: char)
    ensures IsWordChar(d) <==> IsWordChar(c)
    ensures IsSpaceChar(d) <==> IsSpaceChar(c)
    ensures !IsUpper(d)
    ensures !IsUpper(c) ==> d == c
  {
    if IsUpper(c) then (c as int - 'A' as int + 'a' as int) as char else c
  }

  // ---------------------------------------------------------------------
  // The four steps
  // ---------------------------------------------------------------------

  predicate AllKept(s: seq<char>) { forall i :: 0 <= i < |s| ==> Kept(s[i]) }

  /** Step 1, `re.sub(r'[^\w\s]', '', text)`: keeps the word and whitespace
      characters, in order. */
  function RemovePunctuation(s: seq<char>): (r: seq<char>)
    ensures |r| <= |s|
    ensures AllKept(r)
    ensures AllKept(s) ==> r == s
  {
    if s == [] then []
    else (if Kept(s[0]) then [s[0]] else []) + RemovePunctuation(s[1..])
  }

  /** The longest suffix of `s` that does not start with whitespace
      (`lstrip`). */
  function TrimStart(s: seq<char>): (r: seq<char>)
    ensures |r| <= |s|
    ensures r == [] || !IsSpaceChar(r[0])
  {
    if s != [] && IsSpaceChar(s[0]) then TrimStart(s[1..]) else s
  }

  /** What `lstrip` removes is a prefix of whitespace. */
  lemma TrimStartIsSuffix(s: seq<char>)
    ensures TrimStart(s) == s[|s| - |TrimStart(s)|..]
    ensures forall i :: 0 <= i < |s| - |TrimStart(s)| ==> IsSpaceChar(s[i])
  {
    if s != [] && IsSpaceChar(s[0]) {
      TrimStartIsSuffix(s[1..]);
    }
  }

  /** The longest prefix of `s` that does not end with whitespace
      (`rstrip`). */
  function TrimEnd(s: seq<char>): (r: seq<char>)
    ensures |r| <= |s|
    ensures r == [] || !IsSpaceChar(r[|r| - 1])
  {
    if s != [] && IsSpaceChar(s[|s| - 1]) then TrimEnd(s[..|s| - 1]) else s
  }

  /** What `rstrip` removes is a suffix of whitespace. */
  lemma TrimEndIsPrefix(s: seq<char>)
    ensures TrimEnd(s) == s[..|TrimEnd(s)|]
    ensures forall i :: |TrimEnd(s)| <= i < |s| ==> IsSpaceChar(s[i])
  {
    if s != [] && IsSpaceChar(s[|s| - 1]) {
      TrimEndIsPrefix(s[..|s| - 1]);
    }
  }

  /** `str.strip()`. */
  function Strip(s: seq<char>): (r: seq<char>)
    ensures r == [] || (!IsSpaceChar(r[0]) && !IsSpaceChar(r[|r| - 1]))
  {
    TrimEndIsPrefix(TrimStart(s));
    TrimEnd(TrimStart(s))
  }

  /** Every whitespace character in `s` is the plain space. */
  predicate OnlyBlanks(s: seq<char>) {
    forall i :: 0 <= i < |s| && IsSpaceChar(s[i]) ==> s[i] == ' '
  }

  /** No two neighbouring characters of `s` are both whitespace. */
  predicate NoAdjacentSpaces(s: seq<char>) {
    forall i :: 0 <= i < |s| - 1 ==> !(IsSpaceChar(s[i]) && IsSpaceChar(s[i + 1]))
  }

  /** Step 2, `re.sub(r'\s+', ' ', text)`: each maximal run of whitespace
      becomes a single space; every other character is kept. */
  function CollapseWhitespace(s: seq<char>): (r: seq<char>)
    decreases |s|
    ensures r == [] <==> s == []
    ensures r != [] ==> (IsSpaceChar(r[0]) <==> IsSpaceChar(s[0]))
  {
    if s == [] then []
    else if IsSpaceChar(s[0]) then [' '] + CollapseWhitespace(TrimStart(s))
    else [s[0]] + CollapseWhitespace(s[1..])
  }

  /** Step 4, `str.lower()` on ASCII. */
  function Lower(s: seq<char>): (r: seq<char>)
    ensures |r| == |s|
    ensures forall i :: 0 <= i < |s| ==> r[i] == ToLower(s[i])
  {
    if s == [] then [] else [ToLower(s[0])] + Lower(s[1..])
  }

  /** The shape every normalised text has: only word characters and single
      interior spaces, no space at either end, nothing upper-case. */
  predicate Normalized(t: seq<char>) {
    && (forall i :: 0 <= i < |t| ==> IsWordChar(t[i]) || t[i] == ' ')
    && (t != [] ==> t[0] != ' ' && t[|t| - 1] != ' ')
    && (forall i :: 0 <= i < |t| - 1 ==> !(t[i] == ' ' && t[i + 1] == ' '))
    && (forall i :: 0 <= i < |t| ==> !IsUpper(t[i]))
  }

  /** `preprocess_text`. */
  function Preprocess(s: seq<char>): (t: seq<char>)
    ensures Normalized(t)
  {
    var k := RemovePunctuation(s);
    var c := CollapseWhitespace(k);
    CollapseShape(k);
    var r := Strip(c);
    StripKeepsShape(c);
    LowerNormalizes(r);
    Lower(r)
  }

  /** Lowercasing a stripped, collapsed text of kept characters gives a
      normalised text. */
  lemma LowerNormalizes(r: seq<char>)
    requires AllKept(r) && OnlyBlanks(r) && NoAdjacentSpaces(r)
    requires r == [] || (!IsSpaceChar(r[0]) && !IsSpaceChar(r[|r| - 1]))
    ensures Normalized(Lower(r))
  {
    var t := Lower(r);
    forall i | 0 <= i < |t| ensures IsWordChar(t[i]) || t[i] == ' ' {
      assert Kept(r[i]);
    }
    forall i | 0 <= i < |t| - 1 ensures !(t[i] == ' ' && t[i + 1] == ' ') {
      assert !(IsSpaceChar(r[i]) && IsSpaceChar(r[i + 1]));
    }
  }

  /** The collapsed text holds only plain spaces, never two in a row, and
      no character the input did not have the class of. */
  lemma {:induction false} CollapseShape(s: seq<char>)
    decreases |s|
    ensures var r := CollapseWhitespace(s); OnlyBlanks(r) && NoAdjacentSpaces(r)
    ensures AllKept(s) ==> AllKept(CollapseWhitespace(s))
  {
    if s != [] {
      if IsSpaceChar(s[0]) {
        var t := TrimStart(s);
        TrimStartIsSuffix(s);
        CollapseShape(t);
        assert AllKept(s) ==> AllKept(t) by {
          assert forall i :: 0 <= i < |t| ==> t[i] == s[|s| - |t| + i];
        }
      } else {
        CollapseShape(s[1..]);
        assert AllKept(s) ==> AllKept(s[1..]) by {
          assert forall i :: 0 <= i < |s| - 1 ==> s[1..][i] == s[i + 1];
        }
      }
    }
  }

  /** Any contiguous piece of a collapsed text has the collapsed shape. */
  lemma SliceKeepsShape(c: seq<char>, k: nat, m: nat)
    requires k <= m <= |c|
    requires AllKept(c) && OnlyBlanks(c) && NoAdjacentSpaces(c)
    ensures var r := c[k..m]; AllKept(r) && OnlyBlanks(r) && NoAdjacentSpaces(r)
  {
    assert forall i :: 0 <= i < m - k ==> c[k..m][i] == c[k + i];
  }

  /** `strip()` cuts a contiguous piece out of its input, so the collapsed
      shape survives it. */
  lemma StripKeepsShape(c: seq<char>)
    requires AllKept(c) && OnlyBlanks(c) && NoAdjacentSpaces(c)
    ensures var r := Strip(c); AllKept(r) && OnlyBlanks(r) && NoAdjacentSpaces(r)
  {
    var a := TrimStart(c);
    TrimStartIsSuffix(c);
    SliceKeepsShape(c, |c| - |a|, |c|);
    assert a == c[|c| - |a|..|c|];
    TrimEndIsPrefix(a);
    SliceKeepsShape(a, 0, |TrimEnd(a)|);
    assert TrimEnd(a) == a[0..|TrimEnd(a)|];
  }

  // ---------------------------------------------------------------------
  // Reference definition: split on whitespace, rejoin with single spaces
  // ---------------------------------------------------------------------

  /** The longest prefix of `s` that holds no whitespace. */
  function WordPrefix(s: seq<char>): (w: seq<char>)
    ensures |w| <= |s| && w == s[..|w|]
    ensures forall i :: 0 <= i < |w| ==> !IsSpaceChar(w[i])
    ensures |w| < |s| ==> IsSpaceChar(s[|w|])
  {
    if s == [] || IsSpaceChar(s[0]) then [] else [s[0]] + WordPrefix(s[1..])
  }

  /** A non-empty run of non-whitespace characters. */
  predicate IsToken(w: seq<char>) {
    w != [] && forall i :: 0 <= i < |w| ==> !IsSpaceChar(w[i])
  }

  /** The maximal runs of non-whitespace characters of `s`, in order:
      what `str.split()` without an argument returns. */
  function Words(s: seq<char>): (ws: seq<seq<char>>)
    decreases |s|
    ensures forall k :: 0 <= k < |ws| ==> IsToken(ws[k])
  {
    var t := TrimStart(s);
    if t == [] then []
    else
      var w := WordPrefix(t);
      assert IsToken(w) by { assert w[0] == t[0]; }
      [w] + Words(t[|w|..])
  }

  /** `" ".join(ws)`. */
  function JoinWords(ws: seq<seq<char>>): (r: seq<char>)
    ensures (forall k :: 0 <= k < |ws| ==> IsToken(ws[k])) ==>
      && (r == [] <==> ws == [])
      && (r != [] ==> !IsSpaceChar(r[0]) && !IsSpaceChar(r[|r| - 1]))
  {
    if ws == [] then []
    else if |ws| == 1 then ws[0]
    else ws[0] + [' '] + JoinWords(ws[1..])
  }

  /** Collapsing passes a whitespace-free prefix through unchanged. */
  lemma {:induction false} CollapseToken(w: seq<char>, x: seq<char>)
    requires forall i :: 0 <= i < |w| ==> !IsSpaceChar(w[i])
    ensures CollapseWhitespace(w + x) == w + CollapseWhitespace(x)
  {
    if w != [] {
      var wx := w + x;
      assert wx[0] == w[0] && !IsSpaceChar(w[0]);
      assert wx[1..] == w[1..] + x;
      assert CollapseWhitespace(wx) == [w[0]] + CollapseWhitespace(wx[1..]);
      CollapseToken(w[1..], x);
      assert [w[0]] + w[1..] == w;
    } else {
      assert w + x == x;
    }
  }

  /** Leading whitespace does not change the words. */
  lemma WordsSkipSpaces(s: seq<char>)
    ensures Words(s) == Words(TrimStart(s))
  {
    var t := TrimStart(s);
    assert TrimStart(t) == t;
  }

  /** A text that starts with a non-whitespace character starts with its
      first word. */
  lemma WordsCons(t: seq<char>)
    requires t != [] && !IsSpaceChar(t[0])
    ensures var w := WordPrefix(t); Words(t) == [w] + Words(t[|w|..])
  {
    assert TrimStart(t) == t;
  }

  /** Joining a word in front of a non-empty list puts one space between. */
  lemma JoinCons(w: seq<char>, ws: seq<seq<char>>)
    requires ws != []
    ensures JoinWords([w] + ws) == w + [' '] + JoinWords(ws)
  {
    assert ([w] + ws)[1..] == ws;
  }

  /** Regrouping a word, a space and a collapsed tail. */
  lemma SpaceAfterWord(w: seq<char>, c: seq<char>, j: seq<char>)
    requires c == j || c == j + [' ']
    ensures w + ([' '] + c) == w + [' '] + j || w + ([' '] + c) == w + [' '] + j + [' ']
  {
    if c == j {
      assert w + ([' '] + c) == w + [' '] + j;
    } else {
      assert w + ([' '] + c) == w + [' '] + j + [' '];
    }
  }

  /** On a text that does not start with whitespace, collapsing yields the
      words joined by single spaces, plus one space when the text ended in
      whitespace. */
  lemma {:induction false} CollapseIsJoin(t: seq<char>)
    requires t == [] || !IsSpaceChar(t[0])
    decreases |t|
    ensures var j := JoinWords(Words(t));
      CollapseWhitespace(t) == j || CollapseWhitespace(t) == j + [' ']
  {
    if t != [] {
      var w := WordPrefix(t);
      var rest := t[|w|..];
      assert t == w + rest;
      WordsCons(t);
      CollapseToken(w, rest);
      if rest == [] {
        assert Words(rest) == [];
        assert CollapseWhitespace(t) == w;
      } else {
        var u := TrimStart(rest);
        assert CollapseWhitespace(rest) == [' '] + CollapseWhitespace(u);
        WordsSkipSpaces(rest);
        CollapseIsJoin(u);
        if u == [] {
          assert Words(u) == [];
          assert CollapseWhitespace(t) == w + [' '];
        } else {
          WordsCons(u);
          JoinCons(w, Words(u));
          assert CollapseWhitespace(t) == w + ([' '] + CollapseWhitespace(u));
          SpaceAfterWord(w, CollapseWhitespace(u), JoinWords(Words(u)));
        }
      }
    }
  }

  /** Stripping the collapsed text gives exactly the words joined by single
      spaces. */
  lemma StripCollapseIsJoin(s: seq<char>)
    ensures Strip(CollapseWhitespace(s)) == JoinWords(Words(s))
  {
    var u := TrimStart(s);
    var j := JoinWords(Words(u));
    WordsSkipSpaces(s);
    CollapseIsJoin(u);
    StripAround(j);
    if s != [] && IsSpaceChar(s[0]) {
      assert CollapseWhitespace(s) == [' '] + CollapseWhitespace(u);
      assert [' '] + (j + [' ']) == [' '] + j + [' '];
    } else {
      assert u == s;
    }
  }

  /** `lstrip` skips one leading space. */
  lemma TrimStartLeadSpace(j: seq<char>)
    ensures TrimStart([' '] + j) == TrimStart(j)
  {
    assert ([' '] + j)[1..] == j;
  }

  /** `rstrip` skips one trailing space. */
  lemma TrimEndTrailSpace(j: seq<char>)
    ensures TrimEnd(j + [' ']) == TrimEnd(j)
  {
    assert (j + [' '])[..|j|] == j;
  }

  /** `lstrip` leaves a text that starts with a non-space alone, whatever
      follows it. */
  lemma TrimStartKeeps(j: seq<char>, x: seq<char>)
    requires j != [] && !IsSpaceChar(j[0])
    ensures TrimStart(j + x) == j + x
  {
    assert (j + x)[0] == j[0];
  }

  /** A text with no whitespace at either end survives `strip()`, whatever
      single spaces surround it. */
  lemma StripAround(j: seq<char>)
    requires j == [] || (!IsSpaceChar(j[0]) && !IsSpaceChar(j[|j| - 1]))
    ensures Strip(j) == j && Strip(j + [' ']) == j
    ensures Strip([' '] + j) == j && Strip([' '] + j + [' ']) == j
  {
    TrimStartLeadSpace(j);
    TrimEndTrailSpace(j);
    assert [' '] + j + [' '] == [' '] + (j + [' ']);
    TrimStartLeadSpace(j + [' ']);
    if j == [] {
      assert j + [' '] == [' '] + j;
    } else {
      TrimStartKeeps(j, []);
      assert j + [] == j;
      TrimStartKeeps(j, [' ']);
    }
  }

  /** `preprocess_text` is `" ".join(re.sub(r'[^\w\s]', '', s).split()).lower()`. */
  lemma PreprocessIsSplitJoin(s: seq<char>)
    ensures Preprocess(s) == Lower(JoinWords(Words(RemovePunctuation(s))))
  {
    StripCollapseIsJoin(RemovePunctuation(s));
  }

  // ---------------------------------------------------------------------
  // Idempotence
  // ---------------------------------------------------------------------

  /** Collapsing changes nothing in a text whose whitespace is already
      single plain spaces. */
  lemma {:induction false} CollapseIdentity(t: seq<char>)
    requires OnlyBlanks(t) && NoAdjacentSpaces(t)
    decreases |t|
    ensures CollapseWhitespace(t) == t
  {
    if t != [] {
      var tail := t[1..];
      assert OnlyBlanks(tail) && NoAdjacentSpaces(tail) by {
        assert forall i :: 0 <= i < |tail| ==> tail[i] == t[i + 1];
      }
      CollapseIdentity(tail);
      if IsSpaceChar(t[0]) {
        assert TrimStart(t) == tail by {
          assert tail == [] || !IsSpaceChar(tail[0]);
        }
      }
      assert [t[0]] + tail == t;
    }
  }

  /** A normalised text is its own normal form. */
  lemma NormalizedIsFixpoint(t: seq<char>)
    requires Normalized(t)
    ensures Preprocess(t) == t
  {
    assert AllKept(t);
    assert RemovePunctuation(t) == t;
    CollapseIdentity(t);
    if t != [] {
      assert TrimStart(t) == t;
      assert TrimEnd(t) == t;
    }
    assert Lower(t) == t;
  }

  /** `preprocess_text(preprocess_text(x)) == preprocess_text(x)`. */
  lemma PreprocessIdempotent(s: seq<char>)
    ensures Preprocess(Preprocess(s)) == Preprocess(s)
  {
    NormalizedIsFixpoint(Preprocess(s));
  }

  // ---------------------------------------------------------------------
  // Case insensitivity
  // ---------------------------------------------------------------------

  lemma LowerIdempotent(s: seq<char>)
    ensures Lower(Lower(s)) == Lower(s)
  {
  }

  lemma {:induction false} RemovePunctuationLower(s: seq<char>)
    ensures RemovePunctuation(Lower(s)) == Lower(RemovePunctuation(s))
  {
    if s != [] {
      RemovePunctuationLower(s[1..]);
      assert Lower(s)[1..] == Lower(s[1..]);
      LowerAppend(if Kept(s[0]) then [s[0]] else [], RemovePunctuation(s[1..]));
    }
  }

  lemma LowerAppend(a: seq<char>, b: seq<char>)
    ensures Lower(a + b) == Lower(a) + Lower(b)
  {
  }

  lemma {:induction false} TrimStartLower(s: seq<char>)
    ensures TrimStart(Lower(s)) == Lower(TrimStart(s))
  {
    if s != [] {
      assert Lower(s)[1..] == Lower(s[1..]);
      TrimStartLower(s[1..]);
    }
  }

  lemma {:induction false} TrimEndLower(s: seq<char>)
    ensures TrimEnd(Lower(s)) == Lower(TrimEnd(s))
  {
    if s != [] {
      assert Lower(s)[..|s| - 1] == Lower(s[..|s| - 1]);
      TrimEndLower(s[..|s| - 1]);
    }
  }

  lemma {:induction false} CollapseLower(s: seq<char>)
    decreases |s|
    ensures CollapseWhitespace(Lower(s)) == Lower(CollapseWhitespace(s))
  {
    if s != [] {
      if IsSpaceChar(s[0]) {
        TrimStartLower(s);
        CollapseLower(TrimStart(s));
        LowerAppend([' '], CollapseWhitespace(TrimStart(s)));
      } else {
        assert Lower(s)[1..] == Lower(s[1..]);
        CollapseLower(s[1..]);
        LowerAppend([s[0]], CollapseWhitespace(s[1..]));
      }
    }
  }

  /** Texts that agree up to letter case normalise to the same text. */
  lemma PreprocessIgnoresCase(s1: seq<char>, s2: seq<char>)
    requires Lower(s1) == Lower(s2)
    ensures Preprocess(s1) == Preprocess(s2)
  {
    PreprocessOfLower(s1);
    PreprocessOfLower(s2);
  }

  lemma PreprocessOfLower(s: seq<char>)
    ensures Preprocess(Lower(s)) == Preprocess(s)
  {
    var k := RemovePunctuation(s);
    RemovePunctuationLower(s);
    CollapseLower(k);
    var c := CollapseWhitespace(k);
    TrimStartLower(c);
    TrimEndLower(TrimStart(c));
    LowerIdempotent(Strip(c));
  }

  // ---------------------------------------------------------------------
  // Punctuation insensitivity
  // ---------------------------------------------------------------------

  lemma {:induction false} RemovePunctuationAppend(a: seq<char>, b: seq<char>)
    ensures RemovePunctuation(a + b) == RemovePunctuation(a) + RemovePunctuation(b)
  {
    if a != [] {
      assert (a + b)[1..] == a[1..] + b;
      RemovePunctuationAppend(a[1..], b);
    } else {
      assert a + b == b;
    }
  }

  /** A punctuation character is deleted, not replaced by a space: removing
      it from anywhere in the text does not change the normal form. */
  lemma PreprocessIgnoresPunctuation(a: seq<char>, c: char, b: seq<char>)
    requires !Kept(c)
    ensures Preprocess(a + [c] + b) == Preprocess(a + b)
  {
    RemovePunctuationAppend(a + [c], b);
    RemovePunctuationAppend(a, [c]);
    RemovePunctuationAppend(a, b);
    assert RemovePunctuation([c]) == [] by { assert [c][1..] == []; }
    assert RemovePunctuation(a) + [] == RemovePunctuation(a);
    assert RemovePunctuation(a + [c] + b) == RemovePunctuation(a + b);
  }

  // ---------------------------------------------------------------------
  // Whitespace insensitivity
  // ---------------------------------------------------------------------

  /** `x` and `y` differ at most in which whitespace character stands at
      a position. */
  predicate SameUpToSpaceKind(x: seq<char>, y: seq<char>) {
    |x| == |y| &&
    forall i :: 0 <= i < |x| ==> x[i] == y[i] || (IsSpaceChar(x[i]) && IsSpaceChar(y[i]))
  }

  lemma {:induction false} RemovePunctuationSpaceKind(x: seq<char>, y: seq<char>)
    requires SameUpToSpaceKind(x, y)
    ensures SameUpToSpaceKind(RemovePunctuation(x), RemovePunctuation(y))
  {
    if x != [] {
      RemovePunctuationSpaceKind(x[1..], y[1..]);
    }
  }

  lemma {:induction false} TrimStartSpaceKind(x: seq<char>, y: seq<char>)
    requires SameUpToSpaceKind(x, y)
    ensures SameUpToSpaceKind(TrimStart(x), TrimStart(y))
  {
    if x != [] && IsSpaceChar(x[0]) {
      TrimStartSpaceKind(x[1..], y[1..]);
    }
  }

  lemma {:induction false} CollapseSpaceKind(x: seq<char>, y: seq<char>)
    requires SameUpToSpaceKind(x, y)
    decreases |x|
    ensures CollapseWhitespace(x) == CollapseWhitespace(y)
  {
    if x != [] {
      if IsSpaceChar(x[0]) {
        TrimStartSpaceKind(x, y);
        CollapseSpaceKind(TrimStart(x), TrimStart(y));
      } else {
        CollapseSpaceKind(x[1..], y[1..]);
      }
    }
  }

  /** Which whitespace character separates two words does not matter. */
  lemma PreprocessIgnoresSpaceKind(x: seq<char>, y: seq<char>)
    requires SameUpToSpaceKind(x, y)
    ensures Preprocess(x) == Preprocess(y)
  {
    RemovePunctuationSpaceKind(x, y);
    CollapseSpaceKind(RemovePunctuation(x), RemovePunctuation(y));
  }

  /** `lstrip` of a concatenation. */
  lemma {:induction false} TrimStartAppend(a: seq<char>, x: seq<char>)
    ensures TrimStart(a + x) == if TrimStart(a) == [] then TrimStart(x) else TrimStart(a) + x
  {
    if a == [] {
      assert a + x == x;
    } else if IsSpaceChar(a[0]) {
      assert (a + x)[1..] == a[1..] + x;
      TrimStartAppend(a[1..], x);
    } else {
      assert (a + x)[0] == a[0];
    }
  }

  /** `lstrip` removes a run of one or two whitespace characters the same
      way. */
  lemma TrimStartRun(c: char, d: char, b: seq<char>)
    requires IsSpaceChar(c) && IsSpaceChar(d)
    ensures TrimStart([c, d] + b) == TrimStart(b)
    ensures TrimStart([c] + b) == TrimStart(b)
  {
    assert ([c, d] + b)[1..] == [d] + b;
    assert ([d] + b)[1..] == b;
    assert ([c] + b)[1..] == b;
  }

  /** Collapsing does not see the length of a whitespace run: two
      whitespace characters in a row count as one. */
  lemma {:induction false} CollapseRun(a: seq<char>, c: char, d: char, b: seq<char>)
    requires IsSpaceChar(c) && IsSpaceChar(d)
    decreases |a|
    ensures CollapseWhitespace(a + [c, d] + b) == CollapseWhitespace(a + [c] + b)
  {
    var long, short := a + [c, d] + b, a + [c] + b;
    if a == [] {
      assert long == [c, d] + b && short == [c] + b;
      TrimStartRun(c, d, b);
    } else if IsSpaceChar(a[0]) {
      var t := TrimStart(a);
      assert long == a + ([c, d] + b) && short == a + ([c] + b);
      TrimStartAppend(a, [c, d] + b);
      TrimStartAppend(a, [c] + b);
      if t == [] {
        TrimStartRun(c, d, b);
      } else {
        assert t + ([c, d] + b) == t + [c, d] + b;
        assert t + ([c] + b) == t + [c] + b;
        CollapseRun(t, c, d, b);
      }
    } else {
      assert long[1..] == a[1..] + [c, d] + b;
      assert short[1..] == a[1..] + [c] + b;
      CollapseRun(a[1..], c, d, b);
    }
  }

  /** A run of whitespace normalises as a single whitespace character. */
  lemma PreprocessCollapsesRuns(a: seq<char>, c: char, d: char, b: seq<char>)
    requires IsSpaceChar(c) && IsSpaceChar(d)
    ensures Preprocess(a + [c, d] + b) == Preprocess(a + [c] + b)
  {
    var ra, rb := RemovePunctuation(a), RemovePunctuation(b);
    RemovePunctuationAppend(a + [c, d], b);
    RemovePunctuationAppend(a, [c, d]);
    RemovePunctuationAppend(a + [c], b);
    RemovePunctuationAppend(a, [c]);
    assert RemovePunctuation([c, d]) == [c, d] by { assert AllKept([c, d]); }
    assert RemovePunctuation([c]) == [c] by { assert AllKept([c]); }
    CollapseRun(ra, c, d, rb);
  }
}
