/**
 * Keyword extraction and keyword-overlap similarity (`ContentScorer._extract_keywords`
 * and `ContentScorer._calculate_similarity`). The regular expressions are written
 * out as scans: `http\S+|@\w+|#\w+` is removed left to right, then the maximal runs
 * of word characters of length three or more are the keywords.
 */
module Keywords {
  import opened Text

  /** `re.sub(r"http\S+|@\w+|#\w+", "", s)`: links, mentions and hashtags removed. */
  function StripLinks(s: string): (r: string)
    ensures |r| <= |s|
    decreases |s|
  {
    if |s| > 4 && s[..4] == "http" && NotSpace(s[4]) then
      StripLinks(s[4 + SpanWhile(s[4..], NotSpace)..])
    else if |s| > 1 && (s[0] == '@' || s[0] == '#') && IsWordChar(s[1]) then
      StripLinks(s[1 + SpanWhile(s[1..], IsWordChar)..])
    else if s == [] then []
    else [s[0]] + StripLinks(s[1..])
  }

  /** `re.findall(r"\b\w{3,}\b", s)`: the maximal word-character runs of length at least 3, in order. */
  function LongWords(s: string): seq<string>
    decreases |s|
  {
    if s == [] then []
    else if !IsWordChar(s[0]) then LongWords(s[1..])
    else
      var n := SpanWhile(s, IsWordChar);
      (if n >= 3 then [s[..n]] else []) + LongWords(s[n..])
  }

  /**
   * `s[i..j]` is a run of word characters that cannot be extended on either side:
   * it starts at the text's start or after a non-word character, and the run of
   * word characters from `i` stops at `j`.
   */
  predicate MaximalRun(s: string, i: int, j: int) {
    0 <= i < j <= |s|
    && (i == 0 || !IsWordChar(s[i - 1]))
    && SpanWhile(s[i..], IsWordChar) == j - i
  }

  /** Dropping a prefix that ends before a run keeps the run maximal. */
  lemma MaximalRunShift(s: string, d: nat, i: nat, j: nat)
    requires MaximalRun(s, i, j) && 0 < d <= i
    ensures MaximalRun(s[d..], i - d, j - d) && s[d..][i - d..j - d] == s[i..j]
  {
    assert s[d..][i - d..] == s[i..];
    if i - d > 0 {
      assert s[d..][i - d - 1] == s[i - 1];
    }
  }

  /** A maximal run of a suffix is one of the whole text when the suffix starts after a non-word character. */
  lemma MaximalRunLift(s: string, d: nat, i: nat, j: nat, w: string) returns (i': nat, j': nat)
    requires d <= |s| && MaximalRun(s[d..], i, j) && s[d..][i..j] == w
    requires i == 0 ==> d == 0 || !IsWordChar(s[d - 1])
    ensures i' == i + d && j' == j + d
    ensures MaximalRun(s, i', j') && j' - i' == j - i && s[i'..j'] == w
  {
    i', j' := i + d, j + d;
    assert s[i + d..j + d] == s[d..][i..j];
    assert s[d..][i..] == s[i + d..];
    if i > 0 {
      assert s[d..][i - 1] == s[i + d - 1];
    }
  }

  /** Characters outside a word are skipped. */
  lemma LongWordsSkip(s: string)
    requires s != [] && !IsWordChar(s[0])
    ensures LongWords(s) == LongWords(s[1..])
  {
  }

  /** A run of word characters is taken whole, and kept when it is three or more long. */
  lemma LongWordsRun(s: string) returns (n: nat)
    requires s != [] && IsWordChar(s[0])
    ensures 0 < n <= |s| && n == SpanWhile(s, IsWordChar)
    ensures LongWords(s) == (if n >= 3 then [s[..n]] else []) + LongWords(s[n..])
  {
    n := SpanWhile(s, IsWordChar);
  }

  /** The leading run of word characters is a maximal run. */
  lemma RunAtStart(s: string, n: nat)
    requires 0 < n && n == SpanWhile(s, IsWordChar)
    ensures MaximalRun(s, 0, n) && s[0..n] == s[..n]
  {
    assert s[0..] == s;
  }

  /** A maximal run starts with a word character. */
  lemma RunStartsWithWord(s: string, i: nat, j: nat)
    requires MaximalRun(s, i, j)
    ensures IsWordChar(s[i])
  {
    assert s[i..][0] == s[i];
  }

  /** Every maximal run of at least three word characters is found: its place in the list. */
  lemma {:induction false} LongWordsComplete(s: string, i: nat, j: nat) returns (k: nat)
    requires MaximalRun(s, i, j) && j - i >= 3
    ensures k < |LongWords(s)| && LongWords(s)[k] == s[i..j]
    decreases |s|, 2
  {
    RunStartsWithWord(s, i, j);
    if !IsWordChar(s[0]) {
      LongWordsSkip(s);
      k := CompleteAfterSkip(s, i, j);
    } else if i == 0 {
      var n := LongWordsRun(s);
      assert s[i..] == s;
      RunAtStart(s, n);
      k := 0;
    } else {
      var n := LongWordsRun(s);
      var k' := CompleteAfterRun(s, n, i, j);
      k := BeforeRunIndex(s, n, k');
    }
  }

  /** A run after a skipped character is found in the rest. */
  lemma {:induction false} CompleteAfterSkip(s: string, i: nat, j: nat) returns (k: nat)
    requires MaximalRun(s, i, j) && j - i >= 3 && 0 < i && !IsWordChar(s[0])
    ensures k < |LongWords(s[1..])| && LongWords(s[1..])[k] == s[i..j]
    decreases |s|, 1
  {
    var t := s[1..];
    MaximalRunShift(s, 1, i, j);
    k := LongWordsComplete(t, i - 1, j - 1);
    assert LongWords(t)[k] == t[i - 1..j - 1] == s[i..j];
  }

  /** A run after the leading run is found in the rest. */
  lemma {:induction false} CompleteAfterRun(s: string, n: nat, i: nat, j: nat) returns (k: nat)
    requires MaximalRun(s, i, j) && j - i >= 3 && 0 < i && IsWordChar(s[0]) && n == SpanWhile(s, IsWordChar)
    ensures k < |LongWords(s[n..])| && LongWords(s[n..])[k] == s[i..j]
    decreases |s|, 1
  {
    assert n < i by {
      assert !IsWordChar(s[i - 1]);
    }
    MaximalRunShift(s, n, i, j);
    k := LongWordsComplete(s[n..], i - n, j - n);
  }

  /** The words of what follows the leading run come after the one word it gives, if any. */
  lemma BeforeRunIndex(s: string, n: nat, k': nat) returns (k: nat)
    requires s != [] && IsWordChar(s[0]) && n == SpanWhile(s, IsWordChar) && k' < |LongWords(s[n..])|
    ensures k < |LongWords(s)| && LongWords(s)[k] == LongWords(s[n..])[k']
  {
    var _ := LongWordsRun(s);
    var first := if n >= 3 then [s[..n]] else [];
    k := |first| + k';
    assert (first + LongWords(s[n..]))[k] == LongWords(s[n..])[k'];
  }

  /** Everything found is a maximal run of at least three word characters: its position. */
  lemma {:induction false} LongWordsSound(s: string, k: nat) returns (i: nat, j: nat)
    requires k < |LongWords(s)|
    ensures MaximalRun(s, i, j) && j - i >= 3 && s[i..j] == LongWords(s)[k]
    decreases |s|, 2
  {
    if !IsWordChar(s[0]) {
      LongWordsSkip(s);
      i, j := SoundAfterSkip(s, k);
    } else {
      var n := LongWordsRun(s);
      if n >= 3 && k == 0 {
        i, j := 0, n;
        RunAtStart(s, n);
      } else {
        var k' := PastRunIndex(s, n, k);
        i, j := SoundAfterRun(s, n, k');
      }
    }
  }

  /** A word found after a skipped character is a maximal run one further on. */
  lemma {:induction false} SoundAfterSkip(s: string, k: nat) returns (i: nat, j: nat)
    requires s != [] && !IsWordChar(s[0]) && k < |LongWords(s[1..])|
    ensures MaximalRun(s, i, j) && j - i >= 3 && s[i..j] == LongWords(s[1..])[k]
    decreases |s|, 1
  {
    var i', j' := LongWordsSound(s[1..], k);
    i, j := MaximalRunLift(s, 1, i', j', LongWords(s[1..])[k]);
  }

  /** A word found after the leading run is a maximal run past it. */
  lemma {:induction false} SoundAfterRun(s: string, n: nat, k: nat) returns (i: nat, j: nat)
    requires s != [] && IsWordChar(s[0]) && n == SpanWhile(s, IsWordChar) && k < |LongWords(s[n..])|
    ensures MaximalRun(s, i, j) && j - i >= 3 && s[i..j] == LongWords(s[n..])[k]
    decreases |s|, 1
  {
    var i', j' := LongWordsSound(s[n..], k);
    RunPastLeadingRun(s, n, i', j');
    i, j := MaximalRunLift(s, n, i', j', LongWords(s[n..])[k]);
  }

  /** Past the leading run the list continues with the words of the rest. */
  lemma PastRunIndex(s: string, n: nat, k: nat) returns (k': nat)
    requires s != [] && IsWordChar(s[0]) && n == SpanWhile(s, IsWordChar) && k < |LongWords(s)|
    requires !(n >= 3 && k == 0)
    ensures n <= |s| && k' < |LongWords(s[n..])| && LongWords(s)[k] == LongWords(s[n..])[k']
  {
    var _ := LongWordsRun(s);
    var first := if n >= 3 then [s[..n]] else [];
    k' := k - |first|;
    assert (first + LongWords(s[n..]))[k] == LongWords(s[n..])[k'];
  }

  /** A maximal run of what follows the leading run does not start right at it. */
  lemma RunPastLeadingRun(s: string, n: nat, i: nat, j: nat)
    requires n == SpanWhile(s, IsWordChar) && MaximalRun(s[n..], i, j)
    ensures i > 0
  {
    RunStartsWithWord(s[n..], i, j);
  }

  /** `re.findall(r"\b\w{3,}\b", s)` finds exactly the maximal word runs of length three or more. */
  lemma LongWordsAreLongRuns(s: string, w: string)
    ensures w in LongWords(s) <==> exists i, j :: MaximalRun(s, i, j) && j - i >= 3 && s[i..j] == w
  {
    if w in LongWords(s) {
      var k :| 0 <= k < |LongWords(s)| && LongWords(s)[k] == w;
      var i, j := LongWordsSound(s, k);
    }
    if exists i, j :: MaximalRun(s, i, j) && j - i >= 3 && s[i..j] == w {
      var i, j :| MaximalRun(s, i, j) && j - i >= 3 && s[i..j] == w;
      var k := LongWordsComplete(s, i, j);
    }
  }

  /** The runs found are at least three word characters long, and lower-case when the text is. */
  lemma {:induction false} LongWordsOfLowered(s: string)
    requires forall k :: 0 <= k < |s| ==> LowerChar(s[k]) == s[k]
    ensures forall w <- LongWords(s) :: |w| >= 3 && forall c <- w :: IsWordChar(c) && LowerChar(c) == c
    decreases |s|
  {
    if s != [] {
      if !IsWordChar(s[0]) {
        LongWordsOfLowered(s[1..]);
      } else {
        var n := SpanWhile(s, IsWordChar);
        LongWordsOfLowered(s[n..]);
        forall c <- s[..n]
          ensures IsWordChar(c) && LowerChar(c) == c
        {
          var k :| 0 <= k < n && s[k] == c;
        }
      }
    }
  }

  /** `_extract_keywords`: every keyword is a lower-case run of at least three word characters. */
  function ExtractKeywords(text: string): (ks: seq<string>)
    ensures forall w <- ks :: |w| >= 3 && forall c <- w :: IsWordChar(c) && LowerChar(c) == c
  {
    var lowered := Lower(StripLinks(text));
    LongWordsOfLowered(lowered);
    LongWords(lowered)
  }

  /**
   * The keywords are exactly the maximal runs of at least three word characters
   * in the lower-cased text once links, mentions and hashtags are removed.
   */
  lemma KeywordsAreLongRuns(text: string, w: string)
    ensures var lowered := Lower(StripLinks(text));
            w in ExtractKeywords(text)
            <==> exists i, j :: MaximalRun(lowered, i, j) && j - i >= 3 && lowered[i..j] == w
  {
    assert ExtractKeywords(text) == LongWords(Lower(StripLinks(text)));
    LongWordsAreLongRuns(Lower(StripLinks(text)), w);
  }

  function KeywordSet(text: string): set<string> {
    set w | w in ExtractKeywords(text)
  }

  function Max(a: int, b: int): int { if a < b then b else a }

  /** A set has no more elements than a set containing it. */
  lemma {:induction false} SubsetCard<T>(x: set<T>, y: set<T>)
    requires x <= y
    ensures |x| <= |y|
  {
    if x != {} {
      var e :| e in x;
      SubsetCard(x - {e}, y - {e});
    }
  }

  /** A subset as large as its superset is the superset. */
  lemma SubsetSameCard<T>(x: set<T>, y: set<T>)
    requires x <= y && |x| == |y|
    ensures x == y
  {
    if x != y {
      var e :| e in y && e !in x;
      SubsetCard(x, y - {e});
    }
  }

  /** `shared / larger` as an exact rational, for `0 <= shared <= larger`, `0 < larger`. */
  function Ratio(shared: nat, larger: nat): (r: real)
    requires 0 < larger && shared <= larger
    ensures 0.0 <= r <= 1.0
    ensures r == 0.0 <==> shared == 0
    ensures r == 1.0 <==> shared == larger
  {
    var q := (shared as real) / (larger as real);
    QuotientBounds(shared as real, larger as real);
    q
  }

  /** For `0 <= s <= l` and `0 < l`, `s / l` lies in [0, 1], is 0 only for `s == 0` and 1 only for `s == l`. */
  lemma QuotientBounds(s: real, l: real)
    requires 0.0 < l && 0.0 <= s <= l
    ensures 0.0 <= s / l <= 1.0
    ensures s / l == 0.0 <==> s == 0.0
    ensures s / l == 1.0 <==> s == l
  {
    var q := s / l;
    assert q * l == s;
  }

  /**
   * `_calculate_similarity`: the number of shared keywords over the size of the larger
   * keyword set, and 0 when either text has no keyword. It always lies in [0, 1].
   */
  function Similarity(a: string, b: string): (r: real)
    ensures 0.0 <= r <= 1.0
  {
    var k1, k2 := KeywordSet(a), KeywordSet(b);
    if k1 == {} || k2 == {} then 0.0
    else
      SubsetCard(k1 * k2, k1);
      SubsetCard(k1 * k2, k2);
      Ratio(|k1 * k2|, Max(|k1|, |k2|))
  }

  /** `DEDUP_KEYWORD_THRESHOLD`. */
  const DEDUP_KEYWORD_THRESHOLD: real := 0.6

  lemma SimilaritySymmetric(a: string, b: string)
    ensures Similarity(a, b) == Similarity(b, a)
  {
    assert KeywordSet(a) * KeywordSet(b) == KeywordSet(b) * KeywordSet(a);
  }

  /** Similarity is 0 exactly when the texts share no keyword (in particular when either has none). */
  lemma SimilarityZeroIffDisjoint(a: string, b: string)
    ensures Similarity(a, b) == 0.0 <==> KeywordSet(a) * KeywordSet(b) == {}
  {
  }

  /** Similarity is 1 exactly when both texts have the same, non-empty, keyword set. */
  lemma SimilarityOneIffSameKeywords(a: string, b: string)
    ensures Similarity(a, b) == 1.0 <==> KeywordSet(a) == KeywordSet(b) != {}
  {
    var k1, k2 := KeywordSet(a), KeywordSet(b);
    if k1 != {} && k2 != {} && Similarity(a, b) == 1.0 {
      var m := Max(|k1|, |k2|);
      assert |k1 * k2| == m;
      SubsetCard(k1 * k2, k1);
      SubsetCard(k1 * k2, k2);
      SubsetSameCard(k1 * k2, k1);
      SubsetSameCard(k1 * k2, k2);
    }
    if k1 == k2 && k1 != {} {
      assert k1 * k2 == k1;
    }
  }

  /** A text that has a keyword is fully similar to itself. */
  lemma SimilaritySelf(t: string)
    requires KeywordSet(t) != {}
    ensures Similarity(t, t) == 1.0
  {
    SimilarityOneIffSameKeywords(t, t);
  }
}
