/**
 * `ContentScorer` (src/scorer.py): the recency cache of published texts, the two
 * integer scoring formulas, and the threshold-filter-then-sort of scored lists.
 * Reading and writing the cache file, and the clock, are the caller's: the
 * persisted entries, the prune cutoff and the current time arrive as parameters.
 */
module Scorer {
  import opened Wrappers
  import opened Text
  import opened Content
  import opened Patterns
  import opened Keywords

  // ---------------------------------------------------------------- configuration

  /** `MIN_IMPACT_SCORE` and `MIN_KOL_SCORE` at their defaults. */
  const MIN_IMPACT_SCORE := 7
  const MIN_KOL_SCORE := 60

  /** `RECENCY_BONUS["2_hours"]`. */
  const RECENCY_BONUS_2_HOURS := 15

  /** One entry of `CONTENT_KEYWORD_MULTIPLIERS`: a pattern and the points it adds. */
  datatype Rule = Rule(pattern: seq<Term>, weight: int)

  /** `CONTENT_KEYWORD_MULTIPLIERS`, in insertion order, its patterns lower-cased. */
  const CONTENT_KEYWORD_RULES: seq<Rule> := [
    Rule([Lit("sec"), Lit("regulation"), Lit("lawsuit")], 15),
    Rule([Lit("etf"), Lit("approval")], 15),
    Rule([Lit("hack"), Lit("exploit"), Lit("vulnerability")], 20),
    Rule([Lit("all-time high"), Lit("ath"), Lit("new high")], 10),
    Rule([Lit("price target"), DollarAmount(1, {'k'})], 10),
    Rule([Lit("partnership"), Lit("acquisition")], 10),
    Rule([SameLine("btc", "eth"), SameLine("eth", "btc")], 5)
  ]

  /** `\$\d{2,}[mb]|billion|million`. */
  const MONEY_TERMS: seq<Term> := [DollarAmount(2, {'m', 'b'}), Lit("billion"), Lit("million")]

  const OFFICIAL_SOURCES: seq<string> := ["sec", "coinbase", "binance", "ethereum", "bitcoin"]

  // ---------------------------------------------------------------- the recency cache

  /** A value of `published_cache`. A key missing from a persisted entry reads as "". */
  datatype CacheEntry = CacheEntry(text: string, timestamp: string, category: string)

  type Cache = map<string, CacheEntry>

  /**
   * The dict comprehension of `_load_cache`: the entries whose ISO timestamp sorts
   * strictly after `cutoff`, unchanged.
   */
  function Prune(cache: Cache, cutoff: string): (r: Cache)
    ensures r.Keys <= cache.Keys
    ensures forall k :: k in cache ==> (k in r <==> LexLess(cutoff, cache[k].timestamp))
    ensures forall k :: k in r ==> r[k] == cache[k]
  {
    map k | k in cache && LexLess(cutoff, cache[k].timestamp) :: cache[k]
  }

  /** An entry without a timestamp never survives pruning. */
  lemma PruneDropsMissingTimestamp(cache: Cache, cutoff: string, k: string)
    requires k in cache && cache[k].timestamp == ""
    ensures k !in Prune(cache, cutoff)
  {
  }

  /** Pruning with a later cutoff keeps only entries that an earlier cutoff keeps too. */
  lemma PruneLaterCutoffKeepsFewer(cache: Cache, earlier: string, later: string)
    requires LexLess(earlier, later)
    ensures Prune(cache, later).Keys <= Prune(cache, earlier).Keys
  {
    forall k | k in Prune(cache, later)
      ensures k in Prune(cache, earlier)
    {
      LexLessTransitive(earlier, later, cache[k].timestamp);
    }
  }

  /** `is_duplicate`: some cached text is at least 60% similar to `text`. */
  predicate Duplicated(cache: Cache, text: string) {
    exists k :: k in cache && Similarity(text, cache[k].text) >= DEDUP_KEYWORD_THRESHOLD
  }

  /** `item.get("text", item.get("title", ""))`: the text `add_to_cache` stores. */
  function CachedText(item: Item): string {
    item.text.GetOr(item.title.GetOr(""))
  }

  /** The synthetic key `f"{category}_{now}"`. */
  function CacheKey(item: Item, now: string): string {
    item.category.GetOr("unknown") + "_" + now
  }

  function NewEntry(item: Item, now: string): CacheEntry {
    CacheEntry(CachedText(item), now, item.category.GetOr(""))
  }

  /** After `add_to_cache`, the stored text counts as a duplicate whenever it has a keyword. */
  lemma AddedTextIsDuplicate(cache: Cache, item: Item, now: string)
    requires KeywordSet(CachedText(item)) != {}
    ensures Duplicated(cache[CacheKey(item, now) := NewEntry(item, now)], CachedText(item))
  {
    var key := CacheKey(item, now);
    SimilaritySelf(CachedText(item));
    assert key in cache[key := NewEntry(item, now)];
  }

  // ---------------------------------------------------------------- the KOL score

  /** The points the keyword rules add to a lower-cased text: the weights of the matching rules, summed. */
  function KeywordBonus(rules: seq<Rule>, text: string): int {
    if rules == [] then 0
    else
      var last := rules[|rules| - 1];
      KeywordBonus(rules[..|rules| - 1], text) + (if Matches(last.pattern, text) then last.weight else 0)
  }

  /** The recency bonus: 15 points whenever the post carries a non-empty timestamp. */
  function RecencyBonus(post: Item): int {
    if post.timestamp.GetOr("") != "" then RECENCY_BONUS_2_HOURS else 0
  }

  /** The score `_calculate_kol_score` computes. */
  function KolScore(post: Item): (r: int)
    ensures post.baseScore.GetOr(0) <= r <= post.baseScore.GetOr(0) + 100
  {
    var text := Lower(post.text.GetOr(""));
    KeywordBonusNonNegative(CONTENT_KEYWORD_RULES, text);
    KeywordBonusAtMostTotal(CONTENT_KEYWORD_RULES, text);
    ConfiguredTotalWeight();
    post.baseScore.GetOr(0) + KeywordBonus(CONTENT_KEYWORD_RULES, text) + RecencyBonus(post)
  }

  /** With non-negative weights, the bonus is at least each matching rule's weight and at most their total. */
  lemma {:induction false} KeywordBonusBounds(rules: seq<Rule>, text: string, k: nat)
    requires forall r <- rules :: r.weight >= 0
    requires k < |rules| && Matches(rules[k].pattern, text)
    ensures rules[k].weight <= KeywordBonus(rules, text)
  {
    var n := |rules| - 1;
    if k < n {
      KeywordBonusBounds(rules[..n], text, k);
    } else {
      KeywordBonusNonNegative(rules[..n], text);
    }
  }

  lemma {:induction false} KeywordBonusNonNegative(rules: seq<Rule>, text: string)
    requires forall r <- rules :: r.weight >= 0
    ensures 0 <= KeywordBonus(rules, text)
  {
    if rules != [] {
      KeywordBonusNonNegative(rules[..|rules| - 1], text);
    }
  }

  /** The bonus never exceeds the sum of all weights; for the configured rules, 85. */
  lemma {:induction false} KeywordBonusAtMostTotal(rules: seq<Rule>, text: string)
    requires forall r <- rules :: r.weight >= 0
    ensures KeywordBonus(rules, text) <= TotalWeight(rules)
  {
    if rules != [] {
      KeywordBonusAtMostTotal(rules[..|rules| - 1], text);
    }
  }

  function TotalWeight(rules: seq<Rule>): int {
    if rules == [] then 0 else TotalWeight(rules[..|rules| - 1]) + rules[|rules| - 1].weight
  }

  /** The configured weights sum to 85. */
  lemma ConfiguredTotalWeight()
    ensures TotalWeight(CONTENT_KEYWORD_RULES) == 85
  {
    var rules := CONTENT_KEYWORD_RULES;
    assert rules[..7] == rules;
    forall k | 0 <= k < 7 ensures rules[..k + 1][..k] == rules[..k] { }
    assert TotalWeight(rules[..1]) == 15;
    assert TotalWeight(rules[..2]) == 30;
    assert TotalWeight(rules[..3]) == 50;
    assert TotalWeight(rules[..4]) == 60;
    assert TotalWeight(rules[..5]) == 70;
    assert TotalWeight(rules[..6]) == 80;
  }

  /**
   * A KOL post scores at least its base score, at most 100 above it, and gains
   * at least the weight of every keyword rule its text matches.
   */
  lemma KolScoreBounds(post: Item)
    ensures post.baseScore.GetOr(0) <= KolScore(post) <= post.baseScore.GetOr(0) + 100
    ensures forall k :: 0 <= k < |CONTENT_KEYWORD_RULES|
              && Matches(CONTENT_KEYWORD_RULES[k].pattern, Lower(post.text.GetOr("")))
              ==> KolScore(post) >= post.baseScore.GetOr(0) + CONTENT_KEYWORD_RULES[k].weight
  {
    var text := Lower(post.text.GetOr(""));
    KeywordBonusNonNegative(CONTENT_KEYWORD_RULES, text);
    KeywordBonusAtMostTotal(CONTENT_KEYWORD_RULES, text);
    ConfiguredTotalWeight();
    forall k | 0 <= k < |CONTENT_KEYWORD_RULES| && Matches(CONTENT_KEYWORD_RULES[k].pattern, text)
      ensures KolScore(post) >= post.baseScore.GetOr(0) + CONTENT_KEYWORD_RULES[k].weight
    {
      KeywordBonusBounds(CONTENT_KEYWORD_RULES, text, k);
    }
  }

  /** `_calculate_kol_score`: the base score, plus each matching rule's weight in turn, plus the recency bonus. */
  method CalculateKolScore(post: Item) returns (score: int)
    ensures score == KolScore(post)
  {
    score := post.baseScore.GetOr(0);
    var text := Lower(post.text.GetOr(""));
    for i := 0 to |CONTENT_KEYWORD_RULES|
      invariant score == post.baseScore.GetOr(0) + KeywordBonus(CONTENT_KEYWORD_RULES[..i], text)
    {
      var rule := CONTENT_KEYWORD_RULES[i];
      assert CONTENT_KEYWORD_RULES[..i + 1][..i] == CONTENT_KEYWORD_RULES[..i];
      if Matches(rule.pattern, text) {
        score := score + rule.weight;
      }
    }
    assert CONTENT_KEYWORD_RULES[..|CONTENT_KEYWORD_RULES|] == CONTENT_KEYWORD_RULES;
    var timestamp := post.timestamp.GetOr("");
    if timestamp != "" {
      score := score + RECENCY_BONUS_2_HOURS;
    }
  }

  // ---------------------------------------------------------------- the news score

  /** The source names with an official outlet's name in them. */
  predicate IsOfficialSource(source: string) {
    exists k :: 0 <= k < |OFFICIAL_SOURCES| && Contains(source, OFFICIAL_SOURCES[k])
  }

  predicate MentionsMoney(item: Item) {
    Matches(MONEY_TERMS, Lower(item.title.GetOr("") + item.summary.GetOr("")))
  }

  predicate FromOfficialSource(item: Item) {
    IsOfficialSource(Lower(item.source.GetOr("")))
  }

  /**
   * `_calculate_news_quality_score`: 2, plus 2 for a large money amount, 3 for an
   * official source and 2 for kind "news", capped at 10. The cap never bites.
   */
  function NewsQualityScore(item: Item): (r: int)
    ensures 2 <= r <= 9
  {
    var score := 0 + 2;
    var score := score + (if MentionsMoney(item) then 2 else 0);
    var score := score + (if FromOfficialSource(item) then 3 else 0);
    var score := score + (if item.kind == Some("news") then 2 else 0);
    if score < 10 then score else 10
  }

  /** A news item reaches the threshold of 7 exactly when its source is official and it mentions money or is kind "news". */
  lemma NewsScorePassesIff(item: Item)
    ensures NewsQualityScore(item) >= MIN_IMPACT_SCORE
        <==> FromOfficialSource(item) && (MentionsMoney(item) || item.kind == Some("news"))
  {
  }

  // ---------------------------------------------------------------- filter and sort

  /** `x.get("impact_score", 0)`. */
  function ImpactOf(x: Item): int { x.impactScore.GetOr(0) }

  /**
   * The loop of `score_kol_posts` / `score_news_items` before sorting: in input order,
   * each item that scores at least `minScore` and whose `dupKey` text is not a
   * duplicate, with `impact_score` set to its score.
   */
  function Admitted(items: seq<Item>, cache: Cache, score: Item -> int, minScore: int,
                    dupKey: Item -> string): (r: seq<Item>)
    ensures |r| <= |items|
    ensures forall y <- r :: exists x <- items ::
              y == x.(impactScore := Some(score(x))) && score(x) >= minScore && !Duplicated(cache, dupKey(x))
    ensures forall x <- items :: score(x) >= minScore && !Duplicated(cache, dupKey(x))
              ==> x.(impactScore := Some(score(x))) in r
  {
    if items == [] then []
    else
      var x := items[|items| - 1];
      var front := items[..|items| - 1];
      assert items == front + [x];
      Admitted(front, cache, score, minScore, dupKey)
        + (if score(x) >= minScore && !Duplicated(cache, dupKey(x)) then [x.(impactScore := Some(score(x)))] else [])
  }

  /** One more item extends the admitted list by at most that item. */
  lemma AdmittedSnoc(items: seq<Item>, x: Item, cache: Cache, score: Item -> int, minScore: int,
                     dupKey: Item -> string)
    ensures Admitted(items + [x], cache, score, minScore, dupKey)
         == Admitted(items, cache, score, minScore, dupKey)
            + (if score(x) >= minScore && !Duplicated(cache, dupKey(x)) then [x.(impactScore := Some(score(x)))] else [])
  {
    assert (items + [x])[..|items|] == items;
  }

  /** `.sort(key=impact_score, reverse=True)` inserts `x` before the first element it is not below. */
  function InsertByImpact(x: Item, s: seq<Item>): seq<Item> {
    if s == [] || ImpactOf(x) >= ImpactOf(s[0]) then [x] + s
    else [s[0]] + InsertByImpact(x, s[1..])
  }

  /** Python's stable sort by impact score, highest first (an insertion sort gives the same result). */
  function SortByImpact(s: seq<Item>): (r: seq<Item>)
    ensures multiset(r) == multiset(s)
  {
    if s == [] then []
    else
      InsertByImpactPermutes(s[0], SortByImpact(s[1..]));
      assert s == [s[0]] + s[1..];
      InsertByImpact(s[0], SortByImpact(s[1..]))
  }

  predicate NonIncreasing(s: seq<Item>) {
    forall i, j :: 0 <= i < j < |s| ==> ImpactOf(s[i]) >= ImpactOf(s[j])
  }

  /** The items of `s` with impact score `v`, in order. */
  function WithImpact(s: seq<Item>, v: int): seq<Item> {
    if s == [] then []
    else (if ImpactOf(s[0]) == v then [s[0]] else []) + WithImpact(s[1..], v)
  }

  /** Inserting adds `x` and loses nothing. */
  lemma {:induction false} InsertByImpactPermutes(x: Item, s: seq<Item>)
    ensures multiset(InsertByImpact(x, s)) == multiset([x] + s)
  {
    if s != [] && ImpactOf(x) < ImpactOf(s[0]) {
      InsertByImpactPermutes(x, s[1..]);
      assert s == [s[0]] + s[1..];
    }
  }

  /** The head of a non-increasing list scores at least as high as anything in it. */
  lemma HeadIsHighest(s: seq<Item>)
    requires NonIncreasing(s) && s != []
    ensures forall y <- s :: ImpactOf(y) <= ImpactOf(s[0])
  {
    forall y <- s
      ensures ImpactOf(y) <= ImpactOf(s[0])
    {
      var j :| 0 <= j < |s| && s[j] == y;
      if j > 0 {
        assert ImpactOf(s[0]) >= ImpactOf(s[j]);
      }
    }
  }

  /** Dropping the head keeps a list non-increasing. */
  lemma NonIncreasingTail(s: seq<Item>)
    requires NonIncreasing(s) && s != []
    ensures NonIncreasing(s[1..])
  {
    var t := s[1..];
    forall i, j | 0 <= i < j < |t|
      ensures ImpactOf(t[i]) >= ImpactOf(t[j])
    {
      assert t[i] == s[i + 1] && t[j] == s[j + 1];
    }
  }

  /** A head scoring at least as high as everything after it keeps the list non-increasing. */
  lemma NonIncreasingCons(h: Item, t: seq<Item>)
    requires NonIncreasing(t) && forall y <- t :: ImpactOf(y) <= ImpactOf(h)
    ensures NonIncreasing([h] + t)
  {
    var u := [h] + t;
    forall i, j | 0 <= i < j < |u|
      ensures ImpactOf(u[i]) >= ImpactOf(u[j])
    {
      assert u[j] == t[j - 1];
      if i > 0 {
        assert u[i] == t[i - 1];
      } else {
        assert t[j - 1] in t;
      }
    }
  }

  /** Inserting into a non-increasing list keeps it non-increasing. */
  lemma {:induction false} InsertByImpactSorted(x: Item, s: seq<Item>)
    requires NonIncreasing(s)
    ensures NonIncreasing(InsertByImpact(x, s))
  {
    if s == [] {
    } else if ImpactOf(x) >= ImpactOf(s[0]) {
      HeadIsHighest(s);
      NonIncreasingCons(x, s);
    } else {
      var t := s[1..];
      NonIncreasingTail(s);
      InsertByImpactSorted(x, t);
      InsertByImpactPermutes(x, t);
      HeadIsHighest(s);
      var r := InsertByImpact(x, t);
      forall y <- r
        ensures ImpactOf(y) <= ImpactOf(s[0])
      {
        assert y in multiset(r);
        if y != x {
          assert y in multiset(t);
          assert y in s;
        }
      }
      NonIncreasingCons(s[0], r);
    }
  }

  /** Inserting `x` keeps, for every score, the items of that score in their order, `x` first among its equals. */
  lemma {:induction false} InsertByImpactStable(x: Item, s: seq<Item>, v: int)
    ensures WithImpact(InsertByImpact(x, s), v) == WithImpact([x] + s, v)
  {
    if s != [] && ImpactOf(x) < ImpactOf(s[0]) {
      var t := s[1..];
      assert s == [s[0]] + t;
      InsertByImpactStable(x, t, v);
      var r := InsertByImpact(x, t);
      assert WithImpact([s[0]] + r, v) == (if ImpactOf(s[0]) == v then [s[0]] else []) + WithImpact(r, v);
      assert WithImpact([x] + s, v) == (if ImpactOf(x) == v then [x] else []) + WithImpact(s, v);
      assert WithImpact([x] + t, v) == (if ImpactOf(x) == v then [x] else []) + WithImpact(t, v);
      if ImpactOf(x) == v {
        assert ImpactOf(s[0]) != v;
      }
    } else {
      assert [x] + s == [x] + s;
    }
  }

  /**
   * The sort is a permutation, leaves scores non-increasing, and is stable: the items
   * sharing a score keep their input order.
   */
  lemma {:induction false} SortByImpactCorrect(s: seq<Item>)
    ensures NonIncreasing(SortByImpact(s))
    ensures multiset(SortByImpact(s)) == multiset(s)
    ensures forall v :: WithImpact(SortByImpact(s), v) == WithImpact(s, v)
  {
    if s != [] {
      SortByImpactCorrect(s[1..]);
      InsertByImpactSorted(s[0], SortByImpact(s[1..]));
      InsertByImpactPermutes(s[0], SortByImpact(s[1..]));
      assert s == [s[0]] + s[1..];
      forall v ensures WithImpact(SortByImpact(s), v) == WithImpact(s, v) {
        InsertByImpactStable(s[0], SortByImpact(s[1..]), v);
        assert WithImpact([s[0]] + SortByImpact(s[1..]), v)
            == (if ImpactOf(s[0]) == v then [s[0]] else []) + WithImpact(SortByImpact(s[1..]), v);
      }
    }
  }

  // ---------------------------------------------------------------- the scorer object

  function TitleOf(x: Item): string { x.title.GetOr("") }
  function TextOf(x: Item): string { x.text.GetOr("") }

  class ContentScorer {
    var publishedCache: Cache

    /**
     * `__init__` with `_load_cache`: the persisted entries (empty when the file is missing
     * or unreadable) pruned against `cutoff`, the ISO time `CACHE_RETENTION_DAYS` ago.
     */
    constructor (persisted: Cache, cutoff: string)
      ensures publishedCache == Prune(persisted, cutoff)
    {
      publishedCache := Prune(persisted, cutoff);
    }

    /** `is_duplicate`: looks through the cached texts for one at least 60% similar. */
    method IsDuplicate(text: string) returns (dup: bool)
      ensures dup <==> Duplicated(publishedCache, text)
      ensures publishedCache == map[] ==> !dup
    {
      var unseen := publishedCache.Keys;
      while unseen != {}
        invariant unseen <= publishedCache.Keys
        invariant forall k :: k in publishedCache && k !in unseen
                    ==> Similarity(text, publishedCache[k].text) < DEDUP_KEYWORD_THRESHOLD
        decreases unseen
      {
        var k :| k in unseen;
        if Similarity(text, publishedCache[k].text) >= DEDUP_KEYWORD_THRESHOLD {
          return true;
        }
        unseen := unseen - {k};
      }
      return false;
    }

    /**
     * `add_to_cache`: one entry under the key `category_now`, holding the item's text
     * (else its title); every other entry is unchanged.
     */
    method AddToCache(item: Item, now: string)
      modifies this
      ensures publishedCache == old(publishedCache)[CacheKey(item, now) := NewEntry(item, now)]
      ensures KeywordSet(CachedText(item)) != {} ==> Duplicated(publishedCache, CachedText(item))
    {
      publishedCache := publishedCache[CacheKey(item, now) := NewEntry(item, now)];
      if KeywordSet(CachedText(item)) != {} {
        AddedTextIsDuplicate(old(publishedCache), item, now);
      }
    }

    /**
     * The loop shared by `score_kol_posts` and `score_news_items`: in input order, each
     * item whose score reaches `minScore` and whose `dupKey` text is no duplicate, with
     * `impact_score` set to its score.
     */
    method Admit(items: seq<Item>, score: Item -> int, minScore: int, dupKey: Item -> string)
      returns (kept: seq<Item>)
      ensures kept == Admitted(items, publishedCache, score, minScore, dupKey)
    {
      kept := [];
      for i := 0 to |items|
        invariant kept == Admitted(items[..i], publishedCache, score, minScore, dupKey)
      {
        var item := items[i];
        assert items[..i + 1] == items[..i] + [item];
        AdmittedSnoc(items[..i], item, publishedCache, score, minScore, dupKey);
        var s := score(item);
        if s >= minScore {
          var dup := IsDuplicate(dupKey(item));
          if !dup {
            kept := kept + [item.(impactScore := Some(s))];
          }
        }
      }
      assert items[..|items|] == items;
    }

    /** `score_kol_posts`: posts scoring at least 60 whose text is no duplicate, highest score first. */
    method ScoreKolPosts(posts: seq<Item>) returns (scored: seq<Item>)
      ensures scored == SortByImpact(Admitted(posts, publishedCache, KolScore, MIN_KOL_SCORE, TextOf))
    {
      var kept := Admit(posts, KolScore, MIN_KOL_SCORE, TextOf);
      scored := SortByImpact(kept);
    }

    /** `score_news_items`: items scoring at least 7 whose title is no duplicate, highest score first. */
    method ScoreNewsItems(items: seq<Item>) returns (scored: seq<Item>)
      ensures scored == SortByImpact(Admitted(items, publishedCache, NewsQualityScore, MIN_IMPACT_SCORE, TitleOf))
    {
      var kept := Admit(items, NewsQualityScore, MIN_IMPACT_SCORE, TitleOf);
      scored := SortByImpact(kept);
    }
  }
}
