/**
 * `DiscordFormatter` (src/formatter.py): `truncate`, and the three messages of
 * `create_batches`. Batch 1 (the market overview, built from floating-point prices
 * and the date) arrives ready-made; batch 2 lists the news section by section in a
 * fixed category order, numbered continuously; batch 3 lists up to five X posts.
 * The time of day printed at the foot of batch 3 is a parameter.
 */
module Formatter {
  import opened Wrappers
  import opened Text
  import opened Content

  // ---------------------------------------------------------------- truncate

  /** `truncate`: empty text gives "", a text within `limit` is kept, a longer one is cut to `limit - 3` plus "...". */
  function Truncate(text: string, limit: int): (r: string)
    ensures limit >= 3 ==> |r| <= limit && (r == text <==> |text| <= limit)
  {
    if text == "" then ""
    else if |text| > limit then PyPrefix(text, limit - 3) + "..."
    else text
  }

  /** For a limit of at least 3, the result fits the limit, and it is the text itself exactly when the text fits. */
  lemma TruncateFits(text: string, limit: int)
    requires limit >= 3
    ensures |Truncate(text, limit)| <= limit
    ensures Truncate(text, limit) == text <==> |text| <= limit
    ensures |text| > limit ==> Truncate(text, limit) == text[..limit - 3] + "..." && |Truncate(text, limit)| == limit
  {
  }

  /** Truncating twice to the same limit (at least 3) is truncating once. */
  lemma TruncateIdempotent(text: string, limit: int)
    requires limit >= 3
    ensures Truncate(Truncate(text, limit), limit) == Truncate(text, limit)
  {
    TruncateFits(text, limit);
    TruncateFits(Truncate(text, limit), limit);
  }

  // ---------------------------------------------------------------- batch 2

  /** The sections of batch 2 in the order of the `categories` dict: category and heading. */
  const SECTIONS: seq<(string, string)> := [
    (MACRO_POLICY, "Macro/Policy"),
    (CAPITAL_FLOW, "Capital Flow"),
    (MAJOR_COINS, "Major Coins"),
    (ALTCOINS_TRENDING, "Altcoins/Trending"),
    (TECH_NARRATIVES, "Tech/Narratives")
  ]

  const NEWS_CATEGORY_SET: set<string> := set c | c in NEWS_CATEGORIES

  const SEPARATOR := "━━━━━━━━━━━━━━━━━━━━━━━━━"
  const CONTINUED := "[續下則訊息...]"
  const SPOTLIGHT_HEADER := "**Community Spotlight**\n\n**X Trending Posts**\n"
  const MARKET_DYNAMICS_HEADER := "**Market Dynamics**\n\n"

  /** `item.get('category', 'macro_policy')`. */
  function EffectiveCategory(x: Item): string {
    x.category.GetOr(MACRO_POLICY)
  }

  /** `grouped_news[c]` once every item is grouped: the items filed under `c`, in input order. */
  function InCategory(items: seq<Item>, c: string): (r: seq<Item>)
    ensures |r| <= |items|
    ensures forall x <- r :: x in items && EffectiveCategory(x) == c
  {
    if items == [] then []
    else
      var x := items[|items| - 1];
      InCategory(items[..|items| - 1], c) + (if EffectiveCategory(x) == c then [x] else [])
  }

  /** One news line: number, summary (the rewrite, else the title), source, link and, when there is one, the image link. */
  function NewsLine(n: int, x: Item): string {
    var line := IntToString(n) + ". " + x.summaryRewritten.GetOr(x.title.GetOr("")) + " | " + x.source.GetOr("Unknown")
      + " | [連結](" + x.url.GetOr("") + ")";
    var imageUrl := x.imageUrl.GetOr("");
    (if imageUrl != "" then line + (" | [\U{1F4F7}](" + imageUrl + ")") else line) + "\n"
  }

  /** The lines of `xs`, numbered from `start`. */
  function NumberedLines(xs: seq<Item>, start: int): string {
    if xs == [] then ""
    else NumberedLines(xs[..|xs| - 1], start) + NewsLine(start + |xs| - 1, xs[|xs| - 1])
  }

  lemma NumberedLinesSnoc(xs: seq<Item>, j: int, start: int)
    requires 0 <= j < |xs|
    ensures NumberedLines(xs[..j + 1], start) == NumberedLines(xs[..j], start) + NewsLine(start + j, xs[j])
  {
    assert xs[..j + 1][..j] == xs[..j];
  }

  /** A section: nothing for an empty category, else its heading, its numbered lines and a blank line. */
  function Section(heading: string, xs: seq<Item>, start: int): string {
    if xs == [] then "" else "**" + heading + "**\n" + NumberedLines(xs, start) + "\n"
  }

  /** The items batch 2 lists, in the order it lists them: section by section. */
  function Listed(items: seq<Item>, sections: seq<(string, string)>): seq<Item> {
    if sections == [] then []
    else Listed(items, sections[..|sections| - 1]) + InCategory(items, sections[|sections| - 1].0)
  }

  /** The sections of batch 2, each numbered on from where the ones before it stopped. */
  function Sections(items: seq<Item>, sections: seq<(string, string)>): string {
    if sections == [] then ""
    else
      var front := sections[..|sections| - 1];
      var last := sections[|sections| - 1];
      Sections(items, front) + Section(last.1, InCategory(items, last.0), 1 + |Listed(items, front)|)
  }

  lemma SectionsSnoc(items: seq<Item>, sections: seq<(string, string)>, k: int, prefix: string, start: int)
    requires 0 <= k < |sections| && start == 1 + |Listed(items, sections[..k])|
    ensures prefix + Sections(items, sections[..k + 1])
         == prefix + Sections(items, sections[..k]) + Section(sections[k].1, InCategory(items, sections[k].0), start)
    ensures Listed(items, sections[..k + 1]) == Listed(items, sections[..k]) + InCategory(items, sections[k].0)
  {
    var front := sections[..k + 1][..k];
    assert front == sections[..k] && sections[..k + 1][k] == sections[k];
    var a := Sections(items, front);
    var b := Section(sections[k].1, InCategory(items, sections[k].0), start);
    assert Sections(items, sections[..k + 1]) == a + b;
    AppendAssoc(prefix, a, b);
  }

  /** Batch 2, "Market Dynamics". */
  function MarketDynamics(items: seq<Item>): string {
    MARKET_DYNAMICS_HEADER + Sections(items, SECTIONS) + (SEPARATOR + "\n" + CONTINUED)
  }

  /** The numbered lines alone, section by section, without headings. */
  function SectionLines(items: seq<Item>, sections: seq<(string, string)>): string {
    if sections == [] then ""
    else
      var front := sections[..|sections| - 1];
      SectionLines(items, front) + NumberedLines(InCategory(items, sections[|sections| - 1].0), 1 + |Listed(items, front)|)
  }

  lemma {:induction false} NumberedLinesAppend(a: seq<Item>, b: seq<Item>, start: int)
    ensures NumberedLines(a + b, start) == NumberedLines(a, start) + NumberedLines(b, start + |a|)
  {
    if b != [] {
      var front := b[..|b| - 1];
      var last := NewsLine(start + |a| + |b| - 1, b[|b| - 1]);
      assert (a + b)[..|a + b| - 1] == a + front;
      assert (a + b)[|a + b| - 1] == b[|b| - 1];
      assert NumberedLines(a + b, start) == NumberedLines(a + front, start) + last;
      NumberedLinesAppend(a, front, start);
      assert NumberedLines(b, start + |a|) == NumberedLines(front, start + |a|) + last;
      AppendAssoc(NumberedLines(a, start), NumberedLines(front, start + |a|), last);
    } else {
      assert a + b == a;
    }
  }

  /**
   * Numbering runs on across sections: the lines of all sections, headings
   * aside, are the listed items numbered 1, 2, 3, ... in listing order.
   */
  lemma {:induction false} NumberingIsContinuous(items: seq<Item>, sections: seq<(string, string)>)
    ensures SectionLines(items, sections) == NumberedLines(Listed(items, sections), 1)
  {
    if sections != [] {
      var front := sections[..|sections| - 1];
      var xs := InCategory(items, sections[|sections| - 1].0);
      assert SectionLines(items, sections) == SectionLines(items, front) + NumberedLines(xs, 1 + |Listed(items, front)|);
      assert Listed(items, sections) == Listed(items, front) + xs;
      NumberingIsContinuous(items, front);
      NumberedLinesAppend(Listed(items, front), xs, 1);
    }
  }

  /** The items of the first `m` sections begin the listing. */
  lemma {:induction false} ListedPrefix(items: seq<Item>, sections: seq<(string, string)>, m: nat)
    requires m <= |sections|
    ensures Listed(items, sections[..m]) <= Listed(items, sections)
    decreases |sections|
  {
    if m < |sections| {
      var front := sections[..|sections| - 1];
      assert front[..m] == sections[..m];
      ListedPrefix(items, front, m);
      var a, b := Listed(items, front[..m]), Listed(items, front);
      var whole := Listed(items, sections);
      assert whole == b + InCategory(items, sections[|sections| - 1].0);
      assert whole[..|a|] == b[..|a|];
    } else {
      assert sections[..m] == sections;
    }
  }

  /**
   * `SectionsSnoc` renders section `k` of batch 2 numbered from `start`, one
   * past the items of the sections before it; those numbers are the items'
   * positions in the listing: the line numbered `n` shows the `n`-th listed
   * item, across all headings.
   */
  lemma SectionNumbersAreListingPositions(items: seq<Item>, sections: seq<(string, string)>, k: nat)
    requires k < |sections|
    ensures var start := 1 + |Listed(items, sections[..k])|;
            var xs := InCategory(items, sections[k].0);
            start - 1 + |xs| <= |Listed(items, sections)|
            && Listed(items, sections)[start - 1..start - 1 + |xs|] == xs
  {
    var start := 1 + |Listed(items, sections[..k])|;
    var xs := InCategory(items, sections[k].0);
    ListedPrefix(items, sections, k + 1);
    var m := sections[..k + 1];
    assert m[..|m| - 1] == sections[..k] && m[|m| - 1] == sections[k];
    var upto := Listed(items, m);
    assert upto == Listed(items, sections[..k]) + xs;
    assert upto[start - 1..] == xs;
    assert Listed(items, sections)[start - 1..start - 1 + |xs|] == upto[start - 1..];
  }

  /** The items whose category is in `cats`, in input order. */
  function ShownIn(items: seq<Item>, cats: set<string>): seq<Item> {
    if items == [] then []
    else
      var x := items[|items| - 1];
      ShownIn(items[..|items| - 1], cats) + (if EffectiveCategory(x) in cats then [x] else [])
  }

  lemma {:induction false} ShownInSplit(items: seq<Item>, cats: set<string>, c: string)
    requires c !in cats
    ensures multiset(ShownIn(items, cats + {c})) == multiset(ShownIn(items, cats)) + multiset(InCategory(items, c))
  {
    if items != [] {
      var front := items[..|items| - 1];
      var x := items[|items| - 1];
      var e := EffectiveCategory(x);
      ShownInSplit(front, cats, c);
      var all, shown, inC := ShownIn(front, cats + {c}), ShownIn(front, cats), InCategory(front, c);
      assert ShownIn(items, cats + {c}) == all + (if e in cats || e == c then [x] else []);
      assert ShownIn(items, cats) == shown + (if e in cats then [x] else []);
      assert InCategory(items, c) == inC + (if e == c then [x] else []);
      ShownInStep(all, shown, inC, x, e in cats, e == c);
    }
  }

  /** One more item, shown under `cats` or under `c` but not both, keeps the split. */
  lemma ShownInStep(all: seq<Item>, shown: seq<Item>, inC: seq<Item>, x: Item, inCats: bool, isC: bool)
    requires multiset(all) == multiset(shown) + multiset(inC) && !(inCats && isC)
    ensures multiset(all + (if inCats || isC then [x] else []))
         == multiset(shown + (if inCats then [x] else [])) + multiset(inC + (if isC then [x] else []))
  {
  }

  function Keys(sections: seq<(string, string)>): set<string> {
    set k | 0 <= k < |sections| :: sections[k].0
  }

  lemma {:induction false} ListedIsShown(items: seq<Item>, sections: seq<(string, string)>)
    requires forall i, j :: 0 <= i < j < |sections| ==> sections[i].0 != sections[j].0
    ensures multiset(Listed(items, sections)) == multiset(ShownIn(items, Keys(sections)))
  {
    if sections == [] {
      assert Keys(sections) == {};
      ShownInNone(items);
    } else {
      var front := sections[..|sections| - 1];
      var c := sections[|sections| - 1].0;
      ListedIsShown(items, front);
      assert Keys(sections) == Keys(front) + {c};
      assert c !in Keys(front);
      ShownInSplit(items, Keys(front), c);
    }
  }

  lemma {:induction false} ShownInNone(items: seq<Item>)
    ensures ShownIn(items, {}) == []
  {
    if items != [] {
      ShownInNone(items[..|items| - 1]);
    }
  }

  /**
   * Batch 2 lists each item filed under one of the five categories exactly once
   * (an item without a category counts as macro/policy) and no other item.
   */
  lemma ListedExactlyOnce(items: seq<Item>)
    ensures multiset(Listed(items, SECTIONS)) == multiset(ShownIn(items, NEWS_CATEGORY_SET))
  {
    ListedIsShown(items, SECTIONS);
    assert Keys(SECTIONS) == NEWS_CATEGORY_SET by {
      assert SECTIONS[0].0 == MACRO_POLICY && SECTIONS[1].0 == CAPITAL_FLOW && SECTIONS[2].0 == MAJOR_COINS;
      assert SECTIONS[3].0 == ALTCOINS_TRENDING && SECTIONS[4].0 == TECH_NARRATIVES;
    }
  }

  /** An item filed under KOL insights, or any category outside the five, is not listed. */
  lemma OtherCategoriesOmitted(items: seq<Item>, x: Item)
    requires x in items && EffectiveCategory(x) !in NEWS_CATEGORIES
    ensures x !in Listed(items, SECTIONS)
  {
    ListedExactlyOnce(items);
    if x in Listed(items, SECTIONS) {
      assert x in multiset(ShownIn(items, NEWS_CATEGORY_SET));
      ShownInHas(items, NEWS_CATEGORY_SET, x);
    }
  }

  lemma {:induction false} ShownInHas(items: seq<Item>, cats: set<string>, x: Item)
    requires x in ShownIn(items, cats)
    ensures EffectiveCategory(x) in cats
  {
    var front := items[..|items| - 1];
    if x in ShownIn(front, cats) {
      ShownInHas(front, cats, x);
    }
  }

  // ---------------------------------------------------------------- batch 3

  /** A post with every key the listing reads (`post['username']` and so on raise `KeyError` otherwise). */
  predicate PostComplete(p: Item) {
    p.username.Some? && p.text.Some? && p.likes.Some? && p.url.Some?
  }

  /** Every one of `posts` has the keys the listing reads. */
  predicate AllComplete(posts: seq<Item>) {
    forall j :: 0 <= j < |posts| ==> PostComplete(posts[j])
  }

  function PostLine(i: int, p: Item): string
    requires PostComplete(p)
  {
    IntToString(i) + ". **[@" + p.username.value + "]** - " + p.text.value + " | 互動數: "
      + IntToString(p.likes.value) + " likes | [貼文連結](" + p.url.value + ")\n"
  }

  /** The lines of `posts`, numbered from 1. */
  function PostLines(posts: seq<Item>): string
    requires AllComplete(posts)
  {
    if posts == [] then "" else PostLines(posts[..|posts| - 1]) + PostLine(|posts|, posts[|posts| - 1])
  }

  /** Batch 3, "Community Spotlight": the first five posts, then the footer with the time of day. */
  function CommunitySpotlight(posts: seq<Item>, generatedAt: string): string
    requires AllComplete(PyPrefix(posts, 5))
  {
    SPOTLIGHT_HEADER + PostLines(PyPrefix(posts, 5)) + Footer(generatedAt)
  }

  /** The foot of batch 3: separator, credits and the time of day. */
  function Footer(generatedAt: string): string {
    "\n" + SEPARATOR + "\nPowered by Manus AI | Data: X, CryptoPanic, CoinGecko\nGenerated at: " + generatedAt + " UTC+8"
  }

  /** Posts after the fifth neither appear nor can make the listing fail. */
  lemma SpotlightIgnoresLaterPosts(posts: seq<Item>, later: seq<Item>, generatedAt: string)
    requires |posts| >= 5 && AllComplete(PyPrefix(posts, 5))
    ensures AllComplete(PyPrefix(posts + later, 5))
    ensures CommunitySpotlight(posts + later, generatedAt) == CommunitySpotlight(posts, generatedAt)
  {
    assert PyPrefix(posts + later, 5) == PyPrefix(posts, 5);
  }

  // ---------------------------------------------------------------- create_batches

  /** The grouping loop of batch 2: a list per news category, in input order; other categories dropped. */
  method GroupNews(newsItems: seq<Item>) returns (groupedNews: map<string, seq<Item>>)
    ensures groupedNews.Keys == NEWS_CATEGORY_SET
    ensures forall c :: c in groupedNews ==> groupedNews[c] == InCategory(newsItems, c)
  {
    groupedNews := map c | c in NEWS_CATEGORIES :: [];
    for i := 0 to |newsItems|
      invariant groupedNews.Keys == NEWS_CATEGORY_SET
      invariant forall c :: c in groupedNews ==> groupedNews[c] == InCategory(newsItems[..i], c)
    {
      var item := newsItems[i];
      assert newsItems[..i + 1][..i] == newsItems[..i];
      var cat := item.category.GetOr(MACRO_POLICY);
      if cat in groupedNews {
        groupedNews := groupedNews[cat := groupedNews[cat] + [item]];
      }
    }
    assert newsItems[..|newsItems|] == newsItems;
  }

  /** The body of the inner loop of batch 2: one line, built piece by piece, without its newline. */
  method FormatNewsLine(newsCounter: int, item: Item) returns (line: string)
    ensures line + "\n" == NewsLine(newsCounter, item)
  {
    var summary := item.summaryRewritten.GetOr(item.title.GetOr(""));
    var source := item.source.GetOr("Unknown");
    var url := item.url.GetOr("");
    var imgUrl := item.imageUrl.GetOr("");
    line := IntToString(newsCounter) + ". " + summary + " | " + source + " | [連結](" + url + ")";
    if imgUrl != "" {
      line := line + (" | [\U{1F4F7}](" + imgUrl + ")");
    }
  }

  /** The inner loop of batch 2: the section's lines, numbered on from `newsCounter0`. */
  method AppendLines(batch0: string, items: seq<Item>, newsCounter0: int) returns (batch2: string, newsCounter: int)
    ensures batch2 == batch0 + NumberedLines(items, newsCounter0)
    ensures newsCounter == newsCounter0 + |items|
  {
    batch2, newsCounter := batch0, newsCounter0;
    for j := 0 to |items|
      invariant batch2 == batch0 + NumberedLines(items[..j], newsCounter0)
      invariant newsCounter == newsCounter0 + j
    {
      var line := FormatNewsLine(newsCounter, items[j]);
      NumberedLinesSnoc(items, j, newsCounter0);
      AppendAssoc(batch0, NumberedLines(items[..j], newsCounter0), line + "\n");
      batch2 := batch2 + (line + "\n");
      newsCounter := newsCounter + 1;
    }
    assert items[..|items|] == items;
  }

  /** Every section of batch 2 is a news category. */
  lemma SectionIdsAreNews()
    ensures forall k :: 0 <= k < |SECTIONS| ==> SECTIONS[k].0 in NEWS_CATEGORY_SET
  {
  }

  /** Heading, lines and a blank line, appended one after the other, make the section. */
  lemma SectionAppended(before: string, name: string, xs: seq<Item>, start: int)
    requires xs != []
    ensures before + ("**" + name + "**\n") + NumberedLines(xs, start) + "\n" == before + Section(name, xs, start)
  {
    var heading := "**" + name + "**\n";
    AppendAssoc(before, heading, NumberedLines(xs, start));
    AppendAssoc(before, heading + NumberedLines(xs, start), "\n");
  }

  /** Batch 2 as the loops build it. */
  method BuildMarketDynamics(newsItems: seq<Item>) returns (batch2: string)
    ensures batch2 == MarketDynamics(newsItems)
  {
    var groupedNews := GroupNews(newsItems);
    batch2 := MARKET_DYNAMICS_HEADER;
    var newsCounter := 1;
    SectionIdsAreNews();
    for k := 0 to |SECTIONS|
      invariant batch2 == MARKET_DYNAMICS_HEADER + Sections(newsItems, SECTIONS[..k])
      invariant newsCounter == 1 + |Listed(newsItems, SECTIONS[..k])|
    {
      var (catId, catName) := SECTIONS[k];
      var items := groupedNews[catId];
      SectionsSnoc(newsItems, SECTIONS, k, MARKET_DYNAMICS_HEADER, newsCounter);
      if items == [] {
        continue;
      }
      ghost var before := batch2;
      ghost var start := newsCounter;
      var heading := "**" + catName + "**\n";
      batch2 := batch2 + heading;
      batch2, newsCounter := AppendLines(batch2, items, newsCounter);
      batch2 := batch2 + "\n";
      SectionAppended(before, catName, items, start);
    }
    assert SECTIONS[..|SECTIONS|] == SECTIONS;
    batch2 := batch2 + (SEPARATOR + "\n" + CONTINUED);
  }

  /** The body of the loop of batch 3: one post's line, newline included. */
  method FormatPostLine(i: int, post: Item) returns (line: string)
    requires PostComplete(post)
    ensures line == PostLine(i + 1, post)
  {
    line := IntToString(i + 1) + ". **[@" + post.username.value + "]** - " + post.text.value
      + " | 互動數: " + IntToString(post.likes.value) + " likes | [貼文連結](" + post.url.value + ")\n";
  }

  lemma PostLinesSnoc(posts: seq<Item>, i: int)
    requires 0 <= i < |posts| && AllComplete(posts[..i]) && PostComplete(posts[i])
    ensures AllComplete(posts[..i + 1])
    ensures PostLines(posts[..i + 1]) == PostLines(posts[..i]) + PostLine(i + 1, posts[i])
  {
    var next := posts[..i + 1];
    assert next[..i] == posts[..i];
    forall j | 0 <= j < |next|
      ensures PostComplete(next[j])
    {
      if j < i {
        assert next[j] == posts[..i][j];
      }
    }
  }

  /** Batch 3 as the loop builds it; `None` at the first of the five posts that lacks a key. */
  method BuildCommunitySpotlight(xPosts: seq<Item>, generatedAt: string) returns (batch3: Option<string>)
    ensures batch3.Some? <==> AllComplete(PyPrefix(xPosts, 5))
    ensures batch3.Some? ==> batch3.value == CommunitySpotlight(xPosts, generatedAt)
  {
    var posts := PyPrefix(xPosts, 5);
    var text := SPOTLIGHT_HEADER;
    for i := 0 to |posts|
      invariant AllComplete(posts[..i])
      invariant text == SPOTLIGHT_HEADER + PostLines(posts[..i])
    {
      var post := posts[i];
      if !PostComplete(post) {
        return None;
      }
      var line := FormatPostLine(i, post);
      PostLinesSnoc(posts, i);
      AppendAssoc(SPOTLIGHT_HEADER, PostLines(posts[..i]), line);
      text := text + line;
    }
    assert posts[..|posts|] == posts;
    text := text + Footer(generatedAt);
    return Some(text);
  }

  /**
   * `create_batches`: `None` when one of the first five posts lacks a key the
   * listing reads (the `KeyError` it raises); otherwise exactly three messages.
   */
  method CreateBatches(batch1: string, newsItems: seq<Item>, xPosts: seq<Item>, generatedAt: string)
    returns (batches: Option<seq<string>>)
    ensures batches.Some? <==> AllComplete(PyPrefix(xPosts, 5))
    ensures batches.Some? ==> batches.value == [batch1, MarketDynamics(newsItems), CommunitySpotlight(xPosts, generatedAt)]
  {
    var batch2 := BuildMarketDynamics(newsItems);
    var batch3 := BuildCommunitySpotlight(xPosts, generatedAt);
    if batch3.None? {
      return None;
    }
    return Some([batch1, batch2, batch3.value]);
  }
}
