/**
 * `ContentScorer.select_top_items_with_diversity`: one KOL post first, then the news
 * items grouped by category and taken in two passes over the category names in
 * sorted order -- the first item of every category, then the remaining items of
 * each category in turn -- until `total_items` are selected. Every selected item is
 * tagged with its category and a source name.
 *
 * The Python code mutates the dictionaries it selects; here tagging returns a new
 * value, so the `item not in selected` check compares the item as it came in.
 */
module Selector {
  import opened Wrappers
  import opened Text
  import opened Content
  import opened Categorizer

  /** The five news category names in Python string order. */
  const SORTED_NEWS_CATEGORIES: seq<string> :=
    [ALTCOINS_TRENDING, CAPITAL_FLOW, MACRO_POLICY, MAJOR_COINS, TECH_NARRATIVES]

  predicate StrictlySorted(cs: seq<string>) {
    forall i, j :: 0 <= i < j < |cs| ==> LexLess(cs[i], cs[j])
  }

  lemma StrictlySortedDistinct(cs: seq<string>, i: int, j: int)
    requires StrictlySorted(cs) && 0 <= i < |cs| && 0 <= j < |cs| && i != j
    ensures cs[i] != cs[j]
  {
    if i < j {
      LexLessIrreflexive(cs[i]);
    } else {
      LexLessIrreflexive(cs[j]);
    }
  }

  /** The sorted list holds exactly the five news categories, each once, in ascending order. */
  lemma SortedNewsCategories()
    ensures StrictlySorted(SORTED_NEWS_CATEGORIES)
    ensures forall c :: c in SORTED_NEWS_CATEGORIES <==> c in NEWS_CATEGORIES
  {
    var cs := SORTED_NEWS_CATEGORIES;
    assert LexLess(cs[0], cs[1]) && LexLess(cs[1], cs[2]) && LexLess(cs[3], cs[4]);
    assert LexLess(cs[2][1..], cs[3][1..]);
    LexLessTransitive(cs[0], cs[1], cs[2]);
    LexLessTransitive(cs[1], cs[2], cs[3]);
    LexLessTransitive(cs[2], cs[3], cs[4]);
    LexLessTransitive(cs[0], cs[2], cs[3]);
    LexLessTransitive(cs[1], cs[3], cs[4]);
    LexLessTransitive(cs[0], cs[3], cs[4]);
  }

  /** The members of `cs` that are in `keys`, in the order of `cs`. */
  function Present(cs: seq<string>, keys: set<string>): (r: seq<string>)
    ensures forall c :: c in r <==> c in cs && c in keys
    ensures StrictlySorted(cs) ==> StrictlySorted(r)
  {
    if cs == [] then []
    else
      var front := Present(cs[..|cs| - 1], keys);
      var c := cs[|cs| - 1];
      assert StrictlySorted(cs) ==> StrictlySorted(cs[..|cs| - 1]);
      var r := front + (if c in keys then [c] else []);
      assert StrictlySorted(cs) ==> StrictlySorted(r) by {
        if StrictlySorted(cs) && c in keys {
          forall i | 0 <= i < |front| ensures LexLess(front[i], c) {
            assert front[i] in cs[..|cs| - 1];
            var p :| 0 <= p < |cs| - 1 && cs[p] == front[i];
          }
        }
      }
      r
  }

  /** `sorted(categorized_news.keys())` when the keys are news categories: the keys, each once, ascending. */
  function SortedCategories(keys: set<string>): (r: seq<string>)
    ensures forall c :: c in r <==> c in keys && c in NEWS_CATEGORIES
    ensures StrictlySorted(r)
  {
    SortedNewsCategories();
    Present(SORTED_NEWS_CATEGORIES, keys)
  }

  // ---------------------------------------------------------------- grouping

  /** The news items `_categorize_news` files under `c`, in input order. */
  function Group(news: seq<Item>, c: string): (r: seq<Item>)
    ensures forall x <- r :: x in news && Categorize(x) == c
    ensures forall x <- news :: Categorize(x) == c ==> x in r
  {
    if news == [] then []
    else
      var x := news[|news| - 1];
      Group(news[..|news| - 1], c) + (if Categorize(x) == c then [x] else [])
  }

  /** The dictionary `categorized_news` the grouping loop builds. */
  function GroupMap(news: seq<Item>): (m: map<string, seq<Item>>)
    ensures forall c :: c in m ==> c in NEWS_CATEGORIES
  {
    if news == [] then map[]
    else
      var m := GroupMap(news[..|news| - 1]);
      var x := news[|news| - 1];
      var c := Categorize(x);
      m[c := (if c in m then m[c] else []) + [x]]
  }

  /** The grouping dictionary has a key for each category that has items, and holds exactly those items. */
  lemma {:induction false} GroupMapIsGroup(news: seq<Item>)
    ensures forall c :: (c in GroupMap(news) <==> Group(news, c) != [])
    ensures forall c :: c in GroupMap(news) ==> GroupMap(news)[c] == Group(news, c)
  {
    if news != [] {
      GroupMapIsGroup(news[..|news| - 1]);
    }
  }

  /** One more item: its category's list grows by that item, created empty first if missing. */
  lemma GroupMapSnoc(news: seq<Item>, i: nat, c: string)
    requires i < |news| && c == Categorize(news[i])
    ensures GroupMap(news[..i + 1])
         == GroupMap(news[..i])[c := (if c in GroupMap(news[..i]) then GroupMap(news[..i])[c] else []) + [news[i]]]
  {
    assert news[..i + 1][..i] == news[..i];
  }

  // ---------------------------------------------------------------- tagging

  /** `item["category"] = category; item["source_name"] = item.get("source", "Unknown")`. */
  function Tag(x: Item, c: string): Item {
    x.(category := Some(c), sourceName := Some(x.source.GetOr("Unknown")))
  }

  /** Each of `xs` tagged with `c`, in order. */
  function TagAll(xs: seq<Item>, c: string): (r: seq<Item>)
    ensures |r| == |xs|
    ensures forall y <- r :: y.category == Some(c)
  {
    if xs == [] then [] else TagAll(xs[..|xs| - 1], c) + [Tag(xs[|xs| - 1], c)]
  }

  /** The first KOL post tagged as KOL insights, with its username as source name. */
  function KolHead(kolPosts: seq<Item>): (r: seq<Item>)
    ensures |r| <= 1 && (kolPosts != [] <==> r != [])
    ensures forall y <- r :: y.category == Some(KOL_INSIGHTS)
  {
    if kolPosts == [] then []
    else [kolPosts[0].(category := Some(KOL_INSIGHTS), sourceName := Some(kolPosts[0].username.GetOr("Unknown")))]
  }

  /** `xs[1:]`. */
  function Rest(xs: seq<Item>): seq<Item> {
    if xs == [] then [] else xs[1..]
  }

  // ---------------------------------------------------------------- the two passes

  /** A category with items in `groups`. */
  predicate Filled(groups: map<string, seq<Item>>, c: string) {
    c in groups && groups[c] != []
  }

  /** `y` is the first item of some category, tagged. */
  ghost predicate FromFirsts(y: Item, groups: map<string, seq<Item>>) {
    exists c :: Filled(groups, c) && y == Tag(groups[c][0], c)
  }

  /** `y` is an item of `xs`, tagged with `c`. */
  ghost predicate FromItems(y: Item, xs: seq<Item>, c: string) {
    exists x :: x in xs && y == Tag(x, c)
  }

  /** `y` is some grouped item, tagged with its group's category. */
  ghost predicate FromGroups(y: Item, groups: map<string, seq<Item>>) {
    exists c :: c in groups && FromItems(y, groups[c], c)
  }

  /**
   * The first pass: for each category in turn, while fewer than `total` are
   * selected, the category's first item.
   */
  function FirstPass(sel: seq<Item>, groups: map<string, seq<Item>>, cats: seq<string>, total: int): (r: seq<Item>)
    ensures |sel| <= |r| && r[..|sel|] == sel
    ensures |r| <= |sel| || |r| <= total
    ensures forall i :: |sel| <= i < |r| ==> FromFirsts(r[i], groups)
  {
    if cats == [] then sel
    else
      var s := FirstPass(sel, groups, cats[..|cats| - 1], total);
      var c := cats[|cats| - 1];
      if |s| < total && Filled(groups, c) then
        assert FromFirsts(Tag(groups[c][0], c), groups);
        s + [Tag(groups[c][0], c)]
      else s
  }

  /**
   * The inner loop of the second pass: the items of `xs` in turn, while fewer than
   * `total` are selected, each tagged with `c` unless it is already selected.
   */
  function Fill(sel: seq<Item>, xs: seq<Item>, c: string, total: int): (r: seq<Item>)
    ensures |sel| <= |r| && r[..|sel|] == sel
    ensures |r| <= |sel| || |r| <= total
    ensures forall i :: |sel| <= i < |r| ==> FromItems(r[i], xs, c)
  {
    if xs == [] then sel
    else
      var s := Fill(sel, xs[..|xs| - 1], c, total);
      var x := xs[|xs| - 1];
      assert forall y :: FromItems(y, xs[..|xs| - 1], c) ==> FromItems(y, xs, c);
      if |s| < total && x !in s then
        assert FromItems(Tag(x, c), xs, c);
        s + [Tag(x, c)]
      else s
  }

  /** The second pass: for each category in turn, its items after the first. */
  function SecondPass(sel: seq<Item>, groups: map<string, seq<Item>>, cats: seq<string>, total: int): (r: seq<Item>)
    ensures |sel| <= |r| && r[..|sel|] == sel
    ensures |r| <= |sel| || |r| <= total
    ensures forall i :: |sel| <= i < |r| ==> FromGroups(r[i], groups)
  {
    if cats == [] then sel
    else
      var s := SecondPass(sel, groups, cats[..|cats| - 1], total);
      var c := cats[|cats| - 1];
      if c in groups then
        var r := Fill(s, Rest(groups[c]), c, total);
        forall i | |s| <= i < |r| ensures FromGroups(r[i], groups) {
          var x :| x in Rest(groups[c]) && r[i] == Tag(x, c);
          assert x in groups[c];
          assert FromItems(r[i], groups[c], c);
        }
        r
      else s
  }

  /** What `select_top_items_with_diversity` returns. */
  function Selection(kolPosts: seq<Item>, newsItems: seq<Item>, total: int): (r: seq<Item>)
    ensures |r| <= if total < 0 then 0 else total
  {
    var groups := GroupMap(newsItems);
    var cats := SortedCategories(groups.Keys);
    var selected := SecondPass(FirstPass(KolHead(kolPosts), groups, cats, total), groups, cats, total);
    PyPrefix(selected, total)
  }

  // ---------------------------------------------------------------- stopping early

  lemma {:induction false} FirstPassSaturated(sel: seq<Item>, groups: map<string, seq<Item>>, cats: seq<string>,
                                              total: int, k: nat)
    requires k <= |cats| && |FirstPass(sel, groups, cats[..k], total)| >= total
    ensures FirstPass(sel, groups, cats, total) == FirstPass(sel, groups, cats[..k], total)
  {
    if k < |cats| {
      var front := cats[..|cats| - 1];
      assert front[..k] == cats[..k];
      FirstPassSaturated(sel, groups, front, total, k);
    } else {
      assert cats[..k] == cats;
    }
  }

  lemma {:induction false} FillSaturated(sel: seq<Item>, xs: seq<Item>, c: string, total: int, k: nat)
    requires k <= |xs| && |Fill(sel, xs[..k], c, total)| >= total
    ensures Fill(sel, xs, c, total) == Fill(sel, xs[..k], c, total)
  {
    if k < |xs| {
      var front := xs[..|xs| - 1];
      assert front[..k] == xs[..k];
      FillSaturated(sel, front, c, total, k);
    } else {
      assert xs[..k] == xs;
    }
  }

  lemma {:induction false} FillFull(sel: seq<Item>, xs: seq<Item>, c: string, total: int)
    requires |sel| >= total
    ensures Fill(sel, xs, c, total) == sel
  {
    if xs != [] {
      FillFull(sel, xs[..|xs| - 1], c, total);
    }
  }

  lemma {:induction false} SecondPassSaturated(sel: seq<Item>, groups: map<string, seq<Item>>, cats: seq<string>,
                                               total: int, k: nat)
    requires k <= |cats| && |SecondPass(sel, groups, cats[..k], total)| >= total
    ensures SecondPass(sel, groups, cats, total) == SecondPass(sel, groups, cats[..k], total)
  {
    if k < |cats| {
      var front := cats[..|cats| - 1];
      assert front[..k] == cats[..k];
      SecondPassSaturated(sel, groups, front, total, k);
      var c := cats[|cats| - 1];
      if c in groups {
        FillFull(SecondPass(sel, groups, front, total), Rest(groups[c]), c, total);
      }
    } else {
      assert cats[..k] == cats;
    }
  }

  // ---------------------------------------------------------------- the method

  /** Step 2: the grouping loop. */
  method GroupByCategory(newsItems: seq<Item>) returns (categorizedNews: map<string, seq<Item>>)
    ensures categorizedNews == GroupMap(newsItems)
  {
    categorizedNews := map[];
    for i := 0 to |newsItems|
      invariant categorizedNews == GroupMap(newsItems[..i])
    {
      var item := newsItems[i];
      var category := Categorize(item);
      GroupMapSnoc(newsItems, i, category);
      if category !in categorizedNews {
        categorizedNews := categorizedNews[category := []];
      }
      categorizedNews := categorizedNews[category := categorizedNews[category] + [item]];
    }
    assert newsItems[..|newsItems|] == newsItems;
  }

  /** `category_count.get(c, 0)`. */
  function CountOf(categoryCount: map<string, int>, c: string): int {
    if c in categoryCount then categoryCount[c] else 0
  }

  /** The counter's entries: 1 each, for KOL insights and the categories in `done`. */
  predicate CountedOnce(categoryCount: map<string, int>, done: seq<string>) {
    forall c :: c in categoryCount ==> categoryCount[c] == 1 && (c == KOL_INSIGHTS || c in done)
  }

  /** Step 3, first pass: the first item of each category, while there is room. */
  method TakeFirsts(selected0: seq<Item>, categoryCount0: map<string, int>,
                    categorizedNews: map<string, seq<Item>>, cats: seq<string>, totalItems: int)
    returns (selected: seq<Item>, categoryCount: map<string, int>)
    requires StrictlySorted(cats) && forall c <- cats :: c in categorizedNews && c in NEWS_CATEGORIES
    requires CountedOnce(categoryCount0, [])
    ensures selected == FirstPass(selected0, categorizedNews, cats, totalItems)
    ensures CountedOnce(categoryCount, cats)
  {
    selected, categoryCount := selected0, categoryCount0;
    for k := 0 to |cats|
      invariant selected == FirstPass(selected0, categorizedNews, cats[..k], totalItems)
      invariant CountedOnce(categoryCount, cats[..k])
    {
      assert cats[..k + 1][..k] == cats[..k];
      if |selected| >= totalItems {
        FirstPassSaturated(selected0, categorizedNews, cats, totalItems, k);
        assert cats[..k] <= cats;
        break;
      }
      var category := cats[k];
      FreshCategory(categoryCount, cats, k);
      FirstPassStep(selected0, categorizedNews, cats, k, totalItems);
      CountedOnceStep(categoryCount, cats, k);
      if CountOf(categoryCount, category) < 1 && categorizedNews[category] != [] {
        var item := categorizedNews[category][0];
        item := item.(category := Some(category), sourceName := Some(item.source.GetOr("Unknown")));
        selected := selected + [item];
        categoryCount := categoryCount[category := 1];
      }
    }
    assert cats[..|cats|] == cats;
  }

  /** The first pass over one more category. */
  lemma FirstPassStep(sel: seq<Item>, groups: map<string, seq<Item>>, cats: seq<string>, k: nat, total: int)
    requires k < |cats|
    ensures var s := FirstPass(sel, groups, cats[..k], total);
            FirstPass(sel, groups, cats[..k + 1], total)
            == if |s| < total && Filled(groups, cats[k]) then s + [Tag(groups[cats[k]][0], cats[k])] else s
  {
    assert cats[..k + 1][..k] == cats[..k];
  }

  /** KOL insights is not one of the news categories. */
  lemma NewsIsNotKol(c: string)
    requires c in NEWS_CATEGORIES
    ensures c != KOL_INSIGHTS
  {
  }

  /** A category the first pass has not reached yet has not been counted. */
  lemma FreshCategory(categoryCount: map<string, int>, cats: seq<string>, k: nat)
    requires StrictlySorted(cats) && k < |cats| && cats[k] in NEWS_CATEGORIES
    requires CountedOnce(categoryCount, cats[..k])
    ensures cats[k] !in categoryCount
  {
    NewsIsNotKol(cats[k]);
    if cats[k] in categoryCount {
      var j :| 0 <= j < k && cats[j] == cats[k];
      StrictlySortedDistinct(cats, j, k);
    }
  }

  /** Counting one more category keeps every count at 1. */
  lemma CountedOnceStep(categoryCount: map<string, int>, cats: seq<string>, k: nat)
    requires k < |cats| && CountedOnce(categoryCount, cats[..k])
    ensures CountedOnce(categoryCount, cats[..k + 1])
    ensures CountedOnce(categoryCount[cats[k] := 1], cats[..k + 1])
  {
    assert forall c :: c in cats[..k] ==> c in cats[..k + 1];
    assert cats[k] in cats[..k + 1];
  }

  /** The inner loop of the second pass: `rest` in turn, while there is room, skipping items already selected. */
  method TakeRestOf(selected0: seq<Item>, categoryCount0: map<string, int>, rest: seq<Item>, category: string,
                    totalItems: int)
    returns (selected: seq<Item>, categoryCount: map<string, int>)
    ensures selected == Fill(selected0, rest, category, totalItems)
    ensures forall c :: c != category ==> (c in categoryCount <==> c in categoryCount0)
    ensures forall c :: c != category && c in categoryCount ==> categoryCount[c] == categoryCount0[c]
  {
    selected, categoryCount := selected0, categoryCount0;
    for i := 0 to |rest|
      invariant selected == Fill(selected0, rest[..i], category, totalItems)
      invariant forall c :: c != category ==> (c in categoryCount <==> c in categoryCount0)
      invariant forall c :: c != category && c in categoryCount ==> categoryCount[c] == categoryCount0[c]
    {
      assert rest[..i + 1][..i] == rest[..i];
      if |selected| >= totalItems {
        FillSaturated(selected0, rest, category, totalItems, i);
        break;
      }
      var item := rest[i];
      if item !in selected {
        item := item.(category := Some(category), sourceName := Some(item.source.GetOr("Unknown")));
        selected := selected + [item];
        categoryCount := categoryCount[category := CountOf(categoryCount, category) + 1];
      }
    }
    assert rest[..|rest|] == rest;
  }

  /** Step 3, second pass: the items after the first of each category, while there is room. */
  method TakeRests(selected0: seq<Item>, categoryCount0: map<string, int>,
                   categorizedNews: map<string, seq<Item>>, cats: seq<string>, totalItems: int)
    returns (selected: seq<Item>, categoryCount: map<string, int>)
    requires StrictlySorted(cats) && forall c <- cats :: c in categorizedNews
    requires CountedOnce(categoryCount0, cats)
    ensures selected == SecondPass(selected0, categorizedNews, cats, totalItems)
  {
    selected, categoryCount := selected0, categoryCount0;
    for k := 0 to |cats|
      invariant selected == SecondPass(selected0, categorizedNews, cats[..k], totalItems)
      invariant forall j :: k <= j < |cats| && cats[j] in categoryCount ==> categoryCount[cats[j]] <= 1
    {
      assert cats[..k + 1][..k] == cats[..k];
      if |selected| >= totalItems {
        SecondPassSaturated(selected0, categorizedNews, cats, totalItems, k);
        break;
      }
      var category := cats[k];
      if CountOf(categoryCount, category) < 2 {
        forall j | k < j < |cats| ensures cats[j] != category {
          StrictlySortedDistinct(cats, j, k);
        }
        selected, categoryCount := TakeRestOf(selected, categoryCount, Rest(categorizedNews[category]), category, totalItems);
      }
    }
    assert cats[..|cats|] == cats;
  }

  /**
   * `select_top_items_with_diversity`, with its category counter. The counter's
   * checks (`< 1` in the first pass, `< 2` in the second) never fail: each category
   * is visited once per pass, so no category is capped at two items.
   */
  method SelectTopItemsWithDiversity(kolPosts: seq<Item>, newsItems: seq<Item>, totalItems: int)
    returns (result: seq<Item>)
    ensures result == Selection(kolPosts, newsItems, totalItems)
    ensures Raw(newsItems) ==> result == Take(DiversityOrder(kolPosts, newsItems), totalItems)
  {
    var selected: seq<Item> := [];
    var categoryCount: map<string, int> := map[];

    // Step 1: one KOL post.
    if kolPosts != [] {
      var kolItem := kolPosts[0];
      kolItem := kolItem.(category := Some(KOL_INSIGHTS), sourceName := Some(kolItem.username.GetOr("Unknown")));
      selected := selected + [kolItem];
      categoryCount := categoryCount[KOL_INSIGHTS := 1];
    }
    assert selected == KolHead(kolPosts);

    // Step 2: group the news items by category.
    var categorizedNews := GroupByCategory(newsItems);

    // Step 3: two passes over the categories in sorted order.
    var cats := SortedCategories(categorizedNews.Keys);
    selected, categoryCount := TakeFirsts(selected, categoryCount, categorizedNews, cats, totalItems);
    selected, categoryCount := TakeRests(selected, categoryCount, categorizedNews, cats, totalItems);
    result := PyPrefix(selected, totalItems);
    if Raw(newsItems) {
      SelectionOfRawNews(kolPosts, newsItems, totalItems);
    }
  }

  // ---------------------------------------------------------------- what the selection is

  /** `y` is a news item tagged with the category `_categorize_news` gives it. */
  ghost predicate Tagged(y: Item, newsItems: seq<Item>) {
    exists x :: x in newsItems && y == Tag(x, Categorize(x))
  }

  lemma GroupedIsTagged(newsItems: seq<Item>, c: string, x: Item)
    requires c in GroupMap(newsItems) && x in GroupMap(newsItems)[c]
    ensures Tagged(Tag(x, c), newsItems)
  {
    GroupMapIsGroup(newsItems);
  }

  /** A KOL post, when there is one and room for one, comes first. */
  lemma SelectionKolFirst(kolPosts: seq<Item>, newsItems: seq<Item>, total: int)
    requires kolPosts != [] && total >= 1
    ensures Selection(kolPosts, newsItems, total)[0] == KolHead(kolPosts)[0]
  {
    var groups := GroupMap(newsItems);
    var cats := SortedCategories(groups.Keys);
    var k := KolHead(kolPosts);
    var s1 := FirstPass(k, groups, cats, total);
    var s2 := SecondPass(s1, groups, cats, total);
    assert s2[..|s1|][..|k|] == k;
  }

  /** What the two passes select beyond `k` are first items of groups, or grouped items, tagged. */
  lemma PassesSelectFromGroups(k: seq<Item>, groups: map<string, seq<Item>>, cats: seq<string>, total: int, i: int)
    requires 0 <= i < |SecondPass(FirstPass(k, groups, cats, total), groups, cats, total)|
    ensures var s2 := SecondPass(FirstPass(k, groups, cats, total), groups, cats, total);
            (i < |k| && s2[i] == k[i]) || FromFirsts(s2[i], groups) || FromGroups(s2[i], groups)
  {
    var s1 := FirstPass(k, groups, cats, total);
    var s2 := SecondPass(s1, groups, cats, total);
    if i < |s1| {
      assert s2[..|s1|][i] == s1[i];
      if i < |k| {
        assert s1[..|k|][i] == k[i];
      }
    }
  }

  /** Every selected item is the KOL post or a news item tagged with its own category. */
  lemma SelectionTagged(kolPosts: seq<Item>, newsItems: seq<Item>, total: int)
    ensures forall y <- Selection(kolPosts, newsItems, total) :: y in KolHead(kolPosts) || Tagged(y, newsItems)
  {
    var groups := GroupMap(newsItems);
    var cats := SortedCategories(groups.Keys);
    var k := KolHead(kolPosts);
    var s2 := SecondPass(FirstPass(k, groups, cats, total), groups, cats, total);
    forall i | 0 <= i < |s2| ensures s2[i] in k || Tagged(s2[i], newsItems) {
      PassesSelectFromGroups(k, groups, cats, total, i);
      if FromFirsts(s2[i], groups) {
        var c :| Filled(groups, c) && s2[i] == Tag(groups[c][0], c);
        GroupedIsTagged(newsItems, c, groups[c][0]);
      } else if FromGroups(s2[i], groups) {
        var c :| c in groups && FromItems(s2[i], groups[c], c);
        var x :| x in groups[c] && s2[i] == Tag(x, c);
        GroupedIsTagged(newsItems, c, x);
      }
    }
    var r := PyPrefix(s2, total);
    assert forall i :: 0 <= i < |r| ==> r[i] == s2[i];
  }

  /** No news item carries a `category` key yet, as the fetcher delivers them. */
  predicate Raw(news: seq<Item>) {
    forall x <- news :: x.category == None
  }

  /** Python's `s[:n]` for the result of a selection: the first `n` elements, none when `n` is negative. */
  function Take(s: seq<Item>, n: int): (r: seq<Item>)
    ensures |r| == (if n <= 0 then 0 else if n < |s| then n else |s|) && r == s[..|r|]
  {
    if n <= 0 then [] else if n < |s| then s[..n] else s
  }

  /** The first item of each category in `cats` that has one, tagged. */
  function FirstOfEach(groups: map<string, seq<Item>>, cats: seq<string>): (r: seq<Item>)
    ensures forall i :: 0 <= i < |r| ==> r[i].category.Some? && r[i].category.value in cats
  {
    if cats == [] then []
    else
      var c := cats[|cats| - 1];
      FirstOfEach(groups, cats[..|cats| - 1]) + (if Filled(groups, c) then [Tag(groups[c][0], c)] else [])
  }

  /** The items after the first of each category in `cats`, tagged, category by category. */
  function RestOfEach(groups: map<string, seq<Item>>, cats: seq<string>): (r: seq<Item>)
    ensures forall y <- r :: y.category.Some?
  {
    if cats == [] then []
    else
      var c := cats[|cats| - 1];
      RestOfEach(groups, cats[..|cats| - 1]) + (if c in groups then TagAll(Rest(groups[c]), c) else [])
  }

  /**
   * The order the selection follows when nothing stops it: the KOL post, then the
   * first item of every category, then the other items category by category, the
   * categories in sorted order.
   */
  function DiversityOrder(kolPosts: seq<Item>, newsItems: seq<Item>): seq<Item> {
    var groups := GroupMap(newsItems);
    KolHead(kolPosts) + FirstOfEach(groups, SORTED_NEWS_CATEGORIES) + RestOfEach(groups, SORTED_NEWS_CATEGORIES)
  }

  /** `s` followed by as many of `ys` as fit below `total`. */
  function AddUpTo(s: seq<Item>, ys: seq<Item>, total: int): seq<Item> {
    s + Take(ys, total - |s|)
  }

  lemma AddUpToAssoc(s: seq<Item>, a: seq<Item>, b: seq<Item>, total: int)
    ensures AddUpTo(AddUpTo(s, a, total), b, total) == AddUpTo(s, a + b, total)
  {
    var room := total - |s|;
    if room >= |a| {
      assert Take(a, room) == a;
      assert Take(a + b, room) == a + Take(b, room - |a|);
      AppendAssoc(s, a, Take(b, room - |a|));
    } else {
      assert Take(a + b, room) == Take(a, room);
      assert Take(b, total - |AddUpTo(s, a, total)|) == [];
    }
  }

  lemma {:induction false} FirstPassAdds(sel: seq<Item>, groups: map<string, seq<Item>>, cats: seq<string>, total: int)
    ensures FirstPass(sel, groups, cats, total) == AddUpTo(sel, FirstOfEach(groups, cats), total)
  {
    if cats != [] {
      var front := cats[..|cats| - 1];
      var c := cats[|cats| - 1];
      FirstPassAdds(sel, groups, front, total);
      var last := if Filled(groups, c) then [Tag(groups[c][0], c)] else [];
      AddUpToAssoc(sel, FirstOfEach(groups, front), last, total);
    } else {
      assert AddUpTo(sel, [], total) == sel;
    }
  }

  /** Whatever `Fill` selects carries a category when what it started from does. */
  lemma FillKeepsCategorized(sel: seq<Item>, xs: seq<Item>, c: string, total: int)
    requires forall y <- sel :: y.category.Some?
    ensures forall y <- Fill(sel, xs, c, total) :: y.category.Some?
  {
    var s := Fill(sel, xs, c, total);
    forall y | y in s ensures y.category.Some? {
      var i :| 0 <= i < |s| && s[i] == y;
      if i >= |sel| {
        assert FromItems(s[i], xs, c);
      } else {
        assert s[..|sel|][i] == y;
      }
    }
  }

  lemma {:induction false} FillAdds(sel: seq<Item>, xs: seq<Item>, c: string, total: int)
    requires forall y <- sel :: y.category.Some?
    requires forall x <- xs :: x.category == None
    ensures Fill(sel, xs, c, total) == AddUpTo(sel, TagAll(xs, c), total)
  {
    if xs != [] {
      var front := xs[..|xs| - 1];
      var x := xs[|xs| - 1];
      FillAdds(sel, front, c, total);
      var s := Fill(sel, front, c, total);
      FillKeepsCategorized(sel, front, c, total);
      assert x.category == None;
      assert x !in s;
      assert Fill(sel, xs, c, total) == if |s| < total then s + [Tag(x, c)] else s;
      AddUpToAssoc(sel, TagAll(front, c), [Tag(x, c)], total);
      assert AddUpTo(s, [Tag(x, c)], total) == if |s| < total then s + [Tag(x, c)] else s;
    } else {
      assert AddUpTo(sel, [], total) == sel;
    }
  }

  lemma {:induction false} SecondPassAdds(sel: seq<Item>, groups: map<string, seq<Item>>, cats: seq<string>, total: int)
    requires forall y <- sel :: y.category.Some?
    requires forall c :: c in groups ==> forall x <- groups[c] :: x.category == None
    ensures SecondPass(sel, groups, cats, total) == AddUpTo(sel, RestOfEach(groups, cats), total)
  {
    if cats != [] {
      var front := cats[..|cats| - 1];
      var c := cats[|cats| - 1];
      SecondPassAdds(sel, groups, front, total);
      var s := SecondPass(sel, groups, front, total);
      if c in groups {
        var rest := Rest(groups[c]);
        assert forall y <- s :: y.category.Some?;
        assert forall x <- rest :: x in groups[c];
        FillAdds(s, rest, c, total);
        AddUpToAssoc(sel, RestOfEach(groups, front), TagAll(rest, c), total);
      } else {
        assert RestOfEach(groups, cats) == RestOfEach(groups, front) + [];
      }
    } else {
      assert AddUpTo(sel, [], total) == sel;
    }
  }

  lemma {:induction false} FirstOfEachPresent(groups: map<string, seq<Item>>, cs: seq<string>)
    ensures FirstOfEach(groups, Present(cs, groups.Keys)) == FirstOfEach(groups, cs)
  {
    if cs != [] {
      var front := cs[..|cs| - 1];
      var c := cs[|cs| - 1];
      FirstOfEachPresent(groups, front);
      var p := Present(front, groups.Keys);
      if c in groups {
        assert Present(cs, groups.Keys) == p + [c];
        assert (p + [c])[..|p|] == p;
      } else {
        assert Present(cs, groups.Keys) == p;
        assert FirstOfEach(groups, cs) == FirstOfEach(groups, front) + [];
      }
    }
  }

  lemma {:induction false} RestOfEachPresent(groups: map<string, seq<Item>>, cs: seq<string>)
    ensures RestOfEach(groups, Present(cs, groups.Keys)) == RestOfEach(groups, cs)
  {
    if cs != [] {
      var front := cs[..|cs| - 1];
      var c := cs[|cs| - 1];
      RestOfEachPresent(groups, front);
      var p := Present(front, groups.Keys);
      if c in groups {
        assert Present(cs, groups.Keys) == p + [c];
        assert (p + [c])[..|p|] == p;
      } else {
        assert Present(cs, groups.Keys) == p;
        assert RestOfEach(groups, cs) == RestOfEach(groups, front) + [];
      }
    }
  }

  /**
   * The two passes over groups of uncategorized items, sliced to `total`: the first
   * `total` of the leading items, the first of each category, then the rest.
   */
  lemma PassesOfRawGroups(k: seq<Item>, groups: map<string, seq<Item>>, total: int)
    requires |k| <= 1 && forall y <- k :: y.category.Some?
    requires forall c :: c in groups ==> forall x <- groups[c] :: x.category == None
    ensures var cats := Present(SORTED_NEWS_CATEGORIES, groups.Keys);
            PyPrefix(SecondPass(FirstPass(k, groups, cats, total), groups, cats, total), total)
            == Take(k + FirstOfEach(groups, SORTED_NEWS_CATEGORIES) + RestOfEach(groups, SORTED_NEWS_CATEGORIES), total)
  {
    FirstOfEachPresent(groups, SORTED_NEWS_CATEGORIES);
    RestOfEachPresent(groups, SORTED_NEWS_CATEGORIES);
    PassesOver(k, groups, Present(SORTED_NEWS_CATEGORIES, groups.Keys), total);
  }

  /** The two passes over any list of categories, sliced to `total`. */
  lemma PassesOver(k: seq<Item>, groups: map<string, seq<Item>>, cats: seq<string>, total: int)
    requires |k| <= 1 && forall y <- k :: y.category.Some?
    requires forall c :: c in groups ==> forall x <- groups[c] :: x.category == None
    ensures PyPrefix(SecondPass(FirstPass(k, groups, cats, total), groups, cats, total), total)
            == Take(k + FirstOfEach(groups, cats) + RestOfEach(groups, cats), total)
  {
    var first := FirstOfEach(groups, cats);
    var rest := RestOfEach(groups, cats);
    FirstPassAdds(k, groups, cats, total);
    var s1 := FirstPass(k, groups, cats, total);
    AddedTagged(k, first, total);
    SecondPassAdds(s1, groups, cats, total);
    AddUpToAssoc(k, first, rest, total);
    AppendAssoc(k, first, rest);
    SliceAddUpTo(k, first + rest, total);
  }

  /** Extending tagged items by tagged items leaves every item tagged. */
  lemma AddedTagged(k: seq<Item>, first: seq<Item>, total: int)
    requires forall y <- k :: y.category.Some?
    requires forall i :: 0 <= i < |first| ==> first[i].category.Some?
    ensures forall y <- AddUpTo(k, first, total) :: y.category.Some?
  {
    var s := AddUpTo(k, first, total);
    forall y <- s
      ensures y.category.Some?
    {
      var i :| 0 <= i < |s| && s[i] == y;
      if i < |k| {
        assert y in k;
      } else {
        assert y == first[i - |k|];
      }
    }
  }

  /** Python's slice to `total` of `k` extended up to `total`, for at most one leading item. */
  lemma SliceAddUpTo(k: seq<Item>, xs: seq<Item>, total: int)
    requires |k| <= 1
    ensures PyPrefix(AddUpTo(k, xs, total), total) == Take(k + xs, total)
  {
    if total < |k| {
      assert Take(xs, total - |k|) == [];
    } else {
      assert AddUpTo(k, xs, total) == Take(k + xs, total);
    }
  }

  /**
   * For news items that carry no category yet, the selection is the first
   * `total` items of the diversity order.
   */
  lemma SelectionOfRawNews(kolPosts: seq<Item>, newsItems: seq<Item>, total: int)
    requires Raw(newsItems)
    ensures Selection(kolPosts, newsItems, total) == Take(DiversityOrder(kolPosts, newsItems), total)
  {
    var groups := GroupMap(newsItems);
    GroupMapIsGroup(newsItems);
    PassesOfRawGroups(KolHead(kolPosts), groups, total);
  }

  // ---------------------------------------------------------------- the diversity order

  /** The categories of `s`, item by item, strictly ascending. */
  predicate CategoriesAscending(s: seq<Item>) {
    forall i, j :: 0 <= i < j < |s| ==>
      s[i].category.Some? && s[j].category.Some? && LexLess(s[i].category.value, s[j].category.value)
  }

  /** The first pass takes at most one item per category, categories in ascending order. */
  lemma {:induction false} FirstOfEachAscending(groups: map<string, seq<Item>>, cats: seq<string>)
    requires StrictlySorted(cats)
    ensures CategoriesAscending(FirstOfEach(groups, cats))
  {
    if cats != [] {
      var front := cats[..|cats| - 1];
      var c := cats[|cats| - 1];
      FirstOfEachAscending(groups, front);
      var f := FirstOfEach(groups, front);
      if Filled(groups, c) {
        forall i | 0 <= i < |f| ensures LexLess(f[i].category.value, c) {
          var p :| 0 <= p < |front| && front[p] == f[i].category.value;
        }
      }
    }
  }

  lemma {:induction false} FirstOfEachCovers(groups: map<string, seq<Item>>, cats: seq<string>, c: string)
    requires c in cats && Filled(groups, c)
    ensures Tag(groups[c][0], c) in FirstOfEach(groups, cats)
  {
    var front := cats[..|cats| - 1];
    if c != cats[|cats| - 1] {
      assert c in front;
      FirstOfEachCovers(groups, front, c);
    }
  }

  lemma {:induction false} TagAllHas(xs: seq<Item>, c: string, i: int)
    requires 0 <= i < |xs|
    ensures Tag(xs[i], c) in TagAll(xs, c)
  {
    if i < |xs| - 1 {
      TagAllHas(xs[..|xs| - 1], c, i);
    }
  }

  lemma {:induction false} RestOfEachCovers(groups: map<string, seq<Item>>, cats: seq<string>, c: string, i: int)
    requires c in cats && c in groups && 1 <= i < |groups[c]|
    ensures Tag(groups[c][i], c) in RestOfEach(groups, cats)
  {
    var front := cats[..|cats| - 1];
    if c != cats[|cats| - 1] {
      assert c in front;
      RestOfEachCovers(groups, front, c, i);
    } else {
      TagAllHas(Rest(groups[c]), c, i - 1);
    }
  }

  /** The number of items the categories `cats` hold in `groups`. */
  function Sizes(groups: map<string, seq<Item>>, cats: seq<string>): nat {
    if cats == [] then 0
    else
      var c := cats[|cats| - 1];
      Sizes(groups, cats[..|cats| - 1]) + (if c in groups then |groups[c]| else 0)
  }

  /** How often `c` occurs in `cats`. */
  function Occurrences(cats: seq<string>, c: string): nat {
    if cats == [] then 0
    else Occurrences(cats[..|cats| - 1], c) + (if cats[|cats| - 1] == c then 1 else 0)
  }

  lemma {:induction false} EachSizes(groups: map<string, seq<Item>>, cats: seq<string>)
    ensures |FirstOfEach(groups, cats)| + |RestOfEach(groups, cats)| == Sizes(groups, cats)
  {
    if cats != [] {
      EachSizes(groups, cats[..|cats| - 1]);
    }
  }

  lemma {:induction false} SizesGrow(groups: map<string, seq<Item>>, cats: seq<string>, c: string, v: seq<Item>)
    requires |v| == (if c in groups then |groups[c]| else 0) + 1
    ensures Sizes(groups[c := v], cats) == Sizes(groups, cats) + Occurrences(cats, c)
  {
    if cats != [] {
      SizesGrow(groups, cats[..|cats| - 1], c, v);
    }
  }

  lemma {:induction false} OccurrencesAbsent(cats: seq<string>, c: string)
    requires c !in cats
    ensures Occurrences(cats, c) == 0
  {
    if cats != [] {
      OccurrencesAbsent(cats[..|cats| - 1], c);
    }
  }

  /** In a strictly sorted list, each member occurs once. */
  lemma {:induction false} OccurrencesSorted(cats: seq<string>, c: string)
    requires StrictlySorted(cats) && c in cats
    ensures Occurrences(cats, c) == 1
  {
    var n := |cats| - 1;
    var front := cats[..n];
    if cats[n] == c {
      if c in front {
        var j :| 0 <= j < n && front[j] == c;
        StrictlySortedDistinct(cats, j, n);
      }
      OccurrencesAbsent(front, c);
    } else {
      assert c in front;
      OccurrencesSorted(front, c);
    }
  }

  lemma {:induction false} SizesOfNothing(cats: seq<string>)
    ensures Sizes(map[], cats) == 0
  {
    if cats != [] {
      SizesOfNothing(cats[..|cats| - 1]);
    }
  }

  lemma {:induction false} GroupMapSizes(newsItems: seq<Item>)
    ensures Sizes(GroupMap(newsItems), SORTED_NEWS_CATEGORIES) == |newsItems|
  {
    if newsItems != [] {
      var front := newsItems[..|newsItems| - 1];
      var m := GroupMap(front);
      var x := newsItems[|newsItems| - 1];
      var c := Categorize(x);
      var v := (if c in m then m[c] else []) + [x];
      assert GroupMap(newsItems) == m[c := v];
      GroupMapSizes(front);
      SizesGrow(m, SORTED_NEWS_CATEGORIES, c, v);
      SortedNewsCategories();
      OccurrencesSorted(SORTED_NEWS_CATEGORIES, c);
    } else {
      SizesOfNothing(SORTED_NEWS_CATEGORIES);
    }
  }

  /** The diversity order places every news item exactly once: it is as long as the inputs it draws on. */
  lemma DiversityOrderLength(kolPosts: seq<Item>, newsItems: seq<Item>)
    ensures |DiversityOrder(kolPosts, newsItems)| == |KolHead(kolPosts)| + |newsItems|
  {
    EachSizes(GroupMap(newsItems), SORTED_NEWS_CATEGORIES);
    GroupMapSizes(newsItems);
  }

  /** The first-of-each part holds one item per category that has any, in ascending category order. */
  lemma DiversityOrderFirsts(newsItems: seq<Item>)
    ensures CategoriesAscending(FirstOfEach(GroupMap(newsItems), SORTED_NEWS_CATEGORIES))
    ensures forall c :: Group(newsItems, c) != [] ==>
              Tag(Group(newsItems, c)[0], c) in FirstOfEach(GroupMap(newsItems), SORTED_NEWS_CATEGORIES)
  {
    var groups := GroupMap(newsItems);
    SortedNewsCategories();
    FirstOfEachAscending(groups, SORTED_NEWS_CATEGORIES);
    GroupMapIsGroup(newsItems);
    forall c | Group(newsItems, c) != []
      ensures Tag(Group(newsItems, c)[0], c) in FirstOfEach(groups, SORTED_NEWS_CATEGORIES)
    {
      FirstOfEachCovers(groups, SORTED_NEWS_CATEGORIES, c);
    }
  }

  /**
   * When everything fits, every news item is selected, tagged with its category:
   * no category is capped, however many items it has.
   */
  lemma AllNewsSelectedWhenRoom(kolPosts: seq<Item>, newsItems: seq<Item>, total: int)
    requires Raw(newsItems) && |KolHead(kolPosts)| + |newsItems| <= total
    ensures forall x <- newsItems :: Tag(x, Categorize(x)) in Selection(kolPosts, newsItems, total)
  {
    SelectionOfRawNews(kolPosts, newsItems, total);
    DiversityOrderLength(kolPosts, newsItems);
    var d := DiversityOrder(kolPosts, newsItems);
    assert Take(d, total) == d;
    var groups := GroupMap(newsItems);
    GroupMapIsGroup(newsItems);
    SortedNewsCategories();
    forall x | x in newsItems ensures Tag(x, Categorize(x)) in d {
      var c := Categorize(x);
      var g := Group(newsItems, c);
      assert x in g;
      var i :| 0 <= i < |g| && g[i] == x;
      if i == 0 {
        FirstOfEachCovers(groups, SORTED_NEWS_CATEGORIES, c);
      } else {
        RestOfEachCovers(groups, SORTED_NEWS_CATEGORIES, c, i);
      }
    }
  }
}
