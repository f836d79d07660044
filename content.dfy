/**
 * The item dictionaries that flow between the fetcher, scorer, summarizer and
 * formatter. Python passes plain `dict`s whose keys are added stage by stage;
 * here every key the core reads or writes is a field, `None` standing for a key
 * that is absent (or holds `None`), and `extra` holding any other keys, so that
 * two items are equal exactly when the dictionaries are.
 */
module Content {
  import opened Wrappers

  datatype Item = Item(
    title: Option<string>,
    summary: Option<string>,
    text: Option<string>,
    source: Option<string>,
    url: Option<string>,
    kind: Option<string>,
    username: Option<string>,
    timestamp: Option<string>,
    baseScore: Option<int>,
    likes: Option<int>,
    imageUrl: Option<string>,
    summaryRewritten: Option<string>,
    category: Option<string>,
    sourceName: Option<string>,
    impactScore: Option<int>,
    extra: map<string, string>)

  /** The category names of `ContentScorer.VALID_CATEGORIES`. */
  const MACRO_POLICY := "macro_policy"
  const CAPITAL_FLOW := "capital_flow"
  const MAJOR_COINS := "major_coins"
  const ALTCOINS_TRENDING := "altcoins_trending"
  const TECH_NARRATIVES := "tech_narratives"
  const KOL_INSIGHTS := "kol_insights"

  /** The five categories a news item can be filed under. */
  const NEWS_CATEGORIES: seq<string> :=
    [MACRO_POLICY, CAPITAL_FLOW, MAJOR_COINS, ALTCOINS_TRENDING, TECH_NARRATIVES]
}
