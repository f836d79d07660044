/**
 * `ContentScorer._categorize_news`: an item is filed under the first category whose
 * pattern occurs in its lower-cased title followed directly by its summary, and
 * under macro/policy when none does. Macro/policy is tried before capital flow.
 */
module Categorizer {
  import opened Wrappers
  import opened Text
  import opened Content
  import opened Patterns

  const MACRO_TERMS: seq<Term> := [Lit("sec"), Lit("regulation"), Lit("law"), Lit("policy"), Lit("etf")]
  const CAPITAL_TERMS: seq<Term> := [Lit("inflow"), Lit("outflow"), Lit("whale"), Lit("transfer"), Lit("drain")]
  const MAJOR_COIN_TERMS: seq<Term> :=
    [Word("bitcoin"), Word("btc"), Word("ethereum"), Word("eth"), Word("solana"), Word("sol")]
  const ALTCOIN_TERMS: seq<Term> :=
    [Lit("altcoin"), Lit("token"), Lit("memecoin"), Lit("trending"), Lit("surge"), Lit("pump")]
  const TECH_TERMS: seq<Term> :=
    [Lit("layer"), Lit("l2"), Lit("defi"), Lit("rwa"), Lit("ai"), Lit("zk"), Lit("protocol")]

  /** The rules in the order `_categorize_news` tries them. */
  const CATEGORY_RULES: seq<(string, seq<Term>)> := [
    (MACRO_POLICY, MACRO_TERMS),
    (CAPITAL_FLOW, CAPITAL_TERMS),
    (MAJOR_COINS, MAJOR_COIN_TERMS),
    (ALTCOINS_TRENDING, ALTCOIN_TERMS),
    (TECH_NARRATIVES, TECH_TERMS)
  ]

  /** The text the rules are searched in: title and summary joined with no separator, lower-cased. */
  function CategoryText(item: Item): string {
    Lower(item.title.GetOr("") + item.summary.GetOr(""))
  }

  /** `_categorize_news`: always one of the five news categories, never KOL insights. */
  function Categorize(item: Item): (c: string)
    ensures c in NEWS_CATEGORIES && c != KOL_INSIGHTS
  {
    var text := CategoryText(item);
    if Matches(MACRO_TERMS, text) then MACRO_POLICY
    else if Matches(CAPITAL_TERMS, text) then CAPITAL_FLOW
    else if Matches(MAJOR_COIN_TERMS, text) then MAJOR_COINS
    else if Matches(ALTCOIN_TERMS, text) then ALTCOINS_TRENDING
    else if Matches(TECH_TERMS, text) then TECH_NARRATIVES
    else MACRO_POLICY
  }

  /**
   * An ordered rule list applied to `text`: the name of the first rule whose pattern
   * matches, and `default` when none matches.
   */
  function FirstMatch(rules: seq<(string, seq<Term>)>, text: string, default: string): (c: string)
    ensures (exists k :: 0 <= k < |rules| && Matches(rules[k].1, text) && c == rules[k].0
                         && forall j :: 0 <= j < k ==> !Matches(rules[j].1, text))
         || (c == default && forall j :: 0 <= j < |rules| ==> !Matches(rules[j].1, text))
  {
    if rules == [] then default
    else if Matches(rules[0].1, text) then rules[0].0
    else
      var c := FirstMatch(rules[1..], text, default);
      assert forall j :: 1 <= j < |rules| ==> rules[j] == rules[1..][j - 1];
      c
  }

  /** `_categorize_news` is the first-match rule list with macro/policy as the default. */
  lemma CategorizeIsFirstMatch(item: Item)
    ensures Categorize(item) == FirstMatch(CATEGORY_RULES, CategoryText(item), MACRO_POLICY)
  {
    var text := CategoryText(item);
    var rules := CATEGORY_RULES;
    assert rules[1..][1..][1..][1..][1..] == [];
    // Unfold FirstMatch once per rule.
    assert FirstMatch(rules, text, MACRO_POLICY)
        == if Matches(MACRO_TERMS, text) then MACRO_POLICY else FirstMatch(rules[1..], text, MACRO_POLICY);
    assert FirstMatch(rules[1..], text, MACRO_POLICY)
        == if Matches(CAPITAL_TERMS, text) then CAPITAL_FLOW else FirstMatch(rules[1..][1..], text, MACRO_POLICY);
    assert FirstMatch(rules[1..][1..], text, MACRO_POLICY)
        == if Matches(MAJOR_COIN_TERMS, text) then MAJOR_COINS
           else FirstMatch(rules[1..][1..][1..], text, MACRO_POLICY);
    assert FirstMatch(rules[1..][1..][1..], text, MACRO_POLICY)
        == if Matches(ALTCOIN_TERMS, text) then ALTCOINS_TRENDING
           else FirstMatch(rules[1..][1..][1..][1..], text, MACRO_POLICY);
  }

  /** A macro/policy word anywhere decides the category, whatever else the text mentions. */
  lemma MacroPolicyTakesPrecedence(item: Item)
    requires Matches(MACRO_TERMS, CategoryText(item))
    ensures Categorize(item) == MACRO_POLICY
  {
  }

  /**
   * "Whale transfers $50M to Binance amid new SEC filing" is filed under macro/policy:
   * "sec" is searched for before any capital-flow word.
   */
  lemma WhaleTransferWithSecIsMacroPolicy()
    ensures Categorize(Item(Some("Whale transfers $50M to Binance amid new SEC filing"), Some(""),
                            None, None, None, None, None, None, None, None, None, None, None, None, None,
                            map[])) == MACRO_POLICY
  {
    var title := "Whale transfers $50M to Binance amid new SEC filing";
    var text := Lower(title + "");
    assert text[41] == 's' && text[42] == 'e' && text[43] == 'c';
    assert OccursAt(text, "sec", 41);
    assert TermMatches(MACRO_TERMS[0], text);
  }
}
