# Crypto Morning Pulse core, in Dafny

A verified model of the content pipeline behind the Crypto Morning Pulse Discord bot.

- **Scoring and de-duplication** (`ContentScorer`, src/scorer.py):
  - keyword extraction and keyword-overlap similarity;
  - the recency cache of published items: pruning, insertion and the duplicate test;
  - the KOL-post and news-quality scores;
  - threshold filtering followed by a stable sort on `impact_score`;
  - the ordered first-match news categoriser;
  - the two-pass "category diversity" selection.
- **Formatting** (`DiscordFormatter`, src/formatter.py):
  - `truncate`;
  - batch 2 of `create_batches`: news grouped by a fixed category order and numbered continuously;
  - batch 3: the first five X posts.
- **Summarising** (`ContentSummarizer`, src/summarizer.py):
  - the subject/action/impact extraction;
  - the per-category one-line rewrite;
  - `summarize_item`.
- **Nitter rotation** (`NitterRotator`, src/data_fetcher.py): round-robin over instances, with a one-hour cooldown after a failure.
- **Enhancing** (`ContentEnhancer`, src/enhancer.py):
  - the text half of `extract_summary`: whitespace normalisation, sentence split after `.`/`!`/`?`, greedy sentence packing under `max_length`, and the fallback cut;
  - the guard around `translate_to_chinese`.

## Layout

| file | module | contents |
|---|---|---|
| wrappers.dfy | `Wrappers` | `Option`, with `GetOr` for `dict.get(key, default)` |
| text.dfy | `Text` | character classes, `lower`, substring search, `strip`, `split`/`join`, Python slicing and string ordering |
| content.dfy | `Content` | the item dictionary as a record of optional fields; category names |
| keywords.dfy | `Keywords` | `_extract_keywords`, `_calculate_similarity` |
| patterns.dfy | `Patterns` | the regular expressions of the scorer as alternations of terms |
| categorizer.dfy | `Categorizer` | `_categorize_news` |
| scorer.dfy | `Scorer` | the cache (class `ContentScorer`), both scores, `score_*` and their sort |
| selector.dfy | `Selector` | `select_top_items_with_diversity` |
| formatter.dfy | `Formatter` | `truncate`, `create_batches` |
| summarizer.dfy | `Summarizer` | `_extract_key_info`, `_rewrite_summary`, `summarize_item` |
| rotator.dfy | `Rotator` | class `NitterRotator` |
| enhancer.dfy | `Enhancer` | `extract_summary` after HTML extraction; `translate_to_chinese` guard |

### How the source is modelled

- **Items.** Item dictionaries are values. Every key the core reads or writes is an `Option` field.
- **Imperative code becomes methods.** Each loop of the source is a method proved equal to a specification function, and the lemmas state the properties of that function. This covers:
  - `_calculate_kol_score`;
  - the filtering loops of `score_*`;
  - `is_duplicate`;
  - the grouping and both passes of the selector;
  - the loops of `create_batches`;
  - the impact search;
  - `get_next_instance`;
  - the sentence packing.
- **State.** The two objects whose fields the source updates are classes:
  - `ContentScorer.published_cache` is a `map` field;
  - `NitterRotator` keeps `instances`, `instance_status` and `current_index`.
- **Clock.** Time is a parameter:
  - the cache works on ISO timestamp strings, compared as Python compares strings;
  - the rotator works on integer microseconds.

### Where the code, not its documentation, is followed

- `_categorize_news` tests `macro_policy` before `capital_flow`.
- Keyword weights are added, not multiplied, despite the name `CONTENT_KEYWORD_MULTIPLIERS`.
- The news score never exceeds 9, although its docstring says 0-10.
- Pass 2 of the selection walks categories in ascending name order.
- The "max 2 per category" test is made once per category, before its inner loop, so it is no cap.
- There is no relevance filter anywhere.
- `create_batches` does no length checking, although the class docstring mentions Discord's 2000-character limit.
- The truncation of `_rewrite_summary` to 280 characters can never fire: an action of at most 150 characters, "，" and an impact of at most 100 make at most 251 (`Summarizer.RewriteIsStrippedTemplate`).
- A `capital_flow` rewrite does not need an action. It can consist of "，" followed by the impact (`Summarizer.CapitalFlowWithoutAction`).

## Model

| member | source | states |
|---|---|---|
| Keywords.ExtractKeywords | src/scorer.py:86-90 | every keyword has at least 3 characters, all word characters, all lower case |
| Keywords.LongWordsOfLowered | src/scorer.py:89 | in lower-cased text every word found has at least 3 characters, all word characters, none upper case |
| Keywords.LongWordsComplete | src/scorer.py:89 | every maximal run of at least 3 word characters is among the words found |
| Keywords.LongWordsSound | src/scorer.py:89 | every word found is a maximal run of at least 3 word characters |
| Keywords.LongWordsAreLongRuns | src/scorer.py:89 | a string is found iff it is a maximal run of at least 3 word characters |
| Keywords.KeywordsAreLongRuns | src/scorer.py:86-90 | a string is a keyword iff it is a maximal run of at least 3 word characters of the lower-cased text left after links, mentions and hashtags are removed |
| Keywords.Ratio | src/scorer.py:109-113 | shared/larger lies in [0, 1]; it is 0 iff nothing is shared and 1 iff all is shared |
| Keywords.Similarity | src/scorer.py:103-113 | the similarity of two texts lies in [0, 1] |
| Keywords.SimilaritySymmetric | src/scorer.py:103-113 | similarity does not depend on the order of its arguments |
| Keywords.SimilarityZeroIffDisjoint | src/scorer.py:103-113 | similarity is 0 exactly when the keyword sets share nothing, which includes either set being empty |
| Keywords.SimilarityOneIffSameKeywords | src/scorer.py:103-113 | similarity is 1 exactly when both texts have the same non-empty keyword set |
| Keywords.SimilaritySelf | src/scorer.py:103-113 | a text with a keyword is fully similar to itself |
| Scorer.Prune | src/scorer.py:55-61 | the loaded cache keeps exactly the entries whose timestamp sorts after the cutoff, unchanged |
| Scorer.PruneDropsMissingTimestamp | src/scorer.py:60 | an entry without a timestamp never survives pruning |
| Scorer.PruneLaterCutoffKeepsFewer | src/scorer.py:55-61 | a later cutoff keeps a subset of the entries |
| Scorer.ContentScorer.constructor | src/scorer.py:41-61 | the cache starts as the pruned persisted cache |
| Scorer.ContentScorer.IsDuplicate | src/scorer.py:125-134 | true iff some cached text has similarity at least 0.6 with the text; false on an empty cache |
| Scorer.ContentScorer.AddToCache | src/scorer.py:353-358 | exactly one entry, keyed `category_timestamp`, is added or replaced, holding `text` (else `title`); once added, a text with a keyword counts as a duplicate |
| Scorer.AddedTextIsDuplicate | src/scorer.py:353-358 | after insertion the stored text is a duplicate whenever it has a keyword |
| Scorer.KeywordBonusBounds | src/scorer.py:150-152 | a matching keyword pattern contributes at least its weight to the bonus |
| Scorer.KeywordBonusNonNegative | src/scorer.py:150-152 | the keyword bonus is never negative |
| Scorer.KeywordBonusAtMostTotal | src/scorer.py:150-152 | the keyword bonus is at most the sum of all weights |
| Scorer.ConfiguredTotalWeight | src/config.py:69-77 | the configured keyword weights add up to 85 |
| Scorer.KolScore | src/scorer.py:146-165 | the KOL score lies between `base_score` and `base_score` + 100 |
| Scorer.KolScoreBounds | src/scorer.py:146-165 | the KOL score lies between `base_score` and `base_score` + 100, and is at least `base_score` plus the weight of any matching pattern |
| Scorer.CalculateKolScore | src/scorer.py:146-165 | the accumulating loop computes the KOL score: base, every matching weight, and 15 for a non-empty timestamp |
| Scorer.NewsQualityScore | src/scorer.py:177-197 | the news score lies in 2..9 |
| Scorer.NewsScorePassesIff | src/scorer.py:177-197 | a news item reaches 7 iff its source is official and it either mentions money or is of kind "news" |
| Scorer.Admitted | src/scorer.py:211-216 | every kept item is an input with a passing score and no duplicate, carrying its score; every such input is kept |
| Scorer.AdmittedSnoc | src/scorer.py:211-216 | one more input extends the kept list by at most that item |
| Scorer.InsertByImpactPermutes | src/scorer.py:219 | inserting adds exactly the one item |
| Scorer.InsertByImpactSorted | src/scorer.py:219 | inserting into a list sorted by score keeps it sorted |
| Scorer.InsertByImpactStable | src/scorer.py:219 | inserting keeps items of equal score in their order |
| Scorer.SortByImpact | src/scorer.py:219 | sorting keeps exactly the items it was given, as a multiset |
| Scorer.SortByImpactCorrect | src/scorer.py:219 | the sort is by non-increasing score, is a permutation, and keeps equal scores in input order |
| Scorer.ContentScorer.Admit | src/scorer.py:211-216 | the filtering loop keeps exactly the admitted items |
| Scorer.ContentScorer.ScoreKolPosts | src/scorer.py:209-222 | result is the posts scoring at least 60 whose text is no duplicate, stably sorted by score |
| Scorer.ContentScorer.ScoreNewsItems | src/scorer.py:234-247 | result is the items scoring at least 7 whose title is no duplicate, stably sorted by score |
| Categorizer.Categorize | src/scorer.py:259-273 | the category is one of the five news categories, never `kol_insights` |
| Categorizer.FirstMatch | src/scorer.py:262-273 | an ordered rule list yields the first matching rule's category, or the default when none matches |
| Categorizer.CategorizeIsFirstMatch | src/scorer.py:259-273 | categorisation is the first match in the order macro_policy, capital_flow, major_coins, altcoins_trending, tech_narratives, defaulting to macro_policy |
| Categorizer.MacroPolicyTakesPrecedence | src/scorer.py:262-265 | any text matching the macro terms is macro_policy, whatever else it matches |
| Categorizer.WhaleTransferWithSecIsMacroPolicy | src/scorer.py:262-265 | a whale transfer mentioning the SEC is filed under macro_policy, not capital_flow |
| Selector.SortedNewsCategories | src/scorer.py:316 | the five categories in Python's string order are strictly ascending |
| Selector.StrictlySortedDistinct | src/scorer.py:316 | sorted category keys are distinct |
| Selector.Present | src/scorer.py:316 | the categories kept are exactly those listed and present, still ascending |
| Selector.SortedCategories | src/scorer.py:316 | `sorted(categorized_news.keys())` lists exactly the present categories, strictly ascending |
| Selector.Group | src/scorer.py:305-310 | a group holds exactly the news items categorised under it |
| Selector.GroupMap | src/scorer.py:305-310 | grouping only creates news-category keys |
| Selector.GroupMapIsGroup | src/scorer.py:305-310 | a category is a key iff its group is non-empty, and the key maps to that group in input order |
| Selector.GroupByCategory | src/scorer.py:305-310 | the grouping loop builds exactly that map |
| Selector.TagAll | src/scorer.py:322-323 | tagging keeps the length and sets the category of every item |
| Selector.KolHead | src/scorer.py:297-302 | the KOL head is at most one item, present iff there are KOL posts, tagged `kol_insights` |
| Selector.FirstPass | src/scorer.py:316-325 | pass 1 extends the selection with first items of groups and stops at `total_items` |
| Selector.Fill | src/scorer.py:334-341 | the inner loop extends the selection with items of one group and stops at `total_items` |
| Selector.SecondPass | src/scorer.py:328-341 | pass 2 extends the selection with items of the groups and stops at `total_items` |
| Selector.FirstPassSaturated | src/scorer.py:317-318 | once the selection is full, later categories add nothing |
| Selector.FillSaturated | src/scorer.py:335-336 | once the selection is full, later items add nothing |
| Selector.FillFull | src/scorer.py:335-336 | a full selection is not extended |
| Selector.SecondPassSaturated | src/scorer.py:329-330 | once the selection is full, later categories add nothing |
| Selector.TakeFirsts | src/scorer.py:316-325 | the pass-1 loop computes pass 1 and counts each category it took once |
| Selector.TakeRestOf | src/scorer.py:334-341 | the inner loop of pass 2 computes `Fill` and touches only its own category's count |
| Selector.TakeRests | src/scorer.py:328-341 | the pass-2 loop computes pass 2 |
| Selector.SelectTopItemsWithDiversity | src/scorer.py:293-344 | the method computes the selection; for untagged news held in distinct dict objects, that is the first `total_items` of: KOL head, then each category's first item, then each category's remaining items |
| Selector.GroupedIsTagged | src/scorer.py:320-323 | a grouped item, tagged with its group, carries its own category |
| Selector.Selection | src/scorer.py:293-344 | at most `total_items` items are returned, and none when `total_items` is negative |
| Selector.SelectionKolFirst | src/scorer.py:297-301 | with KOL posts and room for one item, the first KOL post comes first, tagged `kol_insights` with its username as source |
| Selector.PassesSelectFromGroups | src/scorer.py:316-341 | every selected item is the KOL head, a group's first item or an item of a group |
| Selector.SelectionTagged | src/scorer.py:296-341 | every selected news item carries `_categorize_news` of itself as category |
| Selector.Take | src/scorer.py:344 | Python's `s[:n]` for a sequence |
| Selector.FirstOfEach | src/scorer.py:316-325 | the first items, one per listed category, each carrying its category |
| Selector.RestOfEach | src/scorer.py:328-341 | the remaining items of the listed categories, each tagged |
| Selector.AddUpToAssoc | src/scorer.py:316-341 | adding two lists up to the bound is adding their concatenation |
| Selector.FirstPassAdds | src/scorer.py:316-325 | pass 1 appends the first items in category order up to the bound |
| Selector.FillKeepsCategorized | src/scorer.py:337-341 | filling keeps every selected item categorised |
| Selector.FillAdds | src/scorer.py:337-341 | for untagged news held in distinct dict objects, `item not in selected` never skips, so a group's rest is appended in order up to the bound |
| Selector.SecondPassAdds | src/scorer.py:328-341 | pass 2 appends the rests in category order up to the bound |
| Selector.FirstOfEachPresent | src/scorer.py:316 | iterating only over present categories yields the same first items |
| Selector.RestOfEachPresent | src/scorer.py:328 | iterating only over present categories yields the same rests |
| Selector.PassesOfRawGroups | src/scorer.py:313-344 | both passes then the final slice are a prefix of KOL head + first items + rests |
| Selector.SliceAddUpTo | src/scorer.py:344 | the final slice of a bounded addition is a plain prefix |
| Selector.SelectionOfRawNews | src/scorer.py:293-344 | for untagged news, the selection is the first `total_items` of the diversity order |
| Selector.FirstOfEachAscending | src/scorer.py:316-325 | pass 1's items have strictly ascending categories |
| Selector.FirstOfEachCovers | src/scorer.py:316-325 | every non-empty category contributes its first item to pass 1 |
| Selector.TagAllHas | src/scorer.py:338-339 | every item of a group appears tagged |
| Selector.RestOfEachCovers | src/scorer.py:334-341 | every non-first item of a listed group is in pass 2's items |
| Selector.EachSizes | src/scorer.py:316-341 | first items plus rests number exactly the grouped items |
| Selector.SizesGrow | src/scorer.py:308-310 | appending to one group grows the total by that group's occurrences |
| Selector.OccurrencesAbsent | src/scorer.py:316 | an unlisted category occurs zero times |
| Selector.OccurrencesSorted | src/scorer.py:316 | a listed category occurs once in a strictly sorted list |
| Selector.SizesOfNothing | src/scorer.py:305 | no groups, no items |
| Selector.GroupMapSizes | src/scorer.py:305-310 | grouping loses and duplicates no item |
| Selector.DiversityOrderLength | src/scorer.py:296-341 | the diversity order has one entry per news item plus the KOL head |
| Selector.DiversityOrderFirsts | src/scorer.py:316-325 | pass 1's items are ascending by category and include each non-empty category's first item |
| Selector.AllNewsSelectedWhenRoom | src/scorer.py:293-344 | when all fit, every news item is selected, tagged with its category |
| Formatter.Truncate | src/formatter.py:14-17 | for limit ≥ 3 the result fits the limit, and it is the text itself iff the text fits |
| Formatter.TruncateFits | src/formatter.py:16-17 | for limit ≥ 3 the result fits the limit; it is the text itself iff the text fits; otherwise it is the first limit-3 characters and "...", exactly `limit` long |
| Formatter.TruncateIdempotent | src/formatter.py:16-17 | truncating twice is truncating once |
| Formatter.InCategory | src/formatter.py:66-70 | a category's list holds only items whose category, defaulting to macro_policy, is that one |
| Formatter.GroupNews | src/formatter.py:66-70 | the grouping loop makes one list per section, each holding that category's items in input order |
| Formatter.NumberedLinesSnoc | src/formatter.py:79-90 | one more item adds one line with the next number |
| Formatter.SectionsSnoc | src/formatter.py:74-91 | one more section appends its heading block, numbered after all earlier sections |
| Formatter.NumberedLinesAppend | src/formatter.py:79-90 | numbering two lists in a row is numbering their concatenation |
| Formatter.NumberingIsContinuous | src/formatter.py:73-91 | the news lines of all sections together, headings left out, are numbered 1, 2, 3, ... over the listed items in section order |
| Formatter.ListedPrefix | src/formatter.py:73-91 | the items of the first sections begin the listing |
| Formatter.SectionNumbersAreListingPositions | src/formatter.py:73-91 | the section that batch 2 renders numbered from `start` (one past the items of the sections before it) holds exactly the listed items at positions `start` on, so the line numbered n shows the n-th listed item across all headings |
| Formatter.ShownInSplit | src/formatter.py:66-70 | adding a category to the shown set adds exactly its items |
| Formatter.ListedIsShown | src/formatter.py:66-78 | with distinct section keys, the listed items are the items whose category is a section key |
| Formatter.ShownInNone | src/formatter.py:66-70 | no sections, nothing shown |
| Formatter.ListedExactlyOnce | src/formatter.py:58-91 | batch 2 lists exactly the items of the five news categories (no category meaning macro_policy), each once |
| Formatter.OtherCategoriesOmitted | src/formatter.py:66-70 | an item of any other category, `kol_insights` included, is not listed |
| Formatter.ShownInHas | src/formatter.py:66-70 | a shown item's category is in the shown set |
| Formatter.SpotlightIgnoresLaterPosts | src/formatter.py:97-101 | posts after the fifth do not change batch 3 |
| Formatter.FormatNewsLine | src/formatter.py:80-89 | a line shows `summary_rewritten` (else title), source (else "Unknown") and url, with the image link iff `image_url` is non-empty |
| Formatter.AppendLines | src/formatter.py:79-90 | the inner loop appends the numbered lines and advances the counter by the item count |
| Formatter.BuildMarketDynamics | src/formatter.py:72-93 | batch 2 is the header, then the non-empty sections in fixed order, then the separator |
| Formatter.FormatPostLine | src/formatter.py:101 | a post line shows its 1-based number, username, text, likes and url |
| Formatter.PostLinesSnoc | src/formatter.py:99-101 | one more post adds one numbered line |
| Formatter.BuildCommunitySpotlight | src/formatter.py:97-107 | batch 3 lists the first five posts, numbered from 1; it fails iff one of them lacks a required key |
| Formatter.CreateBatches | src/formatter.py:28-110 | exactly three batches (overview, market dynamics, spotlight), or failure iff a listed post lacks a key |
| Summarizer.FirstBreakFrom | src/summarizer.py:52 | the first `[.!?]\s` position at or after a point |
| Summarizer.SplitAtBreaks | src/summarizer.py:52 | splitting yields one more piece than separators; no piece contains a break; every separator is a stop followed by whitespace |
| Summarizer.AfterSeparatorUnspaced | src/summarizer.py:52 | a separator takes the whole run of whitespace after its stop |
| Summarizer.FirstPieceStartsText | src/summarizer.py:52 | the first piece is empty or starts with the text's first character |
| Summarizer.SplitAtBreaksCons | src/summarizer.py:52 | at a break, the pieces are the text before it followed by the pieces of what comes after the separator |
| Summarizer.SplitAtBreaksStartsUnspaced | src/summarizer.py:52 | each separator takes its whole run of whitespace: every piece after the first is empty or starts outside whitespace |
| Summarizer.SplitAtBreaksRoundTrip | src/summarizer.py:52 | pieces and separators interleaved give back the text |
| Summarizer.NoBreakOneSentence | src/summarizer.py:52 | text without a break is one sentence |
| Summarizer.Sentences | src/summarizer.py:52 | `re.split` never yields an empty list |
| Summarizer.FindImpact | src/summarizer.py:63-67 | the search loop returns the first hit among its candidates, cut to 100 characters, or "" |
| Summarizer.ExtractKeyInfo | src/summarizer.py:43-76 | the method computes the subject/action/impact record |
| Summarizer.ActionIsFirstSentence | src/summarizer.py:51-60 | `action` is the stripped first sentence cut to 150 characters, whole when shorter |
| Summarizer.MentionsIsContains | src/summarizer.py:65 | the keyword test is substring containment |
| Summarizer.ImpactIsFirstMatch | src/summarizer.py:63-67 | `impact` is at most 100 characters; it is "" iff neither sentence 2 nor 3 mentions an impact word; otherwise it is the first of them that does, and no later sentence is examined |
| Summarizer.KeyInfoImpact | src/summarizer.py:63-67 | the record's impact is the first impact among sentences 2-3 |
| Summarizer.SplitFieldsOfJoin | src/summarizer.py:71-74 | joining words with single spaces and splitting again gives the words back |
| Summarizer.SubjectIsFirstTitleWords | src/summarizer.py:71-74 | the subject's words are the first three words of the title |
| Summarizer.Rewrite | src/summarizer.py:104-152 | the rewrite has at most 280 characters |
| Summarizer.RewriteSummary | src/summarizer.py:99-152 | the rewrite of a title and text has at most 280 characters |
| Summarizer.UnknownCategoryEmpty | src/summarizer.py:104-146 | any category outside the six handled gives "" |
| Summarizer.CapitalFlowNeedsFlowWord | src/summarizer.py:113-118 | capital_flow gives "" unless the text mentions "drain" or "flow", in any case |
| Summarizer.EmptyActionEmpty | src/summarizer.py:106-146 | the five action categories give "" when the action is empty |
| Summarizer.FirstImpact | src/summarizer.py:63-67 | the impact found is at most 100 characters |
| Summarizer.KeyInfoOf | src/summarizer.py:51-76 | the record's action is at most 150 characters and its impact at most 100 |
| Summarizer.RewriteIsStrippedTemplate | src/summarizer.py:104-152 | when a template applies it is at most 251 characters, so the 280 cut never fires, and the result is the stripped action + "，" + impact |
| Summarizer.LeadingStopSentences | src/summarizer.py:52 | a text opening with ". " splits into an empty first sentence and the rest |
| Summarizer.EmptyFirstSentenceInfo | src/summarizer.py:51-67 | such a text has an empty action and the rest as its impact |
| Summarizer.CapitalFlowWithoutAction | src/summarizer.py:113-118 | a capital_flow text opening with ". " rewrites to "，" + impact, although its action is empty |
| Summarizer.CapitalFlowImpactOnly | src/summarizer.py:113-118 | with an empty action and an impact, capital_flow yields "，" + impact |
| Summarizer.LeadingCommaStripped | src/summarizer.py:152 | the final strip keeps a leading full-width comma |
| Summarizer.SummarizeItem | src/summarizer.py:174-187 | the item is unchanged when title or summary is empty; otherwise only `summary_rewritten` is set, and only to a rewrite longer than 20 characters (and at most 280) |
| Rotator.Advance | src/data_fetcher.py:49 | the index stays inside the instance list |
| Rotator.AdvanceStep | src/data_fetcher.py:49 | each examined instance moves the index by one, modulo the list length |
| Rotator.FirstAvailable | src/data_fetcher.py:47-63 | the search passes over exactly the instances in cooldown, stopping at the first that is not |
| Rotator.RotationCovers | src/data_fetcher.py:47-49 | one full turn from any index meets every instance |
| Rotator.NothingAvailableIffAllCooling | src/data_fetcher.py:46-65 | nothing is found iff every instance is in cooldown, an empty list included |
| Rotator.FailureCoolsDownForAnHour | src/data_fetcher.py:54-58 | a failed instance is skipped for exactly one hour after its failure; a healthy one never |
| Rotator.NitterRotator.constructor | src/data_fetcher.py:30-37 | every instance starts healthy with no failure, index 0 |
| Rotator.NitterRotator.GetNextInstance | src/data_fetcher.py:39-65 | returns the first instance in rotation order not in cooldown, healthy afterwards, index one past it; None when all are cooling, index back where it started, statuses unchanged |
| Rotator.NitterRotator.MarkFailed | src/data_fetcher.py:67-77 | a known instance becomes unhealthy, failed now; an unknown one changes nothing; no other instance changes |
| Rotator.NitterRotator.MarkHealthy | src/data_fetcher.py:79-88 | a known instance becomes healthy with its last failure kept; an unknown one changes nothing |
| Enhancer.TranslateToChinese | src/enhancer.py:43-75 | texts shorter than 3 characters come back unchanged; otherwise the result is the text or a non-empty translation of its first 500 characters, and the text whenever the service fails or returns ""; a non-empty translation replaces the text |
| Enhancer.TranslationSeesOnlyPrefix | src/enhancer.py:50-56 | the request carries only `text[:500]`: with the service modelled as a function of the request, texts agreeing on their first 500 characters translate alike |
| Enhancer.CollapseSpaces | src/enhancer.py:116 | after collapsing, every whitespace character is a single space with no whitespace after it |
| Enhancer.CollapseEdges | src/enhancer.py:116 | the result is empty iff the text is, and it starts (ends) with a space iff the text starts (ends) with whitespace |
| Enhancer.CollapseKeepsFields | src/enhancer.py:116 | collapsing keeps the words `str.split()` finds: each run of whitespace becomes one space and none vanishes |
| Enhancer.NonSpacesSkip | src/enhancer.py:116 | leading whitespace contributes no characters |
| Enhancer.CollapseKeepsNonSpaces | src/enhancer.py:116 | collapsing keeps every non-whitespace character, in order |
| Enhancer.SingleSpacedSlice | src/enhancer.py:116 | any piece of single-spaced text is single-spaced |
| Enhancer.Normalize | src/enhancer.py:116 | normalised text has no whitespace at either end |
| Enhancer.NormalizeSingleSpaced | src/enhancer.py:116 | normalised text is single-spaced |
| Enhancer.FirstStopBreakFrom | src/enhancer.py:119 | the first whitespace that follows `.`, `!` or `?`, at or after a point |
| Enhancer.SplitAfterStops | src/enhancer.py:119 | splitting yields one more sentence than separators |
| Enhancer.SplitAfterStopsCutsAtStops | src/enhancer.py:119 | no sentence contains whitespace after `.`, `!` or `?`; every sentence before a separator is non-empty and ends in one of them; every later sentence starts outside whitespace; the first is a prefix of the text |
| Enhancer.SeparatorsAreWhitespace | src/enhancer.py:119 | every separator removed is a non-empty run of whitespace |
| Enhancer.Sentences | src/enhancer.py:119 | `re.split` never yields an empty list |
| Enhancer.SplitAfterStopsRoundTrip | src/enhancer.py:119 | sentences and removed whitespace interleaved give back the text, punctuation kept |
| Enhancer.SingleSpacedSeparators | src/enhancer.py:116-119 | on normalised text every separator is one space |
| Enhancer.Concat | src/enhancer.py:124 | sentences each followed by a space end in a space |
| Enhancer.ConcatAppend | src/enhancer.py:124 | appending sentence lists appends their texts |
| Enhancer.ConcatOfSingleSpaced | src/enhancer.py:116-124 | on normalised text, all sentences each followed by a space are the text and one space |
| Enhancer.Pack | src/enhancer.py:120-126 | packing only appends to the summary so far, and once it appends, the result is at most `max_length` + 1 characters |
| Enhancer.PackIsGreedy | src/enhancer.py:122-126 | packing takes the first k sentences whole, each fitting when its turn came, and stops at the first that does not fit, skipping none |
| Enhancer.PackedLength | src/enhancer.py:122-126 | packed sentences take at most `max_length` + 1 characters, counting the trailing space |
| Enhancer.PackSentences | src/enhancer.py:120-126 | the loop with its `break` computes the greedy packing |
| Enhancer.StripPrefixOfPadded | src/enhancer.py:128 | stripping a space-ended prefix of text + " " gives a shorter prefix of the text |
| Enhancer.PackedIsPaddedPrefix | src/enhancer.py:116-128 | the packed summary is a prefix of the text and one space, ending in a space |
| Enhancer.SummaryOf | src/enhancer.py:115-132 | for `max_length` ≥ 0 the summary has at most `max_length` characters and is a prefix of the normalised text |
| Enhancer.ExtractSummary | src/enhancer.py:115-132 | the method computes the summary: packed sentences stripped, else the first `max_length` characters; it fits and is a prefix |

## Left out

- In-place mutation and aliasing of item dictionaries are not modelled. The scorer, the selector and `summarize_item` are modelled as returning updated copies. A caller that kept the original dictionary would see the update in Python but not here. Items are also compared by value: Python's `item not in selected` (src/scorer.py:337) checks identity before `==`, so when one dict object appears twice in `news_items` Python skips the second copy in pass 2 (the tags written on the first are on it too), where the model appends it again (its selected copy carries the tags, the other does not).
- I/O is not modelled:
  - the JSON cache file (`_load_cache` reads it, `_save_cache` writes it);
  - the logger;
  - the HTTP translation call (modelled as a `service` parameter);
  - HTML parsing with BeautifulSoup (`extract_summary` starts from the extracted text);
  - `DataFetcher`, `enhance_item`/`enhance_items` and `summarize_items`, which are network, asyncio and timeouts.
- Batch 1 of `create_batches` and `format_currency` are left out: they format floats and the wall-clock date. Batch 1 and the generation time are parameters.
- Scorer.ContentScorer.AddToCache: `datetime.now()` is read twice in the source (key and timestamp); the model uses one `now` for both.
- Rotator.NitterRotator.GetNextInstance: `datetime.now()` is read once per examined instance in the source; the model reads one `now` per call.
- Character classes: whitespace (`\s`, `str.isspace`, `str.split()`) is Python's full Unicode set, as `Text.IsSpace` lists it. The word class `\w` (and with it `\b`), the digit class `\d` and `str.lower()` are only their ASCII parts here. Python's `\w` also holds non-ASCII letters such as 特, its `\d` holds other decimal digits, and its `lower()` maps non-ASCII capitals too (U+212A KELVIN SIGN becomes `k`). On text holding such characters the members below can differ from the source; on ASCII text they agree.
- Keywords.ExtractKeywords: a non-ASCII letter or digit ends a word here but not in Python, and non-ASCII capitals are not lower-cased.
- Categorizer.Categorize: the word boundaries of the `\bbitcoin\b`-style coin terms use the ASCII `\w`. For the title "比特btc" with an empty summary the model sees a boundary before `btc` and answers major_coins; Python sees none and falls through to macro_policy.
- Scorer.KolScore: the `\$\d+k` price pattern counts ASCII digits only, and the text is lower-cased over ASCII only.
- Scorer.NewsQualityScore: the `\$\d{2,}[mb]` money pattern counts ASCII digits only, and title, summary and source are lower-cased over ASCII only.
- Summarizer.Hit: the impact words are searched in a sentence lower-cased over ASCII only.
- Summarizer.Rewrite: the capital_flow test for "drain" or "flow" lower-cases the text over ASCII only.
- A dictionary key present with the value `None` is treated as absent, so `.get(key, default)` returns the default for it.
- Formatter.CreateBatches: a `KeyError` from a post missing `username`, `text`, `likes` or `url` is modelled as `None`; a key present with `None` as value, which Python would format as "None", counts as missing.
- Enhancer.ExtractSummary: the `except` branch that returns "" is not modelled; no exception is possible in the text half modelled here.
- Summarizer.RewriteSummary: the `except` branch that returns "" is not modelled; nothing in the modelled string work raises.
- The integer scores and counters are unbounded, as in Python.
