/**
 * `ContentSummarizer` (src/summarizer.py): the key facts of an article
 * (subject, action, impact) taken from its title and text, the one-line rewrite
 * built from them per category, and the item that receives the rewrite.
 */
module Summarizer {
  import opened Wrappers
  import opened Text
  import opened Content

  // ---------------------------------------------------------------- sentences

  /** A sentence break `[.!?]\s+` starts at `i`. */
  predicate BreakAt(s: string, i: int) {
    0 <= i && i + 1 < |s| && IsStop(s[i]) && IsSpace(s[i + 1])
  }

  /** The first break at or after `i`, or `|s|` when there is none. */
  function FirstBreakFrom(s: string, i: nat): (k: nat)
    requires i <= |s|
    ensures i <= k <= |s|
    ensures k < |s| ==> BreakAt(s, k)
    ensures forall j :: i <= j < k ==> !BreakAt(s, j)
    decreases |s| - i
  {
    if i == |s| then |s|
    else if BreakAt(s, i) then i
    else FirstBreakFrom(s, i + 1)
  }

  /** A separator `re.split(r'[.!?]\s+', ...)` removes: a stop and all the whitespace after it. */
  predicate IsSeparator(sep: string) {
    |sep| >= 2 && IsStop(sep[0]) && forall k :: 1 <= k < |sep| ==> IsSpace(sep[k])
  }

  /** A piece between separators holds no break. */
  predicate Unbroken(piece: string) {
    forall i :: 0 <= i < |piece| ==> !BreakAt(piece, i)
  }

  /**
   * `re.split(r'[.!?]\s+', s)` together with the separators it removes: the
   * leftmost break is cut first and its whitespace is taken whole.
   */
  function SplitAtBreaks(s: string): (r: (seq<string>, seq<string>))
    ensures |r.0| == |r.1| + 1
    ensures forall p <- r.0 :: Unbroken(p)
    ensures forall sep <- r.1 :: IsSeparator(sep)
    decreases |s|
  {
    var k := FirstBreakFrom(s, 0);
    if k == |s| then ([s], [])
    else
      var n := 1 + SpanWhile(s[k + 1..], IsSpace);
      BreakSeparator(s, k);
      PrefixUnbroken(s, k);
      var rest := SplitAtBreaks(s[k + n..]);
      ([s[..k]] + rest.0, [s[k..k + n]] + rest.1)
  }

  /** What follows a separator does not start with whitespace: the separator took the whole run. */
  lemma AfterSeparatorUnspaced(s: string, k: nat)
    requires BreakAt(s, k)
    ensures var t := s[k + 1 + SpanWhile(s[k + 1..], IsSpace)..];
            t == [] || !IsSpace(t[0])
  {
    var n := 1 + SpanWhile(s[k + 1..], IsSpace);
    if k + n < |s| {
      assert s[k + n..][0] == s[k + 1..][n - 1];
    }
  }

  /**
   * Each separator takes its whole run of whitespace: every piece after the
   * first is empty or starts outside whitespace.
   */
  lemma {:induction false} SplitAtBreaksStartsUnspaced(s: string)
    ensures var pieces := SplitAtBreaks(s).0;
            forall i :: 1 <= i < |pieces| ==> StartsUnspaced(pieces[i])
    decreases |s|
  {
    if FirstBreakFrom(s, 0) < |s| {
      var k, n := SplitAtBreaksCons(s);
      AfterSeparatorUnspaced(s, k);
      var t := s[k + n..];
      FirstPieceStartsText(t);
      SplitAtBreaksStartsUnspaced(t);
      UnspacedCons(s[..k], SplitAtBreaks(t).0);
    }
  }

  /** At a break, the pieces are the text before it and the pieces of what follows its separator. */
  lemma SplitAtBreaksCons(s: string) returns (k: nat, n: nat)
    requires FirstBreakFrom(s, 0) < |s|
    ensures k == FirstBreakFrom(s, 0) && n == 1 + SpanWhile(s[k + 1..], IsSpace) && 0 < k + n <= |s|
    ensures SplitAtBreaks(s).0 == [s[..k]] + SplitAtBreaks(s[k + n..]).0
  {
    k := FirstBreakFrom(s, 0);
    n := 1 + SpanWhile(s[k + 1..], IsSpace);
    var t := s[k + n..];
    var rest := SplitAtBreaks(t);
    var r := SplitAtBreaks(s);
    assert r == ([s[..k]] + rest.0, [s[k..k + n]] + rest.1);
    assert r.0 == [s[..k]] + rest.0;
  }

  /** A piece that is empty or starts outside whitespace. */
  predicate StartsUnspaced(p: string) {
    p == [] || !IsSpace(p[0])
  }

  lemma UnspacedCons(x: string, rest: seq<string>)
    requires rest != [] && StartsUnspaced(rest[0])
    requires forall i :: 1 <= i < |rest| ==> StartsUnspaced(rest[i])
    ensures forall i :: 1 <= i < |[x] + rest| ==> StartsUnspaced(([x] + rest)[i])
  {
    forall i | 1 <= i < |[x] + rest|
      ensures StartsUnspaced(([x] + rest)[i])
    {
      assert ([x] + rest)[i] == rest[i - 1];
    }
  }

  /** The first piece is where the text starts. */
  lemma FirstPieceStartsText(s: string)
    ensures var p := SplitAtBreaks(s).0[0];
            p == [] || (s != [] && p[0] == s[0])
    ensures StartsUnspaced(s) ==> StartsUnspaced(SplitAtBreaks(s).0[0])
  {
  }

  /** A break starts a separator: the stop and the whole run of whitespace after it. */
  lemma BreakSeparator(s: string, k: nat)
    requires BreakAt(s, k)
    ensures var n := 1 + SpanWhile(s[k + 1..], IsSpace);
            k + n <= |s| && IsSeparator(s[k..k + n])
  {
    var n := 1 + SpanWhile(s[k + 1..], IsSpace);
    var sep := s[k..k + n];
    forall j | 1 <= j < |sep|
      ensures IsSpace(sep[j])
    {
      assert sep[j] == s[k + 1..][j - 1];
    }
  }

  /** The text before the first break holds no break. */
  lemma PrefixUnbroken(s: string, k: nat)
    requires k <= |s| && forall j :: 0 <= j < k ==> !BreakAt(s, j)
    ensures Unbroken(s[..k])
  {
    var piece := s[..k];
    forall i | 0 <= i < |piece|
      ensures !BreakAt(piece, i)
    {
      assert !BreakAt(s, i);
    }
  }

  /** The sentences `re.split` yields: never an empty list. */
  function Sentences(s: string): (r: seq<string>)
    ensures |r| >= 1
  {
    SplitAtBreaks(s).0
  }

  /** Nothing is lost in splitting: the sentences and separators spell out the text again. */
  lemma {:induction false} SplitAtBreaksRoundTrip(s: string)
    ensures Interleave(SplitAtBreaks(s).0, SplitAtBreaks(s).1) == s
    decreases |s|
  {
    var k := FirstBreakFrom(s, 0);
    if k < |s| {
      var n := 1 + SpanWhile(s[k + 1..], IsSpace);
      var rest := SplitAtBreaks(s[k + n..]);
      SplitAtBreaksRoundTrip(s[k + n..]);
      assert SplitAtBreaks(s) == ([s[..k]] + rest.0, [s[k..k + n]] + rest.1);
      InterleaveCons(s[..k], s[k..k + n], rest.0, rest.1);
      SliceThree(s, k, k + n);
    }
  }


  /** A text with no break is one sentence. */
  lemma NoBreakOneSentence(s: string)
    requires Unbroken(s)
    ensures Sentences(s) == [s]
  {
    var k := FirstBreakFrom(s, 0);
    assert k == |s|;
  }

  // ---------------------------------------------------------------- _extract_key_info

  /** The result of `_extract_key_info`. */
  datatype KeyInfo = KeyInfo(subject: string, action: string, impact: string)

  const ACTION_LIMIT := 150
  const IMPACT_LIMIT := 100
  const SUBJECT_WORDS := 3

  /** The words whose presence makes a sentence the impact. */
  const IMPACT_WORDS: seq<string> :=
    ["rise", "fall", "surge", "crash", "impact", "affect", "lead", "result", "cause"]

  /** `word in s`, searched position by position. */
  predicate Mentions(s: string, word: string)
    decreases |s|
  {
    OccursAt(s, word, 0) || (s != [] && Mentions(s[1..], word))
  }

  /** `any(keyword in lowered for keyword in words)`. */
  predicate MentionsAny(lowered: string, words: seq<string>) {
    words != [] && (Mentions(lowered, words[0]) || MentionsAny(lowered, words[1..]))
  }

  /** `any(keyword in sent.lower() for keyword in [...])`, on the lowered sentence. */
  predicate MentionsImpact(lowered: string) {
    MentionsAny(lowered, IMPACT_WORDS)
  }

  /** Candidate `sent` mentions an impact once stripped and lower-cased. */
  predicate Hit(sent: string) {
    MentionsImpact(Lower(Strip(sent)))
  }

  /** The index of the first element of `xs` that satisfies `p`, or `|xs|` when none does. */
  function FirstIndex<T>(xs: seq<T>, p: T -> bool): (k: nat)
    ensures k <= |xs|
    ensures k < |xs| ==> p(xs[k])
    ensures forall i :: 0 <= i < k ==> !p(xs[i])
  {
    if xs == [] then 0
    else if p(xs[0]) then 0
    else
      var k := FirstIndex(xs[1..], p);
      assert forall i :: 1 <= i < 1 + k ==> xs[i] == xs[1..][i - 1];
      1 + k
  }

  /** The first of `candidates` that mentions an impact, stripped and cut to 100 characters; "" when none does. */
  function FirstImpact(candidates: seq<string>): (r: string)
    ensures |r| <= IMPACT_LIMIT
  {
    var k := FirstIndex(candidates, Hit);
    if k < |candidates| then PyPrefix(Strip(candidates[k]), IMPACT_LIMIT) else ""
  }

  /** The candidates for the impact: the second and third sentences (`sentences[1:3]`). */
  function ImpactCandidates(sentences: seq<string>): seq<string>
    requires |sentences| >= 1
  {
    PyPrefix(sentences, 3)[1..]
  }

  /** `_extract_key_info(text, title)`. */
  function KeyInfoOf(text: string, title: string): (r: KeyInfo)
    ensures WithinLimits(r)
  {
    var sentences := Sentences(Strip(text));
    var action := PyPrefix(Strip(sentences[0]), ACTION_LIMIT);
    var impact := FirstImpact(ImpactCandidates(sentences));
    var words := SplitFields(title);
    var subject := if |words| > 0 then Join(PyPrefix(words, SUBJECT_WORDS), " ") else "";
    KeyInfo(subject, action, impact)
  }

  /** The loop over sentences 2-3 of `_extract_key_info`: the first that mentions an impact, or "". */
  method FindImpact(candidates: seq<string>) returns (impact: string)
    ensures impact == FirstImpact(candidates)
  {
    impact := "";
    for i := 0 to |candidates|
      invariant impact == "" && FirstIndex(candidates, Hit) >= i
    {
      var sent := Strip(candidates[i]);
      if MentionsImpact(Lower(sent)) {
        assert Hit(candidates[i]);
        impact := PyPrefix(sent, IMPACT_LIMIT);
        break;
      }
    }
  }

  /** `_extract_key_info` as the code runs it: the first sentence, then the first-match loop over sentences 2-3. */
  method ExtractKeyInfo(text: string, title: string) returns (info: KeyInfo)
    ensures info == KeyInfoOf(text, title)
  {
    info := KeyInfo("", "", "");
    var stripped := Strip(text);
    var sentences := Sentences(stripped);
    var firstSent := Strip(sentences[0]);
    info := info.(action := PyPrefix(firstSent, ACTION_LIMIT));
    var impact := FindImpact(PyPrefix(sentences, 3)[1..]);
    info := info.(impact := impact);
    var titleWords := SplitFields(title);
    if |titleWords| > 0 {
      info := info.(subject := Join(PyPrefix(titleWords, SUBJECT_WORDS), " "));
    }
  }

  /** The action is the stripped first sentence cut to 150 characters. */
  lemma ActionIsFirstSentence(text: string, title: string)
    ensures var first := Strip(Sentences(Strip(text))[0]);
            var action := KeyInfoOf(text, title).action;
            |action| <= ACTION_LIMIT && action == first[..|action|]
            && (|action| < ACTION_LIMIT ==> action == first)
  {
  }

  /** An occurrence at `i` is found by the search. */
  lemma {:induction false} MentionsLater(s: string, word: string, i: nat)
    requires OccursAt(s, word, i)
    ensures Mentions(s, word)
    decreases i
  {
    if i > 0 {
      assert s[1..][i - 1..i - 1 + |word|] == s[i..i + |word|];
      MentionsLater(s[1..], word, i - 1);
    }
  }

  /** The position-by-position search is Python's `word in s`. */
  lemma {:induction false} MentionsIsContains(s: string, word: string)
    ensures Mentions(s, word) <==> Contains(s, word)
    decreases |s|
  {
    if Contains(s, word) {
      var i :| 0 <= i <= |s| - |word| && OccursAt(s, word, i);
      MentionsLater(s, word, i);
    }
    if Mentions(s, word) && !OccursAt(s, word, 0) {
      MentionsIsContains(s[1..], word);
      var i :| 0 <= i <= |s[1..]| - |word| && OccursAt(s[1..], word, i);
      assert s[i + 1..i + 1 + |word|] == s[1..][i..i + |word|];
      assert OccursAt(s, word, i + 1);
    }
  }

  lemma MentionsNonEmpty(s: string, word: string)
    requires word != [] && Mentions(s, word)
    ensures s != []
  {
  }

  lemma {:induction false} MentionsAnyNonEmpty(lowered: string, words: seq<string>)
    requires MentionsAny(lowered, words) && forall w <- words :: w != []
    ensures lowered != []
  {
    assert words[0] in words;
    if Mentions(lowered, words[0]) {
      MentionsNonEmpty(lowered, words[0]);
    } else {
      assert forall w <- words[1..] :: w in words;
      MentionsAnyNonEmpty(lowered, words[1..]);
    }
  }

  /** A sentence that mentions an impact keeps some text after stripping and cutting. */
  lemma HitNonEmpty(sent: string)
    requires Hit(sent)
    ensures PyPrefix(Strip(sent), IMPACT_LIMIT) != ""
  {
    var lowered := Lower(Strip(sent));
    ImpactWordsNonEmpty();
    MentionsAnyNonEmpty(lowered, IMPACT_WORDS);
  }

  /** None of the impact words is empty. */
  lemma ImpactWordsNonEmpty()
    ensures forall w <- IMPACT_WORDS :: w != []
  {
  }

  /**
   * The impact is the first of the second and third sentences that mentions a
   * rise, fall, surge, ... (stripped, cut to 100 characters), and "" when
   * neither does; the fourth sentence on is never looked at.
   */
  lemma ImpactIsFirstMatch(sentences: seq<string>) returns (j: int)
    requires |sentences| >= 1
    ensures var impact := FirstImpact(ImpactCandidates(sentences));
            |impact| <= IMPACT_LIMIT
            && (impact == "" <==> forall j :: 1 <= j < 3 && j < |sentences| ==> !Hit(sentences[j]))
            && (impact != "" ==> 1 <= j < 3 && j < |sentences| && Hit(sentences[j])
                                  && impact == PyPrefix(Strip(sentences[j]), IMPACT_LIMIT)
                                  && forall i :: 1 <= i < j ==> !Hit(sentences[i]))
  {
    var candidates := ImpactCandidates(sentences);
    j := FirstInWindow(sentences, Hit);
    var k := FirstIndex(candidates, Hit);
    if k < |candidates| {
      HitNonEmpty(candidates[k]);
    }
  }

  /** The first candidate satisfying `p` is the first of sentences 2-3 that does. */
  lemma FirstInWindow(sentences: seq<string>, p: string -> bool) returns (j: int)
    requires |sentences| >= 1
    ensures var candidates := ImpactCandidates(sentences);
            var k := FirstIndex(candidates, p);
            (k == |candidates| <==> forall j :: 1 <= j < 3 && j < |sentences| ==> !p(sentences[j]))
            && (k < |candidates| ==> j == k + 1 && 1 <= j < 3 && j < |sentences| && p(sentences[j])
                                     && candidates[k] == sentences[j]
                                     && forall i :: 1 <= i < j ==> !p(sentences[i]))
  {
    var candidates := ImpactCandidates(sentences);
    j := FirstIndex(candidates, p) + 1;
    assert forall i :: 1 <= i < 3 && i < |sentences| ==> sentences[i] == candidates[i - 1];
  }

  /** `_extract_key_info` takes its impact from the sentences of the stripped text. */
  lemma KeyInfoImpact(text: string, title: string)
    ensures KeyInfoOf(text, title).impact == FirstImpact(ImpactCandidates(Sentences(Strip(text))))
  {
  }

  lemma {:induction false} SpanStopsAtSpace(w: string, rest: string)
    requires forall c <- w :: !IsSpace(c)
    requires rest == [] || IsSpace(rest[0])
    ensures SpanWhile(w + rest, NotSpace) == |w|
    decreases |w|
  {
    if w == [] {
      assert w + rest == rest;
    } else {
      assert (w + rest)[0] == w[0] && NotSpace(w[0]);
      assert (w + rest)[1..] == w[1..] + rest;
      SpanStopsAtSpace(w[1..], rest);
    }
  }

  lemma {:induction false} SplitFieldsSkipsSpace(s: string)
    requires s != [] && IsSpace(s[0])
    ensures SplitFields(s) == SplitFields(s[1..])
  {
  }

  /** `" ".join(words).split() == words` for non-empty words without whitespace. */
  lemma {:induction false} SplitFieldsOfJoin(words: seq<string>)
    requires forall w <- words :: w != [] && forall c <- w :: !IsSpace(c)
    ensures SplitFields(Join(words, " ")) == words
  {
    if |words| == 1 {
      var w := words[0];
      assert w in words;
      SpanStopsAtSpace(w, []);
      assert w + [] == w;
      assert w[..|w|] == w && w[|w|..] == [];
      assert SplitFields(w) == [w] + SplitFields([]);
    } else if |words| > 1 {
      var w := words[0];
      assert w in words;
      assert forall v <- words[1..] :: v in words;
      var rest := Join(words[1..], " ");
      var s := w + " " + rest;
      assert Join(words, " ") == s;
      assert s == w + (" " + rest);
      SpanStopsAtSpace(w, " " + rest);
      assert s[..|w|] == w && s[|w|..] == " " + rest;
      assert SplitFields(s) == [w] + SplitFields(" " + rest);
      SplitFieldsSkipsSpace(" " + rest);
      assert (" " + rest)[1..] == rest;
      SplitFieldsOfJoin(words[1..]);
    }
  }

  /** The subject is the first (up to) three words of the title, rejoined with single spaces. */
  lemma SubjectIsFirstTitleWords(text: string, title: string)
    ensures SplitFields(KeyInfoOf(text, title).subject) == PyPrefix(SplitFields(title), SUBJECT_WORDS)
  {
    var words := SplitFields(title);
    if |words| > 0 {
      assert forall w <- PyPrefix(words, SUBJECT_WORDS) :: w in words;
      SplitFieldsOfJoin(PyPrefix(words, SUBJECT_WORDS));
    }
  }

  // ---------------------------------------------------------------- _rewrite_summary

  const SUMMARY_LIMIT := 280

  /** The categories whose template is "action, then impact" guarded by a non-empty action. */
  const ACTION_CATEGORIES: seq<string> :=
    [MACRO_POLICY, MAJOR_COINS, ALTCOINS_TRENDING, TECH_NARRATIVES, KOL_INSIGHTS]

  /** The action, then "，" and the impact when there is one. */
  function Template(info: KeyInfo): string {
    info.action + (if info.impact != "" then "，" + info.impact else "")
  }

  /** `summary` just before the length limit, built from the extracted `info`. */
  function Drafted(info: KeyInfo, text: string, category: string): string {
    if category == CAPITAL_FLOW then
      (if Contains(Lower(text), "drain") || Contains(Lower(text), "flow") then Template(info) else "")
    else if category in ACTION_CATEGORIES then
      (if info.action != "" then Template(info) else "")
    else ""
  }

  /** The summary built from `info`, limited to 280 characters and stripped. */
  function Rewrite(info: KeyInfo, text: string, category: string): (r: string)
    ensures |r| <= SUMMARY_LIMIT
  {
    var summary := Drafted(info, text, category);
    var limited := if |summary| > SUMMARY_LIMIT then summary[..277] + "..." else summary;
    Strip(limited)
  }

  /** `_rewrite_summary(title, text, category)`. */
  function RewriteSummary(title: string, text: string, category: string): (r: string)
    ensures |r| <= SUMMARY_LIMIT
  {
    Rewrite(KeyInfoOf(text, title), text, category)
  }

  /** A category outside the six the rewrite knows yields "". */
  lemma UnknownCategoryEmpty(info: KeyInfo, text: string, category: string)
    requires category != CAPITAL_FLOW && category !in ACTION_CATEGORIES
    ensures Rewrite(info, text, category) == ""
  {
  }

  /** Capital flow yields "" unless the text mentions "drain" or "flow", in any case. */
  lemma CapitalFlowNeedsFlowWord(info: KeyInfo, text: string)
    requires !Contains(Lower(text), "drain") && !Contains(Lower(text), "flow")
    ensures Rewrite(info, text, CAPITAL_FLOW) == ""
  {
  }

  /** In the other categories an empty action yields "". */
  lemma EmptyActionEmpty(info: KeyInfo, text: string, category: string)
    requires category in ACTION_CATEGORIES && info.action == ""
    ensures Rewrite(info, text, category) == ""
  {
    CapitalFlowNotAction();
    assert Drafted(info, text, category) == "";
    StripUnchanged("");
  }

  /** Capital flow has a template of its own. */
  lemma CapitalFlowNotAction()
    ensures CAPITAL_FLOW !in ACTION_CATEGORIES
  {
  }

  /** The limits `_extract_key_info` keeps to. */
  predicate WithinLimits(info: KeyInfo) {
    |info.action| <= ACTION_LIMIT && |info.impact| <= IMPACT_LIMIT
  }

  /**
   * The template is at most 150 + 1 + 100 = 251 characters, so the cut to 277
   * characters plus "..." never applies: the rewrite is the stripped template.
   */
  lemma RewriteIsStrippedTemplate(info: KeyInfo, text: string, category: string)
    requires WithinLimits(info)
    requires category in ACTION_CATEGORIES || category == CAPITAL_FLOW
    requires category == CAPITAL_FLOW ==> Contains(Lower(text), "drain") || Contains(Lower(text), "flow")
    requires category != CAPITAL_FLOW ==> info.action != ""
    ensures |Template(info)| <= ACTION_LIMIT + 1 + IMPACT_LIMIT
    ensures Rewrite(info, text, category) == Strip(Template(info))
  {
  }

  /** A text that opens with ". " has an empty first sentence. */
  lemma LeadingStopSentences(rest: string)
    requires Unbroken(rest) && (rest == [] || !IsSpace(rest[0]))
    ensures Sentences(". " + rest) == ["", rest]
  {
    var text := ". " + rest;
    assert BreakAt(text, 0);
    assert FirstBreakFrom(text, 0) == 0;
    assert text[1..] == " " + rest;
    assert SpanWhile(text[1..], IsSpace) == 1 + SpanWhile(rest, IsSpace);
    assert text[2..] == rest;
    NoBreakOneSentence(rest);
  }

  /** An empty first sentence followed by one that mentions an impact gives no action and that impact. */
  /** A lone candidate that mentions an impact, stripped and short, is the impact as it stands. */
  lemma FirstImpactOfHit(rest: string)
    requires Hit(rest) && Strip(rest) == rest && |rest| <= IMPACT_LIMIT
    ensures FirstImpact([rest]) == rest
  {
    assert FirstIndex([rest], Hit) == 0;
  }

  lemma EmptyFirstSentenceInfo(text: string, rest: string)
    requires Sentences(Strip(text)) == ["", rest]
    requires FirstImpact([rest]) == rest
    ensures KeyInfoOf(text, "") == KeyInfo("", "", rest)
  {
    var sentences := Sentences(Strip(text));
    assert ImpactCandidates(sentences) == [rest];
    StripUnchanged("");
    assert PyPrefix(Strip(sentences[0]), ACTION_LIMIT) == "";
    assert SplitFields("") == [];
  }

  /**
   * Capital flow does not require an action: a text that opens with ". " has an
   * empty first sentence, and when the next sentence mentions an impact the
   * rewrite is that sentence behind a leading "，".
   */
  lemma CapitalFlowWithoutAction(rest: string)
    requires Unbroken(rest) && rest != [] && !IsSpace(rest[0]) && !IsSpace(rest[|rest| - 1])
    requires Hit(rest) && |rest| <= IMPACT_LIMIT
    requires Contains(Lower(". " + rest), "drain") || Contains(Lower(". " + rest), "flow")
    ensures KeyInfoOf(". " + rest, "").action == ""
    ensures RewriteSummary("", ". " + rest, CAPITAL_FLOW) == "，" + rest
  {
    var text := ". " + rest;
    LeadingStopSplit(rest);
    FirstImpactOfHit(rest);
    EmptyFirstSentenceInfo(text, rest);
    CapitalFlowImpactOnly(rest, text);
    assert RewriteSummary("", text, CAPITAL_FLOW) == Rewrite(KeyInfoOf(text, ""), text, CAPITAL_FLOW);
  }

  /** A stripped text that opens with ". " splits into an empty sentence and the stripped rest. */
  lemma LeadingStopSplit(rest: string)
    requires Unbroken(rest) && rest != [] && !IsSpace(rest[0]) && !IsSpace(rest[|rest| - 1])
    ensures Sentences(Strip(". " + rest)) == ["", rest] && Strip(rest) == rest
  {
    var text := ". " + rest;
    assert text[0] == '.' && text[|text| - 1] == rest[|rest| - 1];
    StripUnchanged(text);
    LeadingStopSentences(rest);
    StripUnchanged(rest);
  }

  /** With no action and an impact, a capital-flow text rewrites to "，" and the impact. */
  lemma CapitalFlowImpactOnly(impact: string, text: string)
    requires impact != [] && !IsSpace(impact[|impact| - 1]) && |impact| <= IMPACT_LIMIT
    requires Contains(Lower(text), "drain") || Contains(Lower(text), "flow")
    ensures Rewrite(KeyInfo("", "", impact), text, CAPITAL_FLOW) == "，" + impact
  {
    var info := KeyInfo("", "", impact);
    RewriteIsStrippedTemplate(info, text, CAPITAL_FLOW);
    assert Template(info) == "，" + impact;
    LeadingCommaStripped(impact);
  }

  /** The final strip keeps a leading full-width comma, which is not whitespace. */
  lemma LeadingCommaStripped(impact: string)
    requires impact != [] && !IsSpace(impact[|impact| - 1])
    ensures Strip("，" + impact) == "，" + impact
  {
    var s := "，" + impact;
    assert s[|s| - 1] == impact[|impact| - 1];
    StripUnchanged(s);
  }

  // ---------------------------------------------------------------- summarize_item

  /** `not item.get(key, "")`: the key is missing, `None` or empty. */
  predicate Blank(v: Option<string>) {
    v.None? || v.value == ""
  }

  /**
   * `summarize_item`: an item without a title or a summary comes back as it was;
   * otherwise it gains `summary_rewritten` exactly when the rewrite of its title
   * and summary is longer than 20 characters, and nothing else about it changes.
   */
  method SummarizeItem(item: Item, category: string) returns (result: Item)
    ensures Blank(item.title) || Blank(item.summary) ==> result == item
    ensures !Blank(item.title) && !Blank(item.summary) ==>
              var rewritten := RewriteSummary(item.title.value, item.summary.value, category);
              result == if |rewritten| > 20 then item.(summaryRewritten := Some(rewritten)) else item
    ensures result.summaryRewritten != item.summaryRewritten ==> 20 < |result.summaryRewritten.value| <= SUMMARY_LIMIT
  {
    var title := item.title.GetOr("");
    var summary := item.summary.GetOr("");
    if title == "" || summary == "" {
      return item;
    }
    var rewritten := RewriteSummary(title, summary, category);
    result := item;
    if rewritten != "" && |rewritten| > 20 {
      result := result.(summaryRewritten := Some(rewritten));
    }
  }
}
