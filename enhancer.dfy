/**
 * `ContentEnhancer` (src/enhancer.py): the guard around the translation call,
 * and the summary `extract_summary` builds from an article's text — whitespace
 * collapsed, the text cut into sentences after `.`, `!` or `?`, and whole
 * sentences packed greedily up to `max_length` characters.
 */
module Enhancer {
  import opened Wrappers
  import opened Text

  // -------------------------------------------------------------- translation

  /** `text[:500]`: the most the translation request carries. */
  const TRANSLATE_LIMIT := 500

  /**
   * `translate_to_chinese`: texts shorter than three characters are returned
   * as they are; otherwise the first 500 characters go to `service`, and a
   * non-empty translation replaces the text. `service` stands for the HTTP
   * exchange: `Some(t)` when both the HTTP status and `responseStatus` are 200
   * and `t` is `translatedText`, `None` on any other answer or any error.
   */
  function TranslateToChinese(text: string, service: string -> Option<string>): (r: string)
    ensures |text| < 3 ==> r == text
    ensures r == text || (|text| >= 3 && r != [] && service(PyPrefix(text, TRANSLATE_LIMIT)) == Some(r))
    ensures |text| >= 3 && service(PyPrefix(text, TRANSLATE_LIMIT)) == None ==> r == text
    ensures |text| >= 3 && service(PyPrefix(text, TRANSLATE_LIMIT)) == Some([]) ==> r == text
    ensures |text| >= 3 && service(PyPrefix(text, TRANSLATE_LIMIT)).Some? && service(PyPrefix(text, TRANSLATE_LIMIT)).value != []
            ==> r == service(PyPrefix(text, TRANSLATE_LIMIT)).value
  {
    if text == [] || |text| < 3 then text
    else
      match service(PyPrefix(text, TRANSLATE_LIMIT))
      case Some(translated) => if translated != [] then translated else text
      case None => text
  }

  /** Only the first 500 characters reach the service: texts that agree on them translate alike. */
  lemma TranslationSeesOnlyPrefix(a: string, b: string, service: string -> Option<string>)
    requires |a| >= 3 && |b| >= 3 && PyPrefix(a, TRANSLATE_LIMIT) == PyPrefix(b, TRANSLATE_LIMIT)
    requires service(PyPrefix(a, TRANSLATE_LIMIT)).Some? && service(PyPrefix(a, TRANSLATE_LIMIT)).value != []
    ensures TranslateToChinese(a, service) == TranslateToChinese(b, service)
  {
  }

  // --------------------------------------------------------------- whitespace

  /** No whitespace but the plain space, and never two whitespace characters in a row. */
  predicate SingleSpaced(s: string) {
    (forall i :: 0 <= i < |s| && IsSpace(s[i]) ==> s[i] == ' ')
    && (forall i, j :: 0 <= i < |s| && 0 <= j < |s| && j == i + 1 ==> !IsSpace(s[i]) || !IsSpace(s[j]))
  }

  /** No whitespace at either end. */
  predicate Trimmed(s: string) {
    s == [] || (!IsSpace(s[0]) && !IsSpace(s[|s| - 1]))
  }

  /** `re.sub(r"\s+", " ", s)`: every run of whitespace becomes one space. */
  function CollapseSpaces(s: string): (r: string)
    ensures SingleSpaced(r)
    ensures s != [] && !IsSpace(s[0]) ==> r != [] && r[0] == s[0]
    decreases |s|
  {
    if s == [] then []
    else if IsSpace(s[0]) then
      var n := SpanWhile(s, IsSpace);
      var rest := CollapseSpaces(s[n..]);
      assert s[n..] == [] || !IsSpace(s[n..][0]);
      var r := " " + rest;
      assert forall i :: 1 <= i < |r| ==> r[i] == rest[i - 1];
      r
    else
      var rest := CollapseSpaces(s[1..]);
      var r := [s[0]] + rest;
      assert forall i :: 1 <= i < |r| ==> r[i] == rest[i - 1];
      r
  }

  /** The characters of `s` that are not whitespace, in order. */
  function NonSpaces(s: string): string
    decreases |s|
  {
    if s == [] then [] else (if IsSpace(s[0]) then [] else [s[0]]) + NonSpaces(s[1..])
  }

  /** A leading run of whitespace contributes nothing to `NonSpaces`. */
  lemma {:induction false} NonSpacesSkip(s: string, n: nat)
    requires n <= |s| && forall i :: 0 <= i < n ==> IsSpace(s[i])
    ensures NonSpaces(s) == NonSpaces(s[n..])
    decreases n
  {
    if n > 0 {
      assert s[1..][n - 1..] == s[n..];
      NonSpacesSkip(s[1..], n - 1);
    }
  }

  /** Collapsing whitespace keeps every other character, in order. */
  lemma {:induction false} CollapseKeepsNonSpaces(s: string)
    ensures NonSpaces(CollapseSpaces(s)) == NonSpaces(s)
    decreases |s|
  {
    if s != [] {
      var r := CollapseSpaces(s);
      if IsSpace(s[0]) {
        var n := SpanWhile(s, IsSpace);
        CollapseKeepsNonSpaces(s[n..]);
        NonSpacesSkip(s, n);
        assert r[1..] == CollapseSpaces(s[n..]);
      } else {
        CollapseKeepsNonSpaces(s[1..]);
        assert r[1..] == CollapseSpaces(s[1..]);
      }
    }
  }

  /** Collapsing keeps the text empty or not, and keeps whitespace at either end as one space. */
  lemma {:induction false} CollapseEdges(s: string)
    ensures var r := CollapseSpaces(s);
            (r == [] <==> s == [])
            && (r != [] ==> (r[0] == ' ' <==> IsSpace(s[0])) && (r[|r| - 1] == ' ' <==> IsSpace(s[|s| - 1])))
    decreases |s|
  {
    if s != [] {
      if IsSpace(s[0]) {
        var n := SpanWhile(s, IsSpace);
        CollapseEdges(s[n..]);
        if n < |s| {
          assert s[n..][|s| - n - 1] == s[|s| - 1];
        }
      } else {
        CollapseEdges(s[1..]);
        if 1 < |s| {
          assert s[1..][|s| - 2] == s[|s| - 1];
        }
      }
    }
  }

  /** Leading whitespace makes no field of `str.split()`. */
  lemma {:induction false} SplitFieldsSkip(s: string, n: nat)
    requires n <= |s| && forall i :: 0 <= i < n ==> IsSpace(s[i])
    ensures SplitFields(s) == SplitFields(s[n..])
    decreases n
  {
    if n > 0 {
      assert s[1..][n - 1..] == s[n..];
      SplitFieldsSkip(s[1..], n - 1);
    }
  }

  /** A non-space character in front either opens a field of its own or joins the first one. */
  lemma SplitFieldsCons(c: char, t: string)
    requires !IsSpace(c)
    ensures SplitFields([c] + t)
         == if t == [] || IsSpace(t[0]) then [[c]] + SplitFields(t)
            else [[c] + SplitFields(t)[0]] + SplitFields(t)[1..]
  {
    var u := [c] + t;
    assert u[1..] == t;
    var m := SpanWhile(t, NotSpace);
    assert SpanWhile(u, NotSpace) == 1 + m;
    assert u[..1 + m] == [c] + t[..m];
    assert u[1 + m..] == t[m..];
    if t == [] || IsSpace(t[0]) {
      assert t[m..] == t;
    }
  }

  /** Collapsing whitespace keeps the fields `str.split()` finds: each run becomes one space, none vanishes. */
  lemma {:induction false} CollapseKeepsFields(s: string)
    ensures SplitFields(CollapseSpaces(s)) == SplitFields(s)
    decreases |s|
  {
    if s != [] {
      if IsSpace(s[0]) {
        var n := SpanWhile(s, IsSpace);
        var rest := CollapseSpaces(s[n..]);
        CollapseKeepsFields(s[n..]);
        SplitFieldsSkip(s, n);
        assert (" " + rest)[1..] == rest;
      } else {
        CollapseKeepsFields(s[1..]);
        FieldsAfterWordStart(s);
      }
    }
  }

  /** The step of `CollapseKeepsFields` for a text that starts outside whitespace. */
  lemma FieldsAfterWordStart(s: string)
    requires s != [] && !IsSpace(s[0])
    requires SplitFields(CollapseSpaces(s[1..])) == SplitFields(s[1..])
    ensures SplitFields(CollapseSpaces(s)) == SplitFields(s)
  {
    var t := s[1..];
    var rest := CollapseSpaces(t);
    assert CollapseSpaces(s) == [s[0]] + rest;
    assert s == [s[0]] + t;
    CollapseEdges(t);
    assert rest != [] ==> (IsSpace(rest[0]) <==> rest[0] == ' ');
    ConsSameFields(s[0], rest, t);
  }

  /** A character outside whitespace put before two texts with the same fields and the same leading whitespace. */
  lemma ConsSameFields(c: char, a: string, b: string)
    requires !IsSpace(c) && SplitFields(a) == SplitFields(b)
    requires (a == [] <==> b == []) && (a != [] ==> (IsSpace(a[0]) <==> IsSpace(b[0])))
    ensures SplitFields([c] + a) == SplitFields([c] + b)
  {
    SplitFieldsCons(c, a);
    SplitFieldsCons(c, b);
  }

  /** A piece of a single-spaced text is single-spaced. */
  lemma SingleSpacedSlice(s: string, i: nat, j: nat)
    requires SingleSpaced(s) && i <= j <= |s|
    ensures SingleSpaced(s[i..j])
  {
    var t := s[i..j];
    forall k | 0 <= k < |t| && IsSpace(t[k])
      ensures t[k] == ' ' && (k + 1 < |t| ==> !IsSpace(t[k + 1]))
    {
      assert t[k] == s[i + k];
      if k + 1 < |t| {
        assert t[k + 1] == s[i + k + 1];
      }
    }
  }

  /** `re.sub(r"\s+", " ", article_text).strip()`. */
  function Normalize(s: string): (t: string)
    ensures Trimmed(t)
  {
    Strip(CollapseSpaces(s))
  }

  /** Stripping cuts a piece out of the text, so a single-spaced text stays single-spaced. */
  lemma SingleSpacedStrip(c: string)
    requires SingleSpaced(c)
    ensures SingleSpaced(Strip(c))
  {
    var l := LStrip(c);
    SingleSpacedSuffix(c, l);
    SingleSpacedPrefix(l, RStrip(l));
  }

  /** A suffix of a single-spaced text is single-spaced. */
  lemma SingleSpacedSuffix(c: string, l: string)
    requires SingleSpaced(c) && |l| <= |c| && l == c[|c| - |l|..]
    ensures SingleSpaced(l)
  {
    SingleSpacedSlice(c, |c| - |l|, |c|);
    assert c[|c| - |l|..|c|] == l;
  }

  /** A prefix of a single-spaced text is single-spaced. */
  lemma SingleSpacedPrefix(l: string, r: string)
    requires SingleSpaced(l) && |r| <= |l| && r == l[..|r|]
    ensures SingleSpaced(r)
  {
    SingleSpacedSlice(l, 0, |r|);
    assert l[0..|r|] == r;
  }

  /** Normalised text is single-spaced. */
  lemma NormalizeSingleSpaced(s: string)
    ensures SingleSpaced(Normalize(s))
  {
    SingleSpacedStrip(CollapseSpaces(s));
  }

  // ---------------------------------------------------------------- sentences

  /** `(?<=[.!?])\s+` can match at `i`: whitespace right after a stop. */
  predicate StopBreakAt(s: string, i: int) {
    1 <= i < |s| && IsStop(s[i - 1]) && IsSpace(s[i])
  }

  /** The first such position at or after `i`, or `|s|` when there is none. */
  function FirstStopBreakFrom(s: string, i: nat): (k: nat)
    requires i <= |s|
    ensures i <= k <= |s|
    ensures k < |s| ==> StopBreakAt(s, k)
    ensures forall j :: i <= j < k ==> !StopBreakAt(s, j)
    decreases |s| - i
  {
    if i == |s| then |s|
    else if StopBreakAt(s, i) then i
    else FirstStopBreakFrom(s, i + 1)
  }

  /**
   * `re.split(r"(?<=[.!?])\s+", s)` together with the whitespace runs it
   * removes: each sentence keeps its closing punctuation, and the leftmost
   * break is cut first with its whitespace taken whole.
   */
  function SplitAfterStops(s: string): (r: (seq<string>, seq<string>))
    ensures |r.0| == |r.1| + 1
    decreases |s|
  {
    var k := FirstStopBreakFrom(s, 0);
    if k == |s| then ([s], [])
    else
      var n := SpanWhile(s[k..], IsSpace);
      var rest := SplitAfterStops(s[k + n..]);
      ([s[..k]] + rest.0, [s[k..k + n]] + rest.1)
  }

  /** Every separator `re.split` removes is a non-empty run of whitespace. */
  lemma {:induction false} SeparatorsAreWhitespace(s: string)
    ensures forall i :: 0 <= i < |SplitAfterStops(s).1| ==> WhitespaceRun(SplitAfterStops(s).1[i])
    decreases |s|
  {
    if FirstStopBreakFrom(s, 0) < |s| {
      var k, n := BreakStep(s);
      var sep := s[k..k + n];
      assert WhitespaceRun(sep) by {
        forall j | 0 <= j < |sep| ensures IsSpace(sep[j]) {
          assert sep[j] == s[k..][j];
        }
      }
      SeparatorsAreWhitespace(s[k + n..]);
    }
  }

  /** A non-empty run of whitespace. */
  predicate WhitespaceRun(sep: string) {
    sep != [] && forall j :: 0 <= j < |sep| ==> IsSpace(sep[j])
  }

  /** The sentences `re.split` yields: never an empty list. */
  function Sentences(s: string): (r: seq<string>)
    ensures |r| >= 1
  {
    SplitAfterStops(s).0
  }

  /** Nothing is lost in splitting: the sentences and the whitespace between them spell out the text. */
  lemma {:induction false} SplitAfterStopsRoundTrip(s: string)
    ensures Interleave(SplitAfterStops(s).0, SplitAfterStops(s).1) == s
    decreases |s|
  {
    if FirstStopBreakFrom(s, 0) < |s| {
      var k, n := BreakStep(s);
      var rest := SplitAfterStops(s[k + n..]);
      SplitAfterStopsRoundTrip(s[k + n..]);
      InterleaveCons(s[..k], s[k..k + n], rest.0, rest.1);
      SliceThree(s, k, k + n);
    }
  }

  /** One step of the split: the text up to the first break, the whitespace run there, and the split of the rest. */
  lemma BreakStep(s: string) returns (k: nat, n: nat)
    requires FirstStopBreakFrom(s, 0) < |s|
    ensures k == FirstStopBreakFrom(s, 0) && n == SpanWhile(s[k..], IsSpace) && 0 < n && k + n <= |s|
    ensures SplitAfterStops(s)
         == ([s[..k]] + SplitAfterStops(s[k + n..]).0, [s[k..k + n]] + SplitAfterStops(s[k + n..]).1)
  {
    k := FirstStopBreakFrom(s, 0);
    n := SpanWhile(s[k..], IsSpace);
    assert IsSpace(s[k..][0]);
    var rest := SplitAfterStops(s[k + n..]);
    assert SplitAfterStops(s) == ([s[..k]] + rest.0, [s[k..k + n]] + rest.1);
  }


  /** No `(?<=[.!?])\s+` match starts inside `p`. */
  predicate NoStopBreak(p: string) {
    forall j :: 0 <= j < |p| ==> !StopBreakAt(p, j)
  }

  /** `p` closes with `.`, `!` or `?`. */
  predicate EndsInStop(p: string) {
    p != [] && IsStop(p[|p| - 1])
  }

  /** `p` does not open with whitespace. */
  predicate StartsUnspaced(p: string) {
    p == [] || !IsSpace(p[0])
  }

  /**
   * The sentences are cut exactly at whitespace after a stop: no sentence holds
   * such a break, each sentence followed by a separator ends in its stop, and
   * each later sentence begins after the whole whitespace run.
   */
  predicate CutAtStops(pieces: seq<string>, seps: seq<string>)
    requires |pieces| == |seps| + 1
  {
    (forall i :: 0 <= i < |pieces| ==> NoStopBreak(pieces[i]))
    && (forall i :: 0 <= i < |seps| ==> EndsInStop(pieces[i]))
    && (forall i :: 1 <= i < |pieces| ==> StartsUnspaced(pieces[i]))
  }

  /** `re.split` cuts at every whitespace run that follows a stop, and nowhere else. */
  lemma {:induction false} SplitAfterStopsCutsAtStops(s: string)
    ensures CutAtStops(SplitAfterStops(s).0, SplitAfterStops(s).1)
    ensures SplitAfterStops(s).0[0] <= s
    decreases |s|
  {
    if FirstStopBreakFrom(s, 0) < |s| {
      var k, n := BreakStep(s);
      StopBreakPrefix(s, k);
      var t := s[k + n..];
      assert StartsUnspaced(t) by {
        if t != [] {
          assert t[0] == s[k..][n];
        }
      }
      SplitAfterStopsCutsAtStops(t);
      CutAtStopsCons(s[..k], s[k..k + n], SplitAfterStops(t).0, SplitAfterStops(t).1, t);
    } else {
      assert NoStopBreak(s);
    }
  }

  /** The text before the first break holds no break and ends in the stop. */
  lemma StopBreakPrefix(s: string, k: nat)
    requires k == FirstStopBreakFrom(s, 0) && k < |s|
    ensures NoStopBreak(s[..k]) && EndsInStop(s[..k])
  {
    var p := s[..k];
    forall j | 0 <= j < |p|
      ensures !StopBreakAt(p, j)
    {
      assert !StopBreakAt(s, j);
    }
  }

  /** A cut sentence in front of a split of the rest keeps the split cut at stops. */
  lemma CutAtStopsCons(p: string, sep: string, pieces: seq<string>, seps: seq<string>, rest: string)
    requires |pieces| == |seps| + 1 && CutAtStops(pieces, seps)
    requires NoStopBreak(p) && EndsInStop(p) && StartsUnspaced(rest) && pieces[0] <= rest
    ensures CutAtStops([p] + pieces, [sep] + seps)
  {
    assert pieces[0] == [] || pieces[0][0] == rest[0];
  }

  /** In collapsed text a run of whitespace is one space long. */
  lemma SingleSpaceRun(s: string, k: nat)
    requires SingleSpaced(s) && k < |s| && IsSpace(s[k])
    ensures SpanWhile(s[k..], IsSpace) == 1 && s[k..k + 1] == " "
  {
    if k + 1 < |s| {
      assert !IsSpace(s[k + 1]);
      assert s[k..][1] == s[k + 1];
    }
  }

  /** In collapsed text every break between sentences is a single space. */
  lemma {:induction false} SingleSpacedSeparators(s: string)
    requires SingleSpaced(s)
    ensures forall i :: 0 <= i < |SplitAfterStops(s).1| ==> SplitAfterStops(s).1[i] == " "
    decreases |s|
  {
    if FirstStopBreakFrom(s, 0) < |s| {
      var k := SingleSpacedBreak(s);
      SingleSpacedSeparators(s[k + 1..]);
      SpaceCons(" ", SplitAfterStops(s[k + 1..]).1);
    }
  }

  /** In collapsed text the first break removes one space, and what follows it is collapsed too. */
  lemma SingleSpacedBreak(s: string) returns (k: nat)
    requires SingleSpaced(s) && FirstStopBreakFrom(s, 0) < |s|
    ensures k < |s| && SingleSpaced(s[k + 1..])
    ensures SplitAfterStops(s).1 == [" "] + SplitAfterStops(s[k + 1..]).1
  {
    var n;
    k, n := BreakStep(s);
    SingleSpaceRun(s, k);
    SingleSpacedSlice(s, k + 1, |s|);
    assert s[k + 1..|s|] == s[k + n..];
  }

  /** A single space in front of single spaces. */
  lemma SpaceCons(sep: string, seps: seq<string>)
    requires sep == " " && forall i :: 0 <= i < |seps| ==> seps[i] == " "
    ensures forall i :: 0 <= i < |[sep] + seps| ==> ([sep] + seps)[i] == " "
  {
  }

  // ------------------------------------------------------------------ packing

  /** What `summary += sentence + " "` leaves after every sentence of `ss`. */
  function Concat(ss: seq<string>): (r: string)
    ensures |ss| > 0 ==> |r| > 0 && r[|r| - 1] == ' '
  {
    if ss == [] then [] else ss[0] + " " + Concat(ss[1..])
  }

  /** `Concat` distributes over sequence concatenation. */
  lemma {:induction false} ConcatAppend(a: seq<string>, b: seq<string>)
    ensures Concat(a + b) == Concat(a) + Concat(b)
    decreases |a|
  {
    if a != [] {
      assert (a + b)[0] == a[0] && (a + b)[1..] == a[1..] + b;
      ConcatAppend(a[1..], b);
      calc {
        Concat(a + b);
        a[0] + " " + Concat(a[1..] + b);
        a[0] + " " + (Concat(a[1..]) + Concat(b));
        { AppendAssoc(a[0] + " ", Concat(a[1..]), Concat(b)); }
        a[0] + " " + Concat(a[1..]) + Concat(b);
        Concat(a) + Concat(b);
      }
    } else {
      assert a + b == b;
    }
  }


  /** When every separator is one space, the sentences each followed by a space spell out the text and one space. */
  lemma {:induction false} ConcatOfSingleSpaced(pieces: seq<string>, seps: seq<string>)
    requires |pieces| == |seps| + 1 && forall i :: 0 <= i < |seps| ==> seps[i] == " "
    ensures Concat(pieces) == Interleave(pieces, seps) + " "
    decreases |seps|
  {
    if seps == [] {
      assert pieces[1..] == [];
    } else {
      assert forall i :: 0 <= i < |seps[1..]| ==> seps[1..][i] == seps[i + 1];
      ConcatOfSingleSpaced(pieces[1..], seps[1..]);
      AppendAssoc(pieces[0] + " ", Interleave(pieces[1..], seps[1..]), " ");
    }
  }

  /**
   * The `for sentence in sentences` loop, from the summary `acc` built so far:
   * a sentence is appended with a trailing space while `len(summary) +
   * len(sentence) <= max_length`, and the first one that does not fit ends the loop.
   */
  function Pack(ss: seq<string>, max: int, acc: string): (r: string)
    ensures acc <= r && (r != acc ==> |r| <= max + 1)
    decreases |ss|
  {
    if ss == [] then acc
    else if |acc| + |ss[0]| <= max then
      var next := acc + ss[0] + " ";
      assert next[..|acc|] == acc;
      Pack(ss[1..], max, next)
    else acc
  }

  /** The first `j + 1` sentences are the first one and the next `j`. */
  lemma ConcatPrefixCons(ss: seq<string>, j: nat)
    requires j < |ss|
    ensures Concat(ss[..j + 1]) == ss[0] + " " + Concat(ss[1..][..j])
  {
    assert ss[..j + 1][0] == ss[0] && ss[..j + 1][1..] == ss[1..][..j];
  }

  /**
   * The packed summary is `acc` and the first `k` sentences, where every one of
   * them fitted when its turn came and sentence `k`, if any, did not.
   */
  lemma {:induction false} PackIsGreedy(ss: seq<string>, max: int, acc: string) returns (k: nat)
    ensures k <= |ss| && Pack(ss, max, acc) == acc + Concat(ss[..k])
    ensures forall j :: 0 <= j < k ==> |acc| + |Concat(ss[..j])| + |ss[j]| <= max
    ensures k < |ss| ==> |acc| + |Concat(ss[..k])| + |ss[k]| > max
    decreases |ss|
  {
    if ss == [] || |acc| + |ss[0]| > max {
      k := 0;
      assert ss[..0] == [];
    } else {
      var next := acc + ss[0] + " ";
      var k' := PackIsGreedy(ss[1..], max, next);
      k := k' + 1;
      ConcatPrefixCons(ss, k');
      AppendAssoc(acc, ss[0], " ");
      AppendAssoc(acc, ss[0] + " ", Concat(ss[1..][..k']));
      forall j | 0 <= j < k
        ensures |acc| + |Concat(ss[..j])| + |ss[j]| <= max
      {
        if j == 0 {
          assert ss[..0] == [];
        } else {
          ConcatPrefixCons(ss, j - 1);
          assert ss[j] == ss[1..][j - 1];
        }
      }
    }
  }


  /** Packing from nothing yields whole sentences, each with its space, making at most `max + 1` characters. */
  lemma PackedLength(ss: seq<string>, max: int) returns (k: nat)
    ensures k <= |ss| && Pack(ss, max, []) == Concat(ss[..k])
    ensures k > 0 ==> |Pack(ss, max, [])| <= max + 1
  {
    k := PackIsGreedy(ss, max, []);
    if k > 0 {
      assert ss[..k] == ss[..k - 1] + [ss[k - 1]];
      ConcatAppend(ss[..k - 1], [ss[k - 1]]);
      assert Concat([ss[k - 1]]) == ss[k - 1] + " ";
    }
  }

  /** The loop of `extract_summary` over the sentences, stopping at the first that does not fit. */
  method PackSentences(sentences: seq<string>, maxLength: int) returns (summary: string)
    ensures summary == Pack(sentences, maxLength, [])
  {
    summary := [];
    for i := 0 to |sentences|
      invariant Pack(sentences, maxLength, []) == Pack(sentences[i..], maxLength, summary)
    {
      var sentence := sentences[i];
      assert sentences[i..][1..] == sentences[i + 1..];
      if |summary| + |sentence| <= maxLength {
        summary := summary + sentence + " ";
      } else {
        return;
      }
    }
    assert sentences[|sentences|..] == [];
  }

  // ------------------------------------------------------------------ summary

  /** `extract_summary`'s default `max_length`. */
  const DEFAULT_SUMMARY_LENGTH := 150

  /**
   * The summary of an article's text: the packed sentences stripped, or when
   * that leaves nothing (the first sentence alone is too long) the first
   * `max_length` characters of the normalised text. It never exceeds
   * `max_length` and is always the beginning of the normalised text:
   * sentences are only ever taken whole from the front.
   */
  function SummaryOf(text: string, maxLength: int): (r: string)
    ensures maxLength >= 0 ==> |r| <= maxLength && r <= Normalize(text)
  {
    if maxLength >= 0 then PackedOrCutFits(text, maxLength); PackedOrCut(Normalize(text), maxLength)
    else PackedOrCut(Normalize(text), maxLength)
  }

  /** The packed sentences of `t` stripped, or the plain cut when that leaves nothing. */
  function PackedOrCut(t: string, maxLength: int): string {
    var packed := Strip(Pack(Sentences(t), maxLength, []));
    if packed == [] then PyPrefix(t, maxLength) else packed
  }

  lemma PackedOrCutFits(text: string, maxLength: int)
    requires maxLength >= 0
    ensures |PackedOrCut(Normalize(text), maxLength)| <= maxLength && PackedOrCut(Normalize(text), maxLength) <= Normalize(text)
  {
    var t := Normalize(text);
    NormalizeSingleSpaced(text);
    PackedIsPaddedPrefix(t, maxLength);
    StrippedOrCutFits(t, Pack(Sentences(t), maxLength, []), maxLength);
  }

  /**
   * Stripping a prefix of `t + " "` that ends in whitespace, where `t` has no
   * whitespace at its ends, leaves a prefix of `t` strictly shorter than it.
   */
  lemma StripPrefixOfPadded(t: string, p: string)
    requires Trimmed(t) && p <= t + " " && p != [] && IsSpace(p[|p| - 1])
    ensures |Strip(p)| < |p| && Strip(p) <= t
  {
    var l := LStrip(p);
    var r := RStrip(l);
    assert Strip(p) == r;
    if t == [] {
      assert p == " ";
      assert l == [] by { assert IsSpace(p[0]); assert p[1..] == []; }
    } else {
      assert p[0] == (t + " ")[0] == t[0];
      assert l == p;
      assert r != p;
      forall i | 0 <= i < |r|
        ensures r[i] == t[i]
      {
        assert r[i] == p[i] == (t + " ")[i];
      }
      assert r == t[..|r|];
    }
  }

  /**
   * On single-spaced text the packed sentences are a prefix of the text and one
   * space; when there are any, they end in that space and hold at most `max + 1`
   * characters.
   */
  lemma PackedIsPaddedPrefix(t: string, maxLength: int)
    requires SingleSpaced(t)
    ensures var p := Pack(Sentences(t), maxLength, []);
            p <= t + " " && (p != [] ==> |p| <= maxLength + 1 && p[|p| - 1] == ' ')
  {
    ConcatOfSentences(t);
    PackedIsPrefix(Sentences(t), t + " ", maxLength);
  }

  /** In single-spaced text the sentences, each followed by a space, spell out the text and one space. */
  lemma ConcatOfSentences(t: string)
    requires SingleSpaced(t)
    ensures Concat(Sentences(t)) == t + " "
  {
    var split := SplitAfterStops(t);
    SplitAfterStopsRoundTrip(t);
    SingleSpacedSeparators(t);
    ConcatOfSingleSpaced(split.0, split.1);
  }

  /** The packed sentences are a prefix of all of them; when any, they end in a space within `max + 1` characters. */
  lemma PackedIsPrefix(ss: seq<string>, u: string, maxLength: int)
    requires Concat(ss) == u
    ensures var p := Pack(ss, maxLength, []);
            p <= u && (p != [] ==> |p| <= maxLength + 1 && p[|p| - 1] == ' ')
  {
    var k := PackedLength(ss, maxLength);
    var p := Concat(ss[..k]);
    assert ss == ss[..k] + ss[k..];
    ConcatAppend(ss[..k], ss[k..]);
    PrefixOfAppend(p, Concat(ss[k..]));
    assert k == 0 ==> ss[..k] == [];
  }

  /** A sequence is a prefix of itself extended. */
  lemma PrefixOfAppend(a: string, b: string)
    ensures a <= a + b
  {
    assert (a + b)[..|a|] == a;
  }

  /**
   * A prefix of `text + " "` that is empty or ends in its space within `max + 1`
   * characters, stripped, or else the plain cut, fits `max` and begins the text.
   */
  lemma StrippedOrCutFits(t: string, p: string, maxLength: int)
    requires Trimmed(t) && maxLength >= 0 && p <= t + " "
    requires p != [] ==> |p| <= maxLength + 1 && p[|p| - 1] == ' '
    ensures var packed := Strip(p);
            var r := if packed == [] then PyPrefix(t, maxLength) else packed;
            |r| <= maxLength && r <= t
  {
    if p == [] {
      StripUnchanged(p);
    } else {
      StripPrefixOfPadded(t, p);
    }
  }

  /**
   * `extract_summary` on the article's text, once the HTML has been reduced to it:
   * normalise, split into sentences, pack them greedily, and fall back to a
   * plain cut when not even the first sentence fits.
   */
  method ExtractSummary(articleText: string, maxLength: int) returns (summary: string)
    ensures summary == SummaryOf(articleText, maxLength)
    ensures maxLength >= 0 ==> |summary| <= maxLength && summary <= Normalize(articleText)
  {
    var text := Normalize(articleText);
    var sentences := Sentences(text);
    summary := PackSentences(sentences, maxLength);
    summary := Strip(summary);
    if summary == [] {
      summary := PyPrefix(text, maxLength);
    }
    assert summary == PackedOrCut(text, maxLength);
  }
}
