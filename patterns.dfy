/**
 * The regular expressions the core searches lower-cased text with. Each one is an
 * alternation; an alternative is a literal, a whole word (`\bword\b`), a dollar
 * amount (`\$\d{n,}[units]`) or two literals in order on one line (`a.*b`).
 */
module Patterns {
  import opened Text

  datatype Term =
    | Lit(word: string)
    | Word(word: string)
    | DollarAmount(minDigits: nat, units: set<char>)
    | SameLine(first: string, second: string)

  /** `\$\d{n,}[units]` matches at `i`: a dollar sign, at least `n` digits, then a unit letter. */
  predicate DollarAt(s: string, i: int, minDigits: nat, units: set<char>) {
    0 <= i < |s| && s[i] == '$'
    && var n := SpanWhile(s[i + 1..], IsDigit);
       n >= minDigits && i + 1 + n < |s| && s[i + 1 + n] in units
  }

  /** `first.*second` matches from `i`: `first` at `i`, `second` at `j`, no line break between. */
  predicate SameLineAt(s: string, first: string, second: string, i: int, j: int) {
    OccursAt(s, first, i) && i + |first| <= j && OccursAt(s, second, j)
    && forall m :: i + |first| <= m < j ==> s[m] != '\n'
  }

  /** `re.search` of one alternative. */
  predicate TermMatches(t: Term, s: string) {
    match t
    case Lit(w) => Contains(s, w)
    case Word(w) => HasWord(s, w)
    case DollarAmount(n, units) => exists i :: 0 <= i < |s| && DollarAt(s, i, n, units)
    case SameLine(a, b) => exists i, j :: 0 <= i <= j <= |s| && SameLineAt(s, a, b, i, j)
  }

  /** `re.search` of an alternation: some alternative matches. */
  predicate Matches(pattern: seq<Term>, s: string) {
    exists k :: 0 <= k < |pattern| && TermMatches(pattern[k], s)
  }
}
