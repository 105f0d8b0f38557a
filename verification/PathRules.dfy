/**
 * Replacing absolute paths where they stand on their own
 * (benchmark/skillsbench-collab/src/rewrite.ts:14-30).
 */
module PathRules {
  import opened Text
  import opened Scans

  predicate IsQuote(c: char) {
    c == '\'' || c == '"'
  }

  /** What may stand before a path. A line start is one of these too: line terminators are `\s`. */
  predicate IsLeft(c: char) {
    IsSpace(c) || IsQuote(c) || c == '`' || c == '(' || c == '['
  }

  /** What may stand after a whole path. */
  predicate IsRight(c: char) {
    IsSpace(c) || IsQuote(c) || c == '`' || c == ')' || c == ']'
  }

  /** Replace `src`, where it starts a path or, for a whole token, where it is one. */
  datatype Rule = Rule(src: string, dst: string, wholeToken: bool)

  /** A path starts with its slash and contains nothing that could delimit it. */
  predicate IsPathRule(rule: Rule) {
    && rule.src != ""
    && rule.src[0] == '/'
    && forall i :: 0 <= i < |rule.src| ==> !IsLeft(rule.src[i]) && !IsRight(rule.src[i])
  }

  /** The rule applies at `k` to a text; `left` and `right` say whether what is around it delimits. */
  predicate MatchesIn(text: string, rule: Rule, k: int, left: bool, right: bool) {
    && OccursAt(text, rule.src, k)  // so `k` is a position
    && (if k == 0 then left else IsLeft(text[k - 1]))
    && (rule.wholeToken ==> if k + |rule.src| == |text| then right else IsRight(text[k + |rule.src|]))
  }

  function HitsIn(text: string, rule: Rule, left: bool, right: bool): Hits {
    (k: nat) => MatchesIn(text, rule, k, left, right)
  }

  function ReplaceIn(text: string, rule: Rule, left: bool, right: bool): string
    requires rule.src != ""
  {
    Scan(text, HitsIn(text, rule, left, right), |rule.src|, rule.dst, 0)
  }

  /** The start and the end of a whole text delimit. */
  predicate MatchesAt(text: string, rule: Rule, i: nat) {
    MatchesIn(text, rule, i, true, true)
  }

  function HitsOf(text: string, rule: Rule): Hits {
    HitsIn(text, rule, true, true)
  }

  /** The replacement of a global regular expression, from a position on. */
  function ReplaceFrom(text: string, rule: Rule, i: nat): string
    requires rule.src != ""
  {
    Scan(text, HitsOf(text, rule), |rule.src|, rule.dst, i)
  }

  function Replace(text: string, rule: Rule): string
    requires rule.src != ""
  {
    ReplaceIn(text, rule, true, true)
  }

  lemma ReplaceStep(text: string, rule: Rule, i: nat)
    requires rule.src != "" && i < |text|
    ensures
      ReplaceFrom(text, rule, i) ==
      if MatchesAt(text, rule, i) then rule.dst + ReplaceFrom(text, rule, i + |rule.src|)
      else [text[i]] + ReplaceFrom(text, rule, i + 1)
  {
    ScanStep(text, HitsOf(text, rule), |rule.src|, rule.dst, i);
  }

  /* Every occurrence is replaced. */

  /** Every position of the original text where the rule applies, in order. */
  function Occurrences(text: string, rule: Rule): seq<nat> {
    HitsFrom(text, HitsOf(text, rule), 0)
  }

  lemma OccurrencesAreAll(text: string, rule: Rule)
    ensures forall k :: k in Occurrences(text, rule) <==> 0 <= k < |text| && MatchesAt(text, rule, k)
    ensures forall m, n :: 0 <= m < n < |Occurrences(text, rule)| ==> Occurrences(text, rule)[m] < Occurrences(text, rule)[n]
  {
    HitsAreAll(text, HitsOf(text, rule), 0);
  }

  /** Two places where a path rule applies never overlap: inside a path nothing delimits another. */
  lemma MatchesAreApart(text: string, rule: Rule, i: nat, j: nat)
    requires IsPathRule(rule) && i < j && MatchesAt(text, rule, i) && MatchesAt(text, rule, j)
    ensures i + |rule.src| <= j
  {
    OccurringChars(text, rule.src, i);
  }

  lemma MatchesNeverOverlap(text: string, rule: Rule)
    requires IsPathRule(rule)
    ensures NeverOverlap(text, HitsOf(text, rule), |rule.src|)
  {
    forall j: nat, k: nat | j < k && HitsOf(text, rule)(j) && HitsOf(text, rule)(k)
      ensures j + |rule.src| <= k
    {
      MatchesAreApart(text, rule, j, k);
    }
  }

  /** Replacement is exactly splicing `dst` into the original text at every place the rule applies. */
  lemma ReplaceSplicesEveryOccurrence(text: string, rule: Rule)
    requires IsPathRule(rule)
    ensures AreApart(text, 0, Occurrences(text, rule), |rule.src|)
    ensures Replace(text, rule) == Splice(text, 0, Occurrences(text, rule), |rule.src|, rule.dst)
  {
    MatchesNeverOverlap(text, rule);
    HitsAreApart(text, HitsOf(text, rule), |rule.src|, 0);
    ScanSplices(text, HitsOf(text, rule), |rule.src|, rule.dst, 0);
  }

  /* One hit, or none. */

  lemma ReplaceNothing(text: string, rule: Rule)
    requires rule.src != "" && forall k :: 0 <= k < |text| ==> !MatchesAt(text, rule, k)
    ensures Replace(text, rule) == text
  {
    forall k | 0 <= k < |text|
      ensures !HitsOf(text, rule)(k)
    {
      assert !MatchesAt(text, rule, k);
    }
    ScanCopies(text, HitsOf(text, rule), |rule.src|, rule.dst, 0, |text|);
    assert text[0..|text|] == text && text + "" == text;
  }

  /** A match at the start, and none after it. */
  lemma ReplaceStart(src: string, rest: string, rule: Rule)
    requires rule.src == src != "" && MatchesAt(src + rest, rule, 0)
    requires forall k :: |src| <= k < |src + rest| ==> !MatchesAt(src + rest, rule, k)
    ensures Replace(src + rest, rule) == rule.dst + rest
  {
    var text := src + rest;
    forall k | |src| <= k < |text|
      ensures !HitsOf(text, rule)(k)
    {
      assert !MatchesAt(text, rule, k);
    }
    ScanStep(text, HitsOf(text, rule), |src|, rule.dst, 0);
    ScanCopies(text, HitsOf(text, rule), |src|, rule.dst, |src|, |text|);
    assert text[|src|..|text|] == rest && rest + "" == rest;
  }

  /** In a text without delimiters only its start can match. */
  lemma ReplaceUndelimited(text: string, rule: Rule)
    requires IsPathRule(rule) && forall k :: 0 <= k < |text| ==> !IsLeft(text[k])
    ensures Replace(text, rule) == if MatchesAt(text, rule, 0) then rule.dst + text[|rule.src|..] else text
  {
    forall k | 0 < k < |text|
      ensures !MatchesAt(text, rule, k)
    {
      assert !IsLeft(text[k - 1]);
    }
    if MatchesAt(text, rule, 0) {
      OccurringChars(text, rule.src, 0);
      assert text == rule.src + text[|rule.src|..];
      ReplaceStart(rule.src, text[|rule.src|..], rule);
    } else {
      ReplaceNothing(text, rule);
    }
  }
}
