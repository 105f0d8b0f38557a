/**
 * Rewriting word by word: passes of path rules over a text, between its delimiters
 * (benchmark/skillsbench-collab/src/rewrite.ts:14-24, 59-65).
 */
module Words {
  import opened Text
  import opened Scans
  import opened PathRules

  predicate IsDelimiter(c: char) {
    IsLeft(c) || IsRight(c)
  }

  ghost predicate IsUndelimited(text: string) {
    forall i :: 0 <= i < |text| ==> !IsDelimiter(text[i])
  }

  ghost predicate ArePathRules(rules: seq<Rule>) {
    forall i :: 0 <= i < |rules| ==> IsPathRule(rules[i])
  }

  /** One pass per rule, each over the result of the one before it. */
  function ReplaceAllIn(text: string, rules: seq<Rule>, left: bool, right: bool): string
    requires forall i :: 0 <= i < |rules| ==> rules[i].src != ""
    decreases |rules|
  {
    if rules == [] then text else ReplaceAllIn(ReplaceIn(text, rules[0], left, right), rules[1..], left, right)
  }

  function ReplaceAll(text: string, rules: seq<Rule>): string
    requires forall i :: 0 <= i < |rules| ==> rules[i].src != ""
  {
    ReplaceAllIn(text, rules, true, true)
  }

  /* Rewriting the words of a text. */

  /** The first delimiter, or the end. */
  function WordEnd(text: string): (n: nat)
    ensures n <= |text| && IsUndelimited(text[..n])
    ensures n < |text| ==> IsDelimiter(text[n])
  {
    if text == "" || IsDelimiter(text[0]) then 0
    else
      var n := WordEnd(text[1..]) + 1;
      assert text[..n] == [text[0]] + text[1..][..n - 1];
      n
  }

  /** What becomes of a word, by whether it has a delimiter of the right kind on its left and right. */
  type Form = (string, bool, bool) -> string

  predicate IsEndOfWord(text: string, n: nat, right: bool)
    requires n <= |text|
  {
    if n == |text| then right else IsRight(text[n])
  }

  /** Every word in its place between delimiters; `left` and `right` say what is around the text. */
  function RewriteBy(text: string, left: bool, right: bool, f: Form): string
    decreases |text|
  {
    var n := WordEnd(text);
    var word := f(text[..n], left, IsEndOfWord(text, n, right));
    if n == |text| then word else word + ([text[n]] + RewriteBy(text[n + 1..], IsLeft(text[n]), right, f))
  }

  lemma {:induction false} WordEndOf(word: string, rest: string)
    requires IsUndelimited(word) && (rest == "" || IsDelimiter(rest[0]))
    ensures WordEnd(word + rest) == |word|
  {
    if word == "" {
      assert word + rest == rest;
    } else {
      assert (word + rest)[1..] == word[1..] + rest;
      WordEndOf(word[1..], rest);
    }
  }

  lemma CutBack(word: string, d: char, tail: string)
    ensures
      var text := word + ([d] + tail);
      text[..|word|] == word && text[|word|] == d && text[|word| + 1..] == tail
  {
  }

  /** The first word of a text, the delimiter behind it, and the rest. */
  lemma FirstRewritten(text: string, left: bool, right: bool, f: Form)
    ensures
      var n := WordEnd(text);
      var word := f(text[..n], left, IsEndOfWord(text, n, right));
      RewriteBy(text, left, right, f) ==
      if n == |text| then word else word + ([text[n]] + RewriteBy(text[n + 1..], IsLeft(text[n]), right, f))
  {
  }

  lemma RewriteByWord(word: string, left: bool, right: bool, f: Form)
    requires IsUndelimited(word)
    ensures RewriteBy(word, left, right, f) == f(word, left, right)
  {
    WordEndOf(word, "");
    assert word + "" == word && word[..|word|] == word;
  }

  lemma RewriteByFirstWord(word: string, d: char, rest: string, left: bool, right: bool, f: Form)
    requires IsUndelimited(word) && IsDelimiter(d)
    ensures RewriteBy(word + ([d] + rest), left, right, f) ==
            f(word, left, IsRight(d)) + ([d] + RewriteBy(rest, IsLeft(d), right, f))
  {
    WordEndOf(word, [d] + rest);
    CutBack(word, d, rest);
    FirstRewritten(word + ([d] + rest), left, right, f);
  }

  lemma CutAt(text: string, n: nat)
    requires n < |text|
    ensures text == text[..n] + ([text[n]] + text[n + 1..])
  {
  }

  lemma WholeWord(text: string)
    ensures WordEnd(text) == |text| ==> IsUndelimited(text)
  {
    assert text[..|text|] == text;
  }

  lemma CutDelimited(text: string) returns (word: string, d: char, rest: string)
    requires !IsUndelimited(text)
    ensures IsUndelimited(word) && IsDelimiter(d) && text == word + ([d] + rest)
  {
    WholeWord(text);
    var n := WordEnd(text);
    CutAt(text, n);
    word, d, rest := text[..n], text[n], text[n + 1..];
  }

  lemma MoveIn(a: string, c: char, b: string, tail: string)
    ensures (a + ([c] + b)) + tail == a + ([c] + (b + tail))
  {
  }

  /** What is on the two sides of a delimiter is rewritten on its own. */
  lemma {:induction false} RewriteByAt(a: string, d: char, b: string, left: bool, right: bool, f: Form)
    requires IsDelimiter(d)
    ensures RewriteBy(a + ([d] + b), left, right, f) ==
            RewriteBy(a, left, IsRight(d), f) + ([d] + RewriteBy(b, IsLeft(d), right, f))
    decreases |a|
  {
    if IsUndelimited(a) {
      RewriteByWord(a, left, IsRight(d), f);
      RewriteByFirstWord(a, d, b, left, right, f);
    } else {
      var word, c, rest := CutDelimited(a);
      RewriteByAt(rest, d, b, IsLeft(c), right, f);
      RewriteByFirstWord(word, c, rest, left, IsRight(d), f);
      RewriteByFirstWord(word, c, rest + ([d] + b), left, right, f);
      MoveIn(word, c, rest, [d] + b);
      MoveIn(
        f(word, left, IsRight(c)), c, RewriteBy(rest, IsLeft(c), IsRight(d), f), [d] + RewriteBy(b, IsLeft(d), right, f));
    }
  }

  /** No rewriting takes a delimiter away. */
  lemma DelimitersStay(text: string, left: bool, right: bool, f: Form)
    ensures IsUndelimited(RewriteBy(text, left, right, f)) ==> IsUndelimited(text)
  {
    if !IsUndelimited(text) {
      var word, d, rest := CutDelimited(text);
      RewriteByFirstWord(word, d, rest, left, right, f);
      var form := f(word, left, IsRight(d));
      assert (form + ([d] + RewriteBy(rest, IsLeft(d), right, f)))[|form|] == d;
    }
  }

  /** The second form is the first one on words. */
  ghost predicate AreSameForms(f: Form, g: Form) {
    forall w, left, right :: IsUndelimited(w) ==> f(w, left, right) == g(w, left, right)
  }

  lemma {:induction false} RewriteBySame(text: string, left: bool, right: bool, f: Form, g: Form)
    requires AreSameForms(f, g)
    ensures RewriteBy(text, left, right, f) == RewriteBy(text, left, right, g)
    decreases |text|
  {
    if IsUndelimited(text) {
      RewriteByWord(text, left, right, f);
      RewriteByWord(text, left, right, g);
    } else {
      var word, d, rest := CutDelimited(text);
      RewriteByFirstWord(word, d, rest, left, right, f);
      RewriteByFirstWord(word, d, rest, left, right, g);
      RewriteBySame(rest, IsLeft(d), right, f, g);
    }
  }

  lemma {:induction false} RewriteByNothing(text: string, left: bool, right: bool, f: Form)
    requires forall w, l, r :: f(w, l, r) == w
    ensures RewriteBy(text, left, right, f) == text
    decreases |text|
  {
    if IsUndelimited(text) {
      RewriteByWord(text, left, right, f);
    } else {
      var word, d, rest := CutDelimited(text);
      RewriteByFirstWord(word, d, rest, left, right, f);
      RewriteByNothing(rest, IsLeft(d), right, f);
    }
  }

  /** What becomes of a word by the one form and then, as a text in its place, by the other. */
  function InTurn(f: Form, g: Form): Form {
    (w, left, right) => RewriteBy(f(w, left, right), left, right, g)
  }

  /** Two rewritings one after the other are one, whatever the first puts in. */
  lemma {:induction false} RewriteByInTurn(text: string, left: bool, right: bool, f: Form, g: Form)
    ensures RewriteBy(RewriteBy(text, left, right, f), left, right, g) == RewriteBy(text, left, right, InTurn(f, g))
    decreases |text|
  {
    var h := InTurn(f, g);
    if IsUndelimited(text) {
      RewriteByWord(text, left, right, f);
      RewriteByWord(text, left, right, h);
    } else {
      var word, d, rest := CutDelimited(text);
      RewriteByFirstWord(word, d, rest, left, right, f);
      RewriteByFirstWord(word, d, rest, left, right, h);
      RewriteByAt(f(word, left, IsRight(d)), d, RewriteBy(rest, IsLeft(d), right, f), left, right, g);
      RewriteByInTurn(rest, IsLeft(d), right, f, g);
    }
  }

  /* One pass. */

  /** What a pass makes of a word, which delimiters of the right kind may or may not enclose. */
  function OnWord(word: string, rule: Rule, left: bool, right: bool): string {
    if left && StartsWith(word, rule.src) && (rule.wholeToken ==> word == rule.src && right) then
      rule.dst + word[|rule.src|..]
    else word
  }

  function PassOf(rule: Rule): Form {
    (w, left, right) => OnWord(w, rule, left, right)
  }

  /** Inside a word, or at the delimiter behind it, nothing applies but at the start of the word. */
  lemma MatchesAtStartOnly(word: string, tail: string, rule: Rule, k: nat, left: bool, right: bool)
    requires IsPathRule(rule) && IsUndelimited(word) && (tail == "" || IsDelimiter(tail[0]))
    requires 0 < k <= |word|
    ensures !MatchesIn(word + tail, rule, k, left, right)
  {
    assert (word + tail)[k - 1] == word[k - 1] && !IsDelimiter(word[k - 1]);
  }

  /** What applies at the start of a word is in it. */
  lemma MatchesInFirstWord(word: string, tail: string, rule: Rule, left: bool, right: bool)
    requires IsPathRule(rule) && IsUndelimited(word) && (tail == "" || IsDelimiter(tail[0]))
    requires MatchesIn(word + tail, rule, 0, left, right)
    ensures left && StartsWith(word, rule.src)
    ensures rule.wholeToken ==> word == rule.src && (if tail == "" then right else IsRight(tail[0]))
  {
    var text := word + tail;
    forall p | 0 <= p < |rule.src|
      ensures !IsDelimiter(text[p])
    {
      assert text[0 + p] == rule.src[p];
    }
    assert forall k :: 0 <= k < |word| ==> text[k] == word[k];
    assert tail != "" ==> text[|word|] == tail[0];
    assert |rule.src| <= |word|;
    if |rule.src| < |word| {
      assert !IsDelimiter(word[|rule.src|]);
    } else {
      assert forall k :: 0 <= k < |word| ==> word[k] == rule.src[k];
    }
  }

  lemma FirstWordMatches(word: string, tail: string, rule: Rule, left: bool, right: bool)
    requires left && StartsWith(word, rule.src)
    requires rule.wholeToken ==> word == rule.src && (if tail == "" then right else IsRight(tail[0]))
    ensures MatchesIn(word + tail, rule, 0, left, right)
  {
    var text := word + tail;
    assert forall k :: 0 <= k < |rule.src| ==> text[0 + k] == word[0 + k] == rule.src[k];
    assert tail != "" ==> text[|word|] == tail[0];
  }

  /** The rule applies to a text where it applies to its first word. */
  lemma SameInFirstWord(text: string, word: string, tail: string, rule: Rule, left: bool, right: bool, end: bool, k: nat)
    requires IsPathRule(rule) && IsUndelimited(word) && (tail == "" || IsDelimiter(tail[0])) && text == word + tail
    requires end == if tail == "" then right else IsRight(tail[0])
    requires k < |word|
    ensures IsSameBefore(text, HitsIn(text, rule, left, right), word, HitsIn(word, rule, left, end), |rule.src|, k)
  {
    assert word + "" == word;
    if k > 0 {
      MatchesAtStartOnly(word, tail, rule, k, left, right);
      MatchesAtStartOnly(word, "", rule, k, left, end);
    }
    if MatchesIn(text, rule, 0, left, right) {
      MatchesInFirstWord(word, tail, rule, left, right);
      FirstWordMatches(word, "", rule, left, end);
    }
    if MatchesIn(word, rule, 0, left, end) {
      MatchesInFirstWord(word, "", rule, left, end);
      FirstWordMatches(word, tail, rule, left, right);
    }
  }

  lemma ReplaceInWord(word: string, rule: Rule, left: bool, right: bool)
    requires IsPathRule(rule) && IsUndelimited(word)
    ensures ReplaceIn(word, rule, left, right) == OnWord(word, rule, left, right)
  {
    var hits, n := HitsIn(word, rule, left, right), |rule.src|;
    assert word + "" == word;
    forall k: nat | 0 < k <= |word|
      ensures !hits(k)
    {
      MatchesAtStartOnly(word, "", rule, k, left, right);
    }
    if MatchesIn(word, rule, 0, left, right) {
      MatchesInFirstWord(word, "", rule, left, right);
      ScanStep(word, hits, n, rule.dst, 0);
      ScanCopies(word, hits, n, rule.dst, n, |word|);
      assert word[n..|word|] == word[n..] && word[n..] + "" == word[n..];
    } else {
      if left && StartsWith(word, rule.src) && (rule.wholeToken ==> word == rule.src && right) {
        FirstWordMatches(word, "", rule, left, right);
      }
      ScanCopies(word, hits, n, rule.dst, 0, |word|);
      assert word[0..|word|] == word;
    }
  }

  lemma ShiftedMatch(front: string, rest: string, rule: Rule, n: nat, left: bool, right: bool)
    requires front != ""
    ensures MatchesIn(front + rest, rule, |front| + n, left, right) <==>
              MatchesIn(rest, rule, n, IsLeft(front[|front| - 1]), right)
  {
    var text := front + rest;
    OccursBehind(front, rest, rule.src, n);
    assert text[|front| - 1] == front[|front| - 1];
    assert 0 < n <= |rest| ==> text[|front| + n - 1] == rest[n - 1];
    assert n + |rule.src| < |rest| ==> text[|front| + n + |rule.src|] == rest[n + |rule.src|];
  }

  lemma SameInRest(text: string, front: string, rest: string, rule: Rule, left: bool, right: bool, n: nat, k: nat)
    requires text == front + rest && front != "" && n == |front| && k < |rest|
    ensures IsSameBehind(
              text, HitsIn(text, rule, left, right), n, rest, HitsIn(rest, rule, IsLeft(front[|front| - 1]), right), k)
  {
    ShiftedMatch(front, rest, rule, k, left, right);
    assert rest[k] == text[n + k];
  }

  lemma ReplaceInRest(text: string, front: string, rest: string, rule: Rule, left: bool, right: bool)
    requires rule.src != "" && text == front + rest && front != ""
    ensures Scan(text, HitsIn(text, rule, left, right), |rule.src|, rule.dst, |front|) ==
            ReplaceIn(rest, rule, IsLeft(front[|front| - 1]), right)
  {
    var n := |front|;
    var restHits := HitsIn(rest, rule, IsLeft(front[|front| - 1]), right);
    forall k: nat | k < |rest|
      ensures IsSameBehind(text, HitsIn(text, rule, left, right), n, rest, restHits, k)
    {
      SameInRest(text, front, rest, rule, left, right, n, k);
    }
    ScanBehind(text, HitsIn(text, rule, left, right), n, rest, restHits, |rule.src|, rule.dst);
  }

  lemma DelimiterIsCopied(text: string, word: string, d: char, rest: string, rule: Rule, left: bool, right: bool)
    requires IsPathRule(rule) && IsUndelimited(word) && IsDelimiter(d) && text == word + ([d] + rest)
    ensures Scan(text, HitsIn(text, rule, left, right), |rule.src|, rule.dst, |word|) ==
            [d] + Scan(text, HitsIn(text, rule, left, right), |rule.src|, rule.dst, |word| + 1)
  {
    assert text[|word|] == d && !IsDelimiter(rule.src[0]);
    ScanStep(text, HitsIn(text, rule, left, right), |rule.src|, rule.dst, |word|);
  }

  lemma ReplaceInFirstWord(text: string, word: string, d: char, rest: string, rule: Rule, left: bool, right: bool)
    requires IsPathRule(rule) && IsUndelimited(word) && IsDelimiter(d) && text == word + ([d] + rest)
    ensures ReplaceIn(text, rule, left, right) ==
            OnWord(word, rule, left, IsRight(d)) + ([d] + ReplaceIn(rest, rule, IsLeft(d), right))
  {
    var hits := HitsIn(text, rule, left, right);
    forall k: nat | k < |word|
      ensures IsSameBefore(text, hits, word, HitsIn(word, rule, left, IsRight(d)), |rule.src|, k)
    {
      SameInFirstWord(text, word, [d] + rest, rule, left, right, IsRight(d), k);
    }
    ScanBefore(text, hits, word, HitsIn(word, rule, left, IsRight(d)), |rule.src|, rule.dst, 0);
    ReplaceInWord(word, rule, left, IsRight(d));
    DelimiterIsCopied(text, word, d, rest, rule, left, right);
    AppendIsAssociative(word, [d], rest);
    ReplaceInRest(text, word + [d], rest, rule, left, right);
  }

  lemma {:induction false} ReplaceInByWords(text: string, rule: Rule, left: bool, right: bool)
    requires IsPathRule(rule)
    ensures ReplaceIn(text, rule, left, right) == RewriteBy(text, left, right, PassOf(rule))
    decreases |text|
  {
    if IsUndelimited(text) {
      ReplaceInWord(text, rule, left, right);
      RewriteByWord(text, left, right, PassOf(rule));
    } else {
      var word, d, rest := CutDelimited(text);
      ReplaceInFirstWord(text, word, d, rest, rule, left, right);
      RewriteByFirstWord(word, d, rest, left, right, PassOf(rule));
      ReplaceInByWords(rest, rule, IsLeft(d), right);
    }
  }

  /* All passes. */

  function PassesOf(rules: seq<Rule>): Form
    requires forall i :: 0 <= i < |rules| ==> rules[i].src != ""
  {
    (w, left, right) => ReplaceAllIn(w, rules, left, right)
  }

  /** The passes over a text are the passes over each of its words in its place, whatever they put in. */
  lemma {:induction false} ReplaceAllByWords(text: string, rules: seq<Rule>, left: bool, right: bool)
    requires ArePathRules(rules)
    ensures ReplaceAllIn(text, rules, left, right) == RewriteBy(text, left, right, PassesOf(rules))
    decreases |rules|
  {
    if rules == [] {
      RewriteByNothing(text, left, right, PassesOf(rules));
    } else {
      var first, rest := PassOf(rules[0]), rules[1..];
      assert ArePathRules(rest);
      ReplaceInByWords(text, rules[0], left, right);
      ReplaceAllByWords(ReplaceIn(text, rules[0], left, right), rest, left, right);
      RewriteByInTurn(text, left, right, first, PassesOf(rest));
      forall w, l, r | IsUndelimited(w)
        ensures InTurn(first, PassesOf(rest))(w, l, r) == PassesOf(rules)(w, l, r)
      {
        ReplaceInWord(w, rules[0], l, r);
        ReplaceAllByWords(OnWord(w, rules[0], l, r), rest, l, r);
      }
      RewriteBySame(text, left, right, InTurn(first, PassesOf(rest)), PassesOf(rules));
    }
  }

  lemma {:induction false} ReplaceAllInTurn(text: string, xs: seq<Rule>, ys: seq<Rule>, left: bool, right: bool)
    requires ArePathRules(xs) && ArePathRules(ys)
    ensures ArePathRules(xs + ys)
    ensures ReplaceAllIn(text, xs + ys, left, right) == ReplaceAllIn(ReplaceAllIn(text, xs, left, right), ys, left, right)
    decreases |xs|
  {
    if xs == [] {
      assert xs + ys == ys;
    } else {
      assert (xs + ys)[1..] == xs[1..] + ys;
      assert ArePathRules(xs[1..]);
      ReplaceAllInTurn(ReplaceIn(text, xs[0], left, right), xs[1..], ys, left, right);
    }
  }

  /** A quote separates: the passes work on its two sides independently. */
  lemma ReplaceAllSplitsAtQuote(a: string, quote: char, c: string, rules: seq<Rule>)
    requires ArePathRules(rules) && IsQuote(quote)
    ensures ReplaceAll(a + [quote] + c, rules) == ReplaceAll(a, rules) + [quote] + ReplaceAll(c, rules)
  {
    var f := PassesOf(rules);
    AppendIsAssociative(a, [quote], c);
    RewriteByAt(a, quote, c, true, true, f);
    ReplaceAllByWords(a + ([quote] + c), rules, true, true);
    ReplaceAllByWords(a, rules, true, true);
    ReplaceAllByWords(c, rules, true, true);
    AppendIsAssociative(ReplaceAll(a, rules), [quote], ReplaceAll(c, rules));
  }

  lemma {:induction false} ReplaceAllOfEmpty(rules: seq<Rule>)
    requires ArePathRules(rules)
    ensures ReplaceAll("", rules) == ""
    decreases |rules|
  {
    if rules != [] {
      assert ArePathRules(rules[1..]);
      ReplaceAllOfEmpty(rules[1..]);
    }
  }

  /* Words that stay words. */

  function OnWordAll(word: string, rules: seq<Rule>, left: bool, right: bool): string
    decreases |rules|
  {
    if rules == [] then word else OnWordAll(OnWord(word, rules[0], left, right), rules[1..], left, right)
  }

  lemma UndelimitedOnWord(word: string, rule: Rule, left: bool, right: bool)
    requires IsUndelimited(word) && IsUndelimited(rule.dst)
    ensures IsUndelimited(OnWord(word, rule, left, right))
  {
  }

  /** As long as no delimiter is put in, the passes over a word go on with one word. */
  lemma {:induction false} OneWord(word: string, rules: seq<Rule>, left: bool, right: bool)
    requires IsUndelimited(word) && ArePathRules(rules)
    requires forall i :: 0 <= i < |rules| - 1 ==> IsUndelimited(rules[i].dst)
    ensures ReplaceAllIn(word, rules, left, right) == OnWordAll(word, rules, left, right)
    decreases |rules|
  {
    if rules != [] {
      var next, rest := OnWord(word, rules[0], left, right), rules[1..];
      ReplaceInWord(word, rules[0], left, right);
      if |rules| > 1 {
        UndelimitedOnWord(word, rules[0], left, right);
        assert ArePathRules(rest);
        OneWord(next, rest, left, right);
      } else {
        assert rest == [];
      }
    }
  }
}
