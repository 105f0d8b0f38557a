/** Replacing a literal text everywhere, by splitting at it and joining (benchmark/skillsbench-collab/src/rewrite.ts:66-78). */
module Literals {
  import opened Text
  import opened Scans
  import opened PathRules

  datatype Literal = Literal(src: string, dst: string)

  function OccurrencesOf(text: string, part: string): Hits {
    (k: nat) => OccursAt(text, part, k)
  }

  /** Splitting at `src` and joining with `dst`. */
  function Swap(text: string, l: Literal): string
    requires l.src != ""
  {
    Scan(text, OccurrencesOf(text, l.src), |l.src|, l.dst, 0)
  }

  /* Cutting a text where no occurrence lies across the cut. */

  ghost predicate NothingAcross(text: string, l: Literal, cut: nat) {
    forall i :: 0 <= i < cut < i + |l.src| ==> !OccursAt(text, l.src, i)
  }

  lemma SameBehindCut(text: string, a: string, b: string, src: string, n: nat, k: nat)
    requires text == a + b && n == |a| && k < |b|
    ensures IsSameBehind(text, OccurrencesOf(text, src), n, b, OccurrencesOf(b, src), k)
  {
    OccursBehind(a, b, src, k);
    assert b[k] == text[n + k];
  }

  lemma SwapBehind(text: string, a: string, b: string, l: Literal)
    requires l.src != "" && text == a + b
    ensures Scan(text, OccurrencesOf(text, l.src), |l.src|, l.dst, |a|) == Swap(b, l)
  {
    var n := |a|;
    forall k: nat | k < |b|
      ensures IsSameBehind(text, OccurrencesOf(text, l.src), n, b, OccurrencesOf(b, l.src), k)
    {
      SameBehindCut(text, a, b, l.src, n, k);
    }
    ScanBehind(text, OccurrencesOf(text, l.src), n, b, OccurrencesOf(b, l.src), |l.src|, l.dst);
  }

  lemma SameBeforeCut(text: string, a: string, b: string, l: Literal, k: nat)
    requires text == a + b && k < |a| && NothingAcross(text, l, |a|)
    ensures IsSameBefore(text, OccurrencesOf(text, l.src), a, OccurrencesOf(a, l.src), |l.src|, k)
  {
    if k + |l.src| <= |a| {
      OccursBefore(a, b, l.src, k);
    }
  }

  lemma SwapSplits(a: string, b: string, l: Literal)
    requires l.src != "" && NothingAcross(a + b, l, |a|)
    ensures Swap(a + b, l) == Swap(a, l) + Swap(b, l)
  {
    var text := a + b;
    forall k: nat | k < |a|
      ensures IsSameBefore(text, OccurrencesOf(text, l.src), a, OccurrencesOf(a, l.src), |l.src|, k)
    {
      SameBeforeCut(text, a, b, l, k);
    }
    ScanBefore(text, OccurrencesOf(text, l.src), a, OccurrencesOf(a, l.src), |l.src|, l.dst, 0);
    SwapBehind(text, a, b, l);
  }

  lemma SwapKeepsLast(text: string, l: Literal)
    requires l.src != "" && l.dst != "" && l.src[|l.src| - 1] == l.dst[|l.dst| - 1] && text != ""
    ensures Swap(text, l) != ""
    ensures Swap(text, l)[|Swap(text, l)| - 1] == text[|text| - 1]
  {
    forall k: nat
      ensures EndsAlike(text, OccurrencesOf(text, l.src), |l.src|, l.dst, k)
    {
      assert OccursAt(text, l.src, k) ==> text[k + (|l.src| - 1)] == l.src[|l.src| - 1];
    }
    ScanKeepsLast(text, OccurrencesOf(text, l.src), |l.src|, l.dst, 0);
  }

  /** A text without an occurrence is left alone. */
  lemma SwapNothing(text: string, l: Literal)
    requires l.src != "" && forall k: nat :: !OccursAt(text, l.src, k)
    ensures Swap(text, l) == text
  {
    ScanCopies(text, OccurrencesOf(text, l.src), |l.src|, l.dst, 0, |text|);
    assert text[0..|text|] == text && text + "" == text;
  }

  /* Literals that quote an absolute path. */

  /**
   * `src` reads: something, a quote, a path starting with a slash, a quote, and at most a closing
   * parenthesis. `dst` begins alike, up to the first quote, and ends alike.
   */
  ghost predicate QuotesPath(l: Literal, head: nat, end: nat) {
    && 0 < head && head + 1 < end < |l.src| <= end + 2
    && (forall i :: 0 <= i < |l.src| ==> (IsQuote(l.src[i]) <==> i == head || i == end))
    && (forall i :: 0 <= i < |l.src| ==> (l.src[i] == ')' <==> i == end + 1))
    && l.src[head + 1] == '/'
    && l.dst != "" && l.src[|l.src| - 1] == l.dst[|l.dst| - 1]
    && l.src[..head + 1] <= l.dst
  }

  ghost predicate IsPathLiteral(l: Literal) {
    exists head: nat, end: nat :: QuotesPath(l, head, end)
  }

  /** The path such a literal quotes. */
  ghost predicate IsPathOf(p: string, l: Literal) {
    exists head: nat, end: nat :: QuotesPath(l, head, end) && p == l.src[head + 1..end]
  }

  predicate IsQuotable(p: string) {
    forall i :: 0 <= i < |p| ==> !IsQuote(p[i])
  }

  /**
   * Between `x` and a text that goes on with `p` and a quote: behind a quote, unless the literal has that
   * path or could close there, or behind a closing parenthesis.
   */
  ghost predicate IsCut(x: string, p: string, l: Literal) {
    && IsQuotable(p) && x != ""
    && (|| x[|x| - 1] == ')'
        || (IsQuote(x[|x| - 1]) && (p == "" || p[0] != ')') && !IsPathOf(p, l)))
  }

  /** What is behind the first quote of such a literal, up to the next quote, is its path. */
  lemma PathFits(l: Literal, head: nat, end: nat, p: string, quote: char)
    requires QuotesPath(l, head, end) && IsQuotable(p) && IsQuote(quote)
    requires forall k :: 0 <= k < |p| && head + 1 + k < |l.src| ==> l.src[head + 1 + k] == p[k]
    requires head + 1 + |p| < |l.src| ==> l.src[head + 1 + |p|] == quote
    ensures IsPathOf(p, l)
  {
    forall j | head < j <= head + |p| && j < |l.src|
      ensures !IsQuote(l.src[j])
    {
      assert l.src[head + 1 + (j - head - 1)] == p[j - head - 1];
    }
    assert IsQuote(l.src[end]);
    assert head + 1 + |p| < |l.src| ==> IsQuote(l.src[head + 1 + |p|]);
    assert end == head + 1 + |p|;
    assert l.src[head + 1..end] == p;
  }

  /** Of an occurrence that starts in `x`, what lies behind `x`. */
  lemma CharsAcross(x: string, p: string, quote: char, y: string, src: string, i: nat)
    requires i < |x| < i + |src| && OccursAt(x + (p + [quote] + y), src, i)
    ensures
      var n := |x| - i;
      && src[n - 1] == x[|x| - 1]
      && (forall k :: 0 <= k < |p| && n + k < |src| ==> src[n + k] == p[k])
      && (n + |p| < |src| ==> src[n + |p|] == quote)
  {
    var text, n := x + (p + [quote] + y), |x| - i;
    assert text[i + (n - 1)] == x[|x| - 1];
    forall k | 0 <= k < |p| && n + k < |src|
      ensures src[n + k] == p[k]
    {
      assert text[i + (n + k)] == text[|x| + k] == p[k];
    }
    if n + |p| < |src| {
      assert text[i + (n + |p|)] == text[|x| + |p|] == quote;
    }
  }

  /** A literal that starts before the cut and goes on behind it has its first quote there, and quotes `p`. */
  lemma AcrossIsPath(x: string, p: string, quote: char, y: string, l: Literal, head: nat, end: nat, i: nat)
    requires QuotesPath(l, head, end) && IsQuotable(p) && IsQuote(quote)
    requires i < |x| < i + |l.src| && OccursAt(x + (p + [quote] + y), l.src, i)
    requires IsQuote(x[|x| - 1]) && (p == "" || p[0] != ')')
    ensures IsPathOf(p, l)
  {
    var n := |x| - i;
    CharsAcross(x, p, quote, y, l.src, i);
    assert l.src[n] == if p == "" then quote else p[0] by {
      assert p != "" ==> l.src[n + 0] == p[0];
    }
    assert n - 1 == head;
    PathFits(l, head, end, p, quote);
  }

  /** A closing parenthesis can only be the last character of such a literal. */
  lemma ParenthesisIsLast(text: string, l: Literal, head: nat, end: nat, i: nat, k: nat)
    requires QuotesPath(l, head, end) && OccursAt(text, l.src, i)
    requires i <= k < i + |l.src| && text[k] == ')'
    ensures k == i + |l.src| - 1
  {
    OccurringChars(text, l.src, i);
    assert l.src[k - i] == text[k];
  }

  lemma NothingAcrossCut(x: string, p: string, quote: char, y: string, l: Literal, head: nat, end: nat)
    requires QuotesPath(l, head, end) && IsCut(x, p, l) && IsQuote(quote)
    ensures NothingAcross(x + (p + [quote] + y), l, |x|)
  {
    var text := x + (p + [quote] + y);
    forall i | 0 <= i < |x| < i + |l.src|
      ensures !OccursAt(text, l.src, i)
    {
      if OccursAt(text, l.src, i) {
        if x[|x| - 1] == ')' {
          ParenthesisIsLast(text, l, head, end, i, |x| - 1);
        } else {
          AcrossIsPath(x, p, quote, y, l, head, end, i);
        }
      }
    }
  }

  /** Where an occurrence may start in a quoted path: so that its own quote is the closing one. */
  lemma OccurrenceInQuoted(p: string, quote: char, y: string, l: Literal, head: nat, end: nat, i: nat)
    requires QuotesPath(l, head, end) && IsQuotable(p) && IsQuote(quote)
    requires i <= |p| && OccursAt(p + [quote] + y, l.src, i)
    ensures i + head == |p| && l.src[head] == quote && p[i..] == l.src[..head]
  {
    var text := p + [quote] + y;
    OccurringChars(text, l.src, i);
    assert text[|p|] == quote;
    assert text[i + head] == l.src[head];
    assert |p| - i < |l.src| ==> text[|p|] == l.src[|p| - i];
    assert i + head == |p|;
    assert p[i..] == l.src[..head];
  }

  predicate EndsWith(s: string, part: string) {
    |part| <= |s| && s[|s| - |part|..] == part
  }

  /** What replaces it then puts the rest of the path and its quote back. */
  lemma HitInQuoted(p: string, quote: char, y: string, l: Literal, head: nat, end: nat, i: nat) returns (back: string)
    requires QuotesPath(l, head, end) && IsQuotable(p) && IsQuote(quote)
    requires i <= |p| && OccursAt(p + [quote] + y, l.src, i)
    ensures EndsWith(p, l.src[..head]) && l.dst == p[i..] + [quote] + back
  {
    OccurrenceInQuoted(p, quote, y, l, head, end, i);
    var start := l.src[..head + 1];
    assert start == l.src[..head] + [quote];
    assert l.dst == l.dst[..|start|] + l.dst[|start|..];
    assert l.dst[..|start|] == start;
    back := l.dst[|start|..];
  }

  /** The first occurrence ends in the closing quote, and what replaces it puts the path and the quote back. */
  lemma SwapQuotedHit(text: string, p: string, quote: char, y: string, l: Literal, head: nat, end: nat, first: nat)
    returns (tail: string)
    requires text == p + [quote] + y && QuotesPath(l, head, end) && IsQuotable(p) && IsQuote(quote)
    requires first <= |p| && OccursAt(text, l.src, first)
    requires forall k :: 0 <= k < first ==> !OccurrencesOf(text, l.src)(k)
    ensures Swap(text, l) == p + [quote] + tail
    ensures EndsWith(p, l.src[..head])
  {
    var back := HitInQuoted(p, quote, y, l, head, end, first);
    var after := SwapToFirst(text, l, first);
    FrontOf(text, p, quote, y, first);
    PutBack(p, first, quote, back, after, l.dst);
    tail := back + after;
  }

  lemma SwapToFirst(text: string, l: Literal, first: nat) returns (after: string)
    requires l.src != "" && first < |text| && OccursAt(text, l.src, first)
    requires forall k :: 0 <= k < first ==> !OccurrencesOf(text, l.src)(k)
    ensures Swap(text, l) == text[..first] + (l.dst + after)
  {
    ScanToFirst(text, OccurrencesOf(text, l.src), |l.src|, l.dst, first);
    after := Scan(text, OccurrencesOf(text, l.src), |l.src|, l.dst, first + |l.src|);
  }

  lemma FrontOf(text: string, p: string, quote: char, y: string, first: nat)
    requires text == p + [quote] + y && first <= |p|
    ensures text[..first] == p[..first]
  {
  }

  lemma PutBack(p: string, first: nat, quote: char, back: string, after: string, dst: string)
    requires first <= |p| && dst == p[first..] + [quote] + back
    ensures p[..first] + (dst + after) == p + [quote] + (back + after)
  {
    assert p == p[..first] + p[first..];
  }

  lemma SwapQuotedMiss(text: string, p: string, quote: char, y: string, l: Literal)
    requires text == p + [quote] + y && l.src != ""
    requires forall k :: 0 <= k < |p| + 1 ==> !OccurrencesOf(text, l.src)(k)
    ensures Swap(text, l) == p + [quote] + Swap(y, l)
  {
    var n := |p| + 1;
    ScanCopies(text, OccurrencesOf(text, l.src), |l.src|, l.dst, 0, n);
    SwapBehind(text, p + [quote], y, l);
    assert text[0..n] == p + [quote];
  }

  lemma SwapQuoted(text: string, p: string, quote: char, y: string, l: Literal, head: nat, end: nat)
    returns (tail: string)
    requires text == p + [quote] + y && QuotesPath(l, head, end) && IsQuotable(p) && IsQuote(quote)
    ensures Swap(text, l) == p + [quote] + tail
    ensures !EndsWith(p, l.src[..head]) ==> tail == Swap(y, l)
  {
    var first := FirstHit(OccurrencesOf(text, l.src), 0, |p| + 1);
    if first <= |p| {
      tail := SwapQuotedHit(text, p, quote, y, l, head, end, first);
    } else {
      tail := Swap(y, l);
      SwapQuotedMiss(text, p, quote, y, l);
    }
  }

  /** The path is not what such a literal has before its first quote. */
  ghost predicate DoesNotLeadTo(p: string, l: Literal) {
    forall head: nat, end: nat :: QuotesPath(l, head, end) ==> !EndsWith(p, l.src[..head])
  }

  /** A quoted path survives, at the place its quote is moved to, and so does the last character before it. */
  lemma SwapKeepsQuoted(x: string, p: string, quote: char, y: string, l: Literal) returns (tail: string)
    requires l.src != "" && IsPathLiteral(l) && IsCut(x, p, l) && IsQuote(quote)
    ensures Swap(x + (p + [quote] + y), l) == Swap(x, l) + (p + [quote] + tail)
    ensures Swap(x, l) != "" && Swap(x, l)[|Swap(x, l)| - 1] == x[|x| - 1]
    ensures DoesNotLeadTo(p, l) ==> tail == Swap(y, l)
  {
    var head: nat, end: nat :| QuotesPath(l, head, end);
    NothingAcrossCut(x, p, quote, y, l, head, end);
    SwapSplits(x, p + [quote] + y, l);
    tail := SwapQuoted(p + [quote] + y, p, quote, y, l, head, end);
    SwapKeepsLast(x, l);
  }

  /** A quoted path after `before` is replaced by another. */
  function PathLiteral(before: string, quote: char, path: string, other: string, after: string): Literal {
    Literal(before + [quote] + path + [quote] + after, before + [quote] + other + [quote] + after)
  }

  /** Neither quoted nor closed. */
  ghost predicate IsPlain(s: string) {
    s != "" && forall i :: 0 <= i < |s| ==> !IsQuote(s[i]) && s[i] != ')'
  }

  lemma PathLiteralQuotesPath(before: string, quote: char, path: string, other: string, after: string)
    requires IsPlain(before) && IsPlain(path) && path[0] == '/' && IsQuote(quote)
    requires after == "" || after == ")"
    ensures
      var l, head := PathLiteral(before, quote, path, other, after), |before|;
      && QuotesPath(l, head, head + 1 + |path|)
      && l.src[..head] == before && l.src[head + 1..head + 1 + |path|] == path
  {
    var l, head, end := PathLiteral(before, quote, path, other, after), |before|, |before| + 1 + |path|;
    assert l.src[head] == quote && l.src[end] == quote && l.src[head + 1] == path[0];
    forall i | 0 <= i < |l.src|
      ensures IsQuote(l.src[i]) <==> i == head || i == end
      ensures l.src[i] == ')' <==> i == end + 1
    {
      assert i < head ==> l.src[i] == before[i];
      assert head < i < end ==> l.src[i] == path[i - head - 1];
      assert i > end ==> after == ")" && i == end + 1 && l.src[i] == after[0];
    }
  }

  function SwapAll(text: string, literals: seq<Literal>): string
    requires forall i :: 0 <= i < |literals| ==> literals[i].src != ""
    decreases |literals|
  {
    if literals == [] then text else SwapAll(Swap(text, literals[0]), literals[1..])
  }

  lemma {:induction false} SwapAllKeepsQuoted(x: string, p: string, quote: char, y: string, literals: seq<Literal>)
    returns (tail: string)
    requires forall i :: 0 <= i < |literals| ==> literals[i].src != "" && IsPathLiteral(literals[i])
    requires IsQuote(quote) && forall i :: 0 <= i < |literals| ==> IsCut(x, p, literals[i])
    ensures SwapAll(x + (p + [quote] + y), literals) == SwapAll(x, literals) + (p + [quote] + tail)
    ensures (forall i :: 0 <= i < |literals| ==> DoesNotLeadTo(p, literals[i])) ==> tail == SwapAll(y, literals)
    decreases |literals|
  {
    if literals == [] {
      tail := y;
    } else {
      var l, rest := literals[0], literals[1..];
      assert IsCut(x, p, l);
      var z := SwapKeepsQuoted(x, p, quote, y, l);
      forall i | 0 <= i < |rest|
        ensures IsCut(Swap(x, l), p, rest[i]) && rest[i] == literals[i + 1]
      {
        assert IsCut(x, p, literals[i + 1]);
      }
      tail := SwapAllKeepsQuoted(Swap(x, l), p, quote, z, rest);
      if forall i :: 0 <= i < |literals| ==> DoesNotLeadTo(p, literals[i]) {
        assert DoesNotLeadTo(p, literals[0]);
      }
    }
  }
}
