/**
 * The paths the test files name, and where the verifier looks for them
 * (benchmark/skillsbench-collab/src/rewrite.ts:82-94, benchmark/skillsbench-collab/src/verify.ts:96-101).
 */
module ExpectedPaths {
  import opened Sequences
  import opened Sorting
  import opened Text
  import opened PathRules
  import opened Literals
  import opened TestRules
  import opened TestRewrite

  /** The first quote at or after `i`, or the end. */
  function NextQuote(text: string, i: nat): (j: nat)
    requires i <= |text|
    ensures i <= j <= |text|
    ensures forall k :: i <= k < j ==> !IsQuote(text[k])
    ensures j < |text| ==> IsQuote(text[j])
    decreases |text| - i
  {
    if i == |text| || IsQuote(text[i]) then i else NextQuote(text, i + 1)
  }

  const ROOTS := ["/root/", "/app/"]

  /** The root that follows a quote, if one does. */
  function RootAt(text: string, roots: seq<string>, i: nat): (root: string)
    ensures root == "" || (root in roots && OccursAt(text, root, i))
  {
    if roots == [] then ""
    else if OccursAt(text, roots[0], i) then roots[0]
    else RootAt(text, roots[1..], i)
  }

  /** The end of a quoted rooted path that starts at `i`, or `i` when there is none. */
  function QuotedEnd(text: string, i: nat): (j: nat)
    ensures i == j || i + 1 < j < |text|
  {
    if i >= |text| || !IsQuote(text[i]) || RootAt(text, ROOTS, i + 1) == "" then i
    else
      var start := i + 1 + |RootAt(text, ROOTS, i + 1)|;
      var j := NextQuote(text, start);
      if j == start || j == |text| then i else j
  }

  /** Where a match that starts at a position ends; at the position itself when there is none. */
  type Matcher = nat -> nat

  ghost predicate IsMatcher(text: string, end: Matcher) {
    forall i: nat :: end(i) == i || i + 1 < end(i) < |text|
  }

  /** What every match has between its first and last character; the search goes on behind it. */
  function MatchAll(text: string, end: Matcher, i: nat): seq<string>
    requires IsMatcher(text, end)
    decreases |text| - i
  {
    if i >= |text| then []
    else if end(i) == i then MatchAll(text, end, i + 1)
    else [text[i + 1..end(i)]] + MatchAll(text, end, end(i) + 1)
  }

  function QuotedMatcher(text: string): (end: Matcher)
    ensures IsMatcher(text, end)
    ensures forall i: nat :: end(i) == QuotedEnd(text, i)
  {
    (i: nat) => QuotedEnd(text, i)
  }

  function QuotedPaths(text: string): seq<string> {
    MatchAll(text, QuotedMatcher(text), 0)
  }

  /** A directory is not looked up. */
  predicate IsFilePath(path: string) {
    path != "" && path[|path| - 1] != '/'
  }

  predicate IsExpected(contents: seq<string>, path: string) {
    IsFilePath(path) && exists i :: 0 <= i < |contents| && path in QuotedPaths(contents[i])
  }

  /** Adds the matches of one file to the set. */
  method AddMatches(expected: seq<string>, matches: seq<string>) returns (larger: seq<string>)
    requires IsDistinct(expected)
    ensures IsDistinct(larger)
    ensures forall path :: path in larger <==> path in expected || (path in matches && IsFilePath(path))
  {
    larger := expected;
    for n := 0 to |matches|
      invariant IsDistinct(larger)
      invariant forall path :: path in larger <==> path in expected || (path in matches[..n] && IsFilePath(path))
    {
      if IsFilePath(matches[n]) && matches[n] !in larger {
        larger := larger + [matches[n]];
      }
    }
  }

  method CollectExpectedPaths(contents: seq<string>) returns (paths: seq<string>)
    ensures IsSorted(StringLe, paths) && IsDistinct(paths)
    ensures forall path :: path in paths <==> IsExpected(contents, path)
  {
    var expected: seq<string> := [];  // a `Set`, in insertion order
    for i := 0 to |contents|
      invariant IsDistinct(expected)
      invariant forall path :: path in expected <==> IsExpected(contents[..i], path)
    {
      expected := AddMatches(expected, QuotedPaths(contents[i]));
      OneMoreContent(contents, i);
    }
    assert contents[..|contents|] == contents;
    paths := StableSort(StringLe, expected);
    SortPermutes(StringLe, expected);
    SortKeepsElements(StringLe, expected);
    PermutationIsDistinct(expected, paths);
    StringLeIsTotalPreorder();
    SortSorts(StringLe, expected);
  }

  lemma OneMoreContent(contents: seq<string>, i: nat)
    requires i < |contents|
    ensures forall path :: IsExpected(contents[..i + 1], path) <==>
              IsExpected(contents[..i], path)
              || (path in QuotedPaths(contents[i]) && IsFilePath(path))
  {
    assert contents[..i + 1] == contents[..i] + [contents[i]];
    forall k | 0 <= k < i
      ensures contents[..i + 1][k] == contents[..i][k]
    {
    }
  }

  /** The path without its root, which the verifier looks for below the work root. */
  function Relative(full: string): string {
    if StartsWith(full, "/root/") then full[|"/root/"|..]
    else if StartsWith(full, "/app/") then full[|"/app/"|..]
    else full
  }

  /** Where in a text a quoted rooted path was found. */
  ghost predicate IsQuotedIn(text: string, pre: string, open: char, root: string, p: string, close: char, post: string) {
    && text == pre + [open] + (root + p + [close] + post)
    && IsQuote(open) && IsQuote(close)
    && (root == "/root/" || root == "/app/")
  }

  lemma {:induction false} MatchesAreFound(text: string, end: Matcher, i: nat, found: string) returns (k: nat)
    requires IsMatcher(text, end) && found in MatchAll(text, end, i)
    ensures k < |text| && end(k) != k && found == text[k + 1..end(k)]
    decreases |text| - i
  {
    if end(i) == i {
      k := MatchesAreFound(text, end, i + 1, found);
    } else if found == text[i + 1..end(i)] {
      k := i;
    } else {
      k := MatchesAreFound(text, end, end(i) + 1, found);
    }
  }

  lemma RelativeIsRest(root: string, p: string)
    requires root == "/root/" || root == "/app/"
    ensures Relative(root + p) == p
  {
    var full := root + p;
    assert full[..|root|] == root && full[|root|..] == p;
    assert root == "/app/" ==> full[1] == 'a' && "/root/"[1] == 'r';
    assert forall k :: 0 <= k < |root| ==> full[k] == root[k];
  }

  lemma CutAtQuotes(text: string, i: nat, j: nat, root: string) returns (p: string)
    requires i + 1 + |root| <= j < |text| && OccursAt(text, root, i + 1)
    ensures text == text[..i] + [text[i]] + (root + p + [text[j]] + text[j + 1..])
    ensures text[i + 1..j] == root + p
  {
    p := text[i + 1 + |root|..j];
    assert text[i + 1..i + 1 + |root|] == root;
  }

  lemma RootedPathIsQuoted(text: string, i: nat, j: nat, root: string)
    requires root == "/root/" || root == "/app/"
    requires i + 1 + |root| <= j < |text| && OccursAt(text, root, i + 1)
    requires IsQuote(text[i]) && IsQuote(text[j])
    ensures IsQuotedIn(text, text[..i], text[i], root, Relative(text[i + 1..j]), text[j], text[j + 1..])
  {
    var p := CutAtQuotes(text, i, j, root);
    RelativeIsRest(root, p);
  }

  lemma QuotedEndIsQuoted(text: string, i: nat)
    requires i < |text| && QuotedEnd(text, i) != i
    ensures
      var j, root := QuotedEnd(text, i), RootAt(text, ROOTS, i + 1);
      && (root == "/root/" || root == "/app/")
      && i + 1 + |root| <= j < |text| && OccursAt(text, root, i + 1)
      && IsQuote(text[i]) && IsQuote(text[j])
  {
  }

  /** The root a collected path was found with. */
  function RootOf(full: string): string {
    if StartsWith(full, "/root/") then "/root/" else "/app/"
  }

  lemma ExpectedIsQuoted(contents: seq<string>, full: string)
    returns (text: string, pre: string, open: char, close: char, post: string)
    requires IsExpected(contents, full)
    ensures text in contents && IsQuotedIn(text, pre, open, RootOf(full), Relative(full), close, post)
  {
    var i :| 0 <= i < |contents| && full in QuotedPaths(contents[i]);
    text := contents[i];
    var k := MatchesAreFound(text, QuotedMatcher(text), 0, full);
    var j, root := QuotedEnd(text, k), RootAt(text, ROOTS, k + 1);
    pre, open, close, post := text[..k], text[k], text[j], text[j + 1..];
    QuotedEndIsQuoted(text, k);
    RootedPathIsQuoted(text, k, j, root);
    var p := CutAtQuotes(text, k, j, root);
    RootIsRootOf(root, p);
  }

  /** Where the rest of a path comes through, the text names it, and what surrounds it is rewritten on its own. */
  ghost predicate IsRewrittenAround(
    text: string, pre: string, open: char, p: string, close: char, post: string, tail: string, testsDir: string, workDir: string)
  {
    && Rewritten(text, testsDir, workDir) ==
       Rewritten(pre + [open] + ClosingOf(p), testsDir, workDir) + (p[|ClosingOf(p)|..] + [close] + tail)
    && (!EndsWith(p, CWD) && !EndsWith(p, INSERT) ==> tail == Rewritten(post, testsDir, workDir))
  }

  /**
   * For every expected path whose relative part comes through, the rewritten test file names exactly
   * the relative path the verifier looks up, at the place where the original named the rooted one.
   */
  lemma ExpectedPathsAreRewritten(contents: seq<string>, full: string, testsDir: string, workDir: string)
    returns (text: string, pre: string, open: char, close: char, post: string, tail: string)
    requires IsExpected(contents, full) && ComesThrough(RootOf(full), Relative(full), testsDir)
    ensures text in contents && IsQuotedIn(text, pre, open, RootOf(full), Relative(full), close, post)
    ensures IsRewrittenAround(text, pre, open, Relative(full), close, post, tail, testsDir, workDir)
  {
    text, pre, open, close, post := ExpectedIsQuoted(contents, full);
    tail := QuotedPathBecomesRelative(pre, open, RootOf(full), Relative(full), close, post, testsDir, workDir);
  }

  lemma RootIsRootOf(root: string, p: string)
    requires root == "/root/" || root == "/app/"
    ensures RootOf(root + p) == root
  {
    var full := root + p;
    assert root == "/app/" ==> full[1] == root[1] == 'a' && "/root/"[1] == 'r';
    assert forall k :: 0 <= k < |root| ==> full[0 + k] == root[k];
  }
}
