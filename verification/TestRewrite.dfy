/**
 * What the passes make of a quoted path below `/root/` or `/app/`
 * (benchmark/skillsbench-collab/src/rewrite.ts:39-80).
 */
module TestRewrite {
  import opened Text
  import opened Scans
  import opened PathRules
  import opened Words
  import opened Literals
  import opened TestRules
  import opened WordForms
  import opened QuotedContents

  /* Texts that no rule applies to. */

  /** No rule applies anywhere in it, in its place. */
  ghost predicate IsUntouchedIn(text: string, rules: seq<Rule>, left: bool, right: bool) {
    forall i, k :: 0 <= i < |rules| ==> !MatchesIn(text, rules[i], k, left, right)
  }

  lemma {:induction false} UntouchedIsKept(text: string, rules: seq<Rule>, left: bool, right: bool)
    requires ArePathRules(rules) && IsUntouchedIn(text, rules, left, right)
    ensures ReplaceAllIn(text, rules, left, right) == text
    decreases |rules|
  {
    if rules != [] {
      UntouchedByOne(text, rules[0], left, right);
      assert ArePathRules(rules[1..]);
      forall i, k | 0 <= i < |rules[1..]|
        ensures !MatchesIn(text, rules[1..][i], k, left, right)
      {
        assert rules[1..][i] == rules[i + 1];
      }
      UntouchedIsKept(text, rules[1..], left, right);
    }
  }

  lemma UntouchedByOne(text: string, rule: Rule, left: bool, right: bool)
    requires rule.src != "" && forall k :: !MatchesIn(text, rule, k, left, right)
    ensures ReplaceIn(text, rule, left, right) == text
  {
    ScanCopies(text, HitsIn(text, rule, left, right), |rule.src|, rule.dst, 0, |text|);
    assert text[0..|text|] == text && text + "" == text;
  }

  /* The rest of a rooted path. */

  /**
   * What the passes leave at the start of such a rest: after `/root/` they take one `/app/`, and then
   * they dot or move what is below a directory they know.
   */
  predicate KeepsStart(root: string, p: string) {
    && !(root == "/root/" && StartsWith(p, "/app/"))
    && !IsWorkPath(p)
    && !StartsWith(p, "/tests/")
  }

  /** No rule applies to it but at its start. */
  ghost predicate IsUntouchedBehindStart(p: string, rules: seq<Rule>) {
    forall i, k :: 0 <= i < |rules| && 0 < k ==> !MatchesIn(p, rules[i], k, true, true)
  }

  predicate IsRelative(p: string) {
    p == "" || p[0] != '/'
  }

  /** A rest that is relative keeps its start. */
  lemma RelativeKeepsStart(root: string, p: string)
    requires IsRelative(p)
    ensures KeepsStart(root, p)
  {
    StartsWithSlashOnly(p, "/app/");
    StartsWithSlashOnly(p, "/workspace/");
    StartsWithSlashOnly(p, "/output/");
    StartsWithSlashOnly(p, "/data/");
    StartsWithSlashOnly(p, "/logs/");
    StartsWithSlashOnly(p, "/tests/");
  }

  /** A path that starts a text starts its first word. */
  lemma StartsFirstWord(word: string, tail: string, part: string)
    requires IsUndelimited(part) && (tail == "" || IsDelimiter(tail[0]))
    ensures StartsWith(word + tail, part) <==> StartsWith(word, part)
  {
    if |part| <= |word| {
      OccursBefore(word, tail, part, 0);
    } else {
      assert tail != "" ==> (word + tail)[0 + |word|] == tail[0] && !IsDelimiter(part[|word|]);
    }
  }

  lemma FirstWordKeepsStart(root: string, word: string, tail: string)
    requires tail == "" || IsDelimiter(tail[0])
    ensures KeepsStart(root, word + tail) <==> KeepsStart(root, word)
  {
    PathsAreUndelimited();
    StartsFirstWord(word, tail, "/app/");
    StartsFirstWord(word, tail, "/workspace/");
    StartsFirstWord(word, tail, "/output/");
    StartsFirstWord(word, tail, "/data/");
    StartsFirstWord(word, tail, "/logs/");
    StartsFirstWord(word, tail, "/tests/");
  }

  lemma PathsAreUndelimited()
    ensures IsUndelimited("/root/") && IsUndelimited("/app/") && IsUndelimited("/tests/")
    ensures IsUndelimited("/workspace/") && IsUndelimited("/output/") && IsUndelimited("/data/") && IsUndelimited("/logs/")
  {
    LowerCaseIsUndelimited("/root/");
    LowerCaseIsUndelimited("/app/");
    LowerCaseIsUndelimited("/tests/");
    LowerCaseIsUndelimited("/workspace/");
    LowerCaseIsUndelimited("/output/");
    LowerCaseIsUndelimited("/data/");
    LowerCaseIsUndelimited("/logs/");
  }

  lemma RootedIsNoToken(root: string, w: string)
    requires root == "/root/" || root == "/app/"
    ensures !IsToken(root + w)
  {
    assert (root + w)[|root| - 1] == root[|root| - 1] == '/';
    if IsToken(root + w) {
      TokenSlashes(root + w);
    }
  }

  lemma RootIsStripped(root: string, w: string)
    requires root == "/root/" || root == "/app/"
    ensures WithoutRoots(root + w) == if root == "/root/" then Strip(w, "/app/") else w
  {
    var whole := root + w;
    assert forall k :: 0 <= k < |root| ==> whole[0 + k] == root[k];
    assert whole[|root|..] == w;
    if root == "/app/" {
      assert whole[1] == 'a' && "/root/"[1] == 'r';
    }
  }

  /** A word behind a root loses the root alone, when it keeps its start. */
  lemma RootedWordForm(root: string, w: string, testsDir: string, right: bool)
    requires root == "/root/" || root == "/app/"
    ensures WordForm(root + w, testsDir, true, right) == PrefixForm(root + w, testsDir)
    ensures KeepsStart(root, w) ==> PrefixForm(root + w, testsDir) == w
  {
    RootedIsNoToken(root, w);
    RootIsStripped(root, w);
  }

  /** Behind the first word a rule applies to the text where it applies to the rest in its place. */
  lemma MatchesInRest(word: string, d: char, rest: string, rule: Rule, k: int, left: bool, right: bool)
    requires IsUndelimited(word) && IsDelimiter(d) && IsPathRule(rule) && k > 0
    ensures MatchesIn(word + ([d] + rest), rule, k, left, right) <==>
              MatchesIn(rest, rule, k - |word| - 1, IsLeft(d), right)
  {
    assert (word + [d]) + rest == word + ([d] + rest) && (word + [d])[|word|] == d;
    if k <= |word| {
      MatchesAtStartOnly(word, [d] + rest, rule, k, left, right);
    } else {
      ShiftedMatch(word + [d], rest, rule, k - |word| - 1, left, right);
    }
  }

  lemma UntouchedRest(word: string, d: char, rest: string, rules: seq<Rule>)
    requires IsUndelimited(word) && IsDelimiter(d) && ArePathRules(rules)
    ensures IsUntouchedBehindStart(word + ([d] + rest), rules) <==> IsUntouchedIn(rest, rules, IsLeft(d), true)
  {
    var text := word + ([d] + rest);
    forall i, k: int | 0 <= i < |rules| && 0 < k
      ensures MatchesIn(text, rules[i], k, true, true) <==> MatchesIn(rest, rules[i], k - |word| - 1, IsLeft(d), true)
    {
      MatchesInRest(word, d, rest, rules[i], k, true, true);
    }
    if IsUntouchedBehindStart(text, rules) {
      forall i, k: int | 0 <= i < |rules|
        ensures !MatchesIn(rest, rules[i], k, IsLeft(d), true)
      {
        if k >= 0 {
          assert !MatchesIn(text, rules[i], k + |word| + 1, true, true);
        }
      }
    }
  }

  lemma RestIsRewrittenAlone(root: string, word: string, d: char, rest: string, testsDir: string)
    requires root == "/root/" || root == "/app/"
    requires IsUndelimited(word) && IsDelimiter(d)
    ensures ArePathRules(AllRules(testsDir))
    ensures ReplaceAll(root + (word + ([d] + rest)), AllRules(testsDir)) ==
            PrefixForm(root + word, testsDir) + ([d] + ReplaceAllIn(rest, AllRules(testsDir), IsLeft(d), true))
  {
    PathsAreUndelimited();
    AppendIsAssociative(root, word, [d] + rest);
    PassesRewriteWords(root + (word + ([d] + rest)), testsDir, true, true);
    PassesRewriteWords(rest, testsDir, IsLeft(d), true);
    RewriteByFirstWord(root + word, d, rest, true, true, FormOf(testsDir));
    RootedWordForm(root, word, testsDir, IsRight(d));
  }

  lemma RootedWordIsRewritten(root: string, w: string, testsDir: string)
    requires root == "/root/" || root == "/app/"
    requires IsUndelimited(w)
    ensures ArePathRules(AllRules(testsDir))
    ensures ReplaceAll(root + w, AllRules(testsDir)) == PrefixForm(root + w, testsDir)
  {
    PathsAreUndelimited();
    PassesRewriteWords(root + w, testsDir, true, true);
    RewriteByWord(root + w, true, true, FormOf(testsDir));
    RootedWordForm(root, w, testsDir, true);
  }

  /** A rooted path loses its root and nothing else, when its rest keeps its start and is untouched behind it. */
  lemma RootIsTaken(root: string, p: string, testsDir: string)
    requires root == "/root/" || root == "/app/"
    requires KeepsStart(root, p) && IsUntouchedBehindStart(p, AllRules(testsDir))
    ensures ArePathRules(AllRules(testsDir)) && ReplaceAll(root + p, AllRules(testsDir)) == p
  {
    AllRulesArePathRules(testsDir);
    if IsUndelimited(p) {
      RootedWordIsRewritten(root, p, testsDir);
      RootedWordForm(root, p, testsDir, true);
    } else {
      var word, d, rest := CutDelimited(p);
      RestIsRewrittenAlone(root, word, d, rest, testsDir);
      FirstWordKeepsStart(root, word, [d] + rest);
      RootedWordForm(root, word, testsDir, true);
      UntouchedRest(word, d, rest, AllRules(testsDir));
      UntouchedIsKept(rest, AllRules(testsDir), IsLeft(d), true);
    }
  }

  /* A quoted path in a text. */

  /** What of the rest of a path comes through all passes and is then no path that a literal is for. */
  ghost predicate ComesThrough(root: string, p: string, testsDir: string) {
    && IsQuotable(p) && !IsLiteralPath(p)
    && KeepsStart(root, p) && IsUntouchedBehindStart(p, AllRules(testsDir))
  }

  /** A closing parenthesis that starts the rest may close a literal that ends in the opening quote. */
  function ClosingOf(p: string): string {
    if p != "" && p[0] == ')' then ")" else ""
  }

  lemma CutBehindClosing(x: string, p: string, testsDir: string, workDir: string)
    requires IsQuotable(p) && !IsLiteralPath(p) && x != "" && IsQuote(x[|x| - 1])
    ensures p == ClosingOf(p) + p[|ClosingOf(p)|..]
    ensures forall i :: 0 <= i < |TestLiterals(testsDir, workDir)| ==>
              IsCut(x + ClosingOf(p), p[|ClosingOf(p)|..], TestLiterals(testsDir, workDir)[i])
  {
    if ClosingOf(p) == "" {
      assert x + "" == x && p[0..] == p;
      OtherContentsAreCut(x, p, testsDir, workDir);
    } else {
      assert (x + ")")[|x|] == ')';
    }
  }

  /** The text before the rest, and what the passes make of all of it. */
  lemma PassesKeepQuoted(
    pre: string, open: char, root: string, p: string, close: char, post: string, testsDir: string)
    requires IsQuote(open) && IsQuote(close) && (root == "/root/" || root == "/app/")
    requires ComesThrough(root, p, testsDir)
    ensures ArePathRules(AllRules(testsDir))
    ensures ReplaceAll(pre + [open] + (root + p + [close] + post), AllRules(testsDir)) ==
            ReplaceAll(pre, AllRules(testsDir)) + [open] + (p + [close] + ReplaceAll(post, AllRules(testsDir)))
  {
    var rules := AllRules(testsDir);
    AllRulesArePathRules(testsDir);
    ReplaceAllSplitsAtQuote(pre, open, root + p + [close] + post, rules);
    ReplaceAllSplitsAtQuote(root + p, close, post, rules);
    RootIsTaken(root, p, testsDir);
  }

  lemma PassesKeepOpening(pre: string, open: char, p: string, testsDir: string)
    requires IsQuote(open)
    ensures ArePathRules(AllRules(testsDir))
    ensures ReplaceAll(pre + [open] + ClosingOf(p), AllRules(testsDir)) ==
            ReplaceAll(pre, AllRules(testsDir)) + [open] + ClosingOf(p)
  {
    var rules := AllRules(testsDir);
    AllRulesArePathRules(testsDir);
    ReplaceAllSplitsAtQuote(pre, open, ClosingOf(p), rules);
    forall i, k | 0 <= i < |rules|
      ensures !MatchesIn(ClosingOf(p), rules[i], k, true, true)
    {
      assert rules[i].src[0] == '/';
    }
    UntouchedIsKept(ClosingOf(p), rules, true, true);
  }

  lemma MoveClosing(x: string, closing: string, p: string, close: char, y: string)
    ensures x + ((closing + p) + [close] + y) == (x + closing) + (p + [close] + y)
  {
  }

  /**
   * A quoted path below `/root/` or `/app/` becomes exactly the path without its root, between the same
   * quotes, right behind what its text before it becomes. What follows is rewritten on its own, unless
   * the path ends like the start of a literal.
   */
  lemma QuotedPathBecomesRelative(
    pre: string, open: char, root: string, p: string, close: char, post: string, testsDir: string, workDir: string)
    returns (tail: string)
    requires IsQuote(open) && IsQuote(close) && (root == "/root/" || root == "/app/")
    requires ComesThrough(root, p, testsDir)
    ensures Rewritten(pre + [open] + (root + p + [close] + post), testsDir, workDir) ==
            Rewritten(pre + [open] + ClosingOf(p), testsDir, workDir) + (p[|ClosingOf(p)|..] + [close] + tail)
    ensures !EndsWith(p, CWD) && !EndsWith(p, INSERT) ==> tail == Rewritten(post, testsDir, workDir)
  {
    var rules, literals, closing := AllRules(testsDir), TestLiterals(testsDir, workDir), ClosingOf(p);
    var rest := p[|closing|..];
    PassesKeepQuoted(pre, open, root, p, close, post, testsDir);
    PassesKeepOpening(pre, open, p, testsDir);
    TestLiteralsArePathLiterals(testsDir, workDir);
    var x, y := ReplaceAll(pre, rules) + [open], ReplaceAll(post, rules);
    CutBehindClosing(x, p, testsDir, workDir);
    MoveClosing(x, closing, rest, close, y);
    tail := SwapAllKeepsQuoted(x + closing, rest, close, y, literals);
    if !EndsWith(p, CWD) && !EndsWith(p, INSERT) {
      EndOfRest(p, CWD);
      EndOfRest(p, INSERT);
      LeadsOnlyToConstants(rest, testsDir, workDir);
    }
  }

  lemma EndOfRest(p: string, part: string)
    ensures EndsWith(p[|ClosingOf(p)|..], part) ==> EndsWith(p, part)
  {
    var rest := p[|ClosingOf(p)|..];
    if EndsWith(rest, part) {
      assert p[|p| - |part|..] == rest[|rest| - |part|..];
    }
  }
}
