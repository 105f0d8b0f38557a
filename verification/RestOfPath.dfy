/**
 * Exactly which rests of a rooted path the passes leave alone
 * (benchmark/skillsbench-collab/src/rewrite.ts:39-65).
 */
module RestOfPath {
  import opened Text
  import opened Scans
  import opened PathRules
  import opened Words
  import opened TestRules
  import opened TestRewrite
  import opened WordForms
  import opened QuotedContents
  import opened LiteralReach

  /* A rule that applies to a word changes it. */

  lemma RelativeIsKept(w: string, testsDir: string)
    requires IsRelative(w)
    ensures PrefixForm(w, testsDir) == w
  {
    NoSlashNoStart(w, "/root/");
    NoSlashNoStart(w, "/app/");
    NoSlashNoStart(w, "/tests/");
    NoSlashNoStart(w, "/workspace/");
    NoSlashNoStart(w, "/output/");
    NoSlashNoStart(w, "/data/");
    NoSlashNoStart(w, "/logs/");
  }

  lemma NoSlashNoStart(w: string, part: string)
    requires IsRelative(w) && part != "" && part[0] == '/'
    ensures !StartsWith(w, part)
  {
  }

  lemma StrippedIsShorter(w: string)
    ensures WithoutRoots(w) == w || |WithoutRoots(w)| < |w|
    ensures StartsWith(w, "/root/") || StartsWith(w, "/app/") ==> |WithoutRoots(w)| < |w|
  {
  }

  lemma PrefixFormChanges(w: string, testsDir: string)
    requires IsRelative(testsDir)
    requires WithoutRoots(w) != w || IsWorkPath(w) || StartsWith(w, "/tests/")
    ensures PrefixForm(w, testsDir) != w
  {
    var u := WithoutRoots(w);
    StrippedIsShorter(w);
    if u == w {
      RuledStarts(w);
    } else {
      StrippedStarts(w);
    }
    if StartsWith(u, "/tests/") {
      assert u[0] == "/tests/"[0] && |u| >= 7;
      PutInChanges(testsDir, u[6..], w);
    }
  }

  lemma RuledStarts(w: string)
    ensures IsWorkPath(w) || StartsWith(w, "/tests/") ==> w != "" && w[0] == '/' && w[0] != ("." + w)[0]
  {
    assert "/workspace/"[0] == '/' && "/output/"[0] == '/' && "/data/"[0] == '/' && "/logs/"[0] == '/' && "/tests/"[0] == '/';
  }

  lemma StrippedStarts(w: string)
    requires WithoutRoots(w) != w
    ensures w != "" && w[0] == '/'
  {
    assert "/root/"[0] == '/' && "/app/"[0] == '/';
  }

  lemma PutInChanges(testsDir: string, tail: string, w: string)
    requires IsRelative(testsDir) && w != "" && w[0] == '/' && |tail| < |w|
    ensures testsDir + tail != w
  {
    assert testsDir != "" ==> (testsDir + tail)[0] == testsDir[0];
  }

  lemma TokenFormChanges(w: string, testsDir: string)
    requires IsToken(w) && IsRelative(testsDir)
    ensures PrefixForm(TokenForm(w, testsDir), testsDir) != w
  {
    TokenSlashes(w);
    assert IsRelative(TokenForm(w, testsDir));
    RelativeIsKept(TokenForm(w, testsDir), testsDir);
  }

  /** A tests directory put in for a token is another word, or several. */
  lemma TokenChanges(w: string, testsDir: string)
    requires IsToken(w) && IsRelative(testsDir)
    ensures WordForm(w, testsDir, true, true) != w
  {
    TokenFormChanges(w, testsDir);
    if w == "/tests" && IsUndelimited(testsDir) {
      RewriteByWord(testsDir, true, true, PrefixFormOf(testsDir));
    } else if w == "/tests" {
      LowerCaseIsUndelimited(w);
      DelimitersStay(testsDir, true, true, PrefixFormOf(testsDir));
    }
  }

  lemma TokenSources(testsDir: string, i: nat)
    requires i < 7
    ensures IsToken(TokenRules(testsDir)[i].src) && TokenRules(testsDir)[i].wholeToken
  {
  }

  lemma PrefixSources(testsDir: string, i: nat, w: string)
    requires i < 7 && StartsWith(w, PrefixRules(testsDir)[i].src)
    ensures WithoutRoots(w) != w || IsWorkPath(w) || StartsWith(w, "/tests/")
    ensures !IsToken(w)
  {
    StrippedIsShorter(w);
    var src := PrefixRules(testsDir)[i].src;
    assert src[|src| - 1] == '/' && |src| >= 5;
    assert w[0 + (|src| - 1)] == src[|src| - 1];
    if IsToken(w) {
      TokenSlashes(w);
    }
  }

  lemma AppliedChanges(w: string, testsDir: string, i: nat, right: bool)
    requires IsRelative(testsDir) && i < |AllRules(testsDir)|
    requires StartsWith(w, AllRules(testsDir)[i].src)
    requires AllRules(testsDir)[i].wholeToken ==> w == AllRules(testsDir)[i].src && right
    ensures WordForm(w, testsDir, true, right) != w
  {
    if i < 7 {
      TokenSources(testsDir, i);
      TokenChanges(w, testsDir);
    } else {
      assert AllRules(testsDir)[i] == PrefixRules(testsDir)[i - 7];
      PrefixSources(testsDir, i - 7, w);
      PrefixFormChanges(w, testsDir);
    }
  }

  /** Wherever the rule applies to a word, the rewriting does not leave the word as it was. */
  ghost predicate ChangesWords(rule: Rule, f: Form) {
    forall w, right :: StartsWith(w, rule.src) && (rule.wholeToken ==> w == rule.src && right) ==> f(w, true, right) != w
  }

  lemma EveryRuleChangesWords(testsDir: string, i: nat)
    requires IsRelative(testsDir) && i < |AllRules(testsDir)|
    ensures ChangesWords(AllRules(testsDir)[i], FormOf(testsDir)) && IsPathRule(AllRules(testsDir)[i])
  {
    var rule := AllRules(testsDir)[i];
    AllRulesArePathRules(testsDir);
    forall w, right | StartsWith(w, rule.src) && (rule.wholeToken ==> w == rule.src && right)
      ensures FormOf(testsDir)(w, true, right) != w
    {
      AppliedChanges(w, testsDir, i, right);
    }
  }

  /* A text that is kept is kept word by word. */

  function Delimiters(s: string): nat {
    if s == "" then 0 else (if IsDelimiter(s[0]) then 1 else 0) + Delimiters(s[1..])
  }

  lemma {:induction false} DelimitersAdd(a: string, b: string)
    ensures Delimiters(a + b) == Delimiters(a) + Delimiters(b)
  {
    if a == "" {
      assert a + b == b;
    } else {
      assert (a + b)[1..] == a[1..] + b;
      DelimitersAdd(a[1..], b);
    }
  }

  lemma {:induction false} NoDelimiters(s: string)
    ensures Delimiters(s) == 0 <==> IsUndelimited(s)
  {
    if s != "" {
      NoDelimiters(s[1..]);
      assert s == [s[0]] + s[1..];
    }
  }

  /** How many a word, a delimiter and a rest have. */
  lemma DelimitersOf(form: string, d: char, tail: string)
    requires IsDelimiter(d)
    ensures Delimiters(form + ([d] + tail)) == Delimiters(form) + 1 + Delimiters(tail)
  {
    DelimitersAdd(form, [d] + tail);
    assert ([d] + tail)[1..] == tail;
  }

  /** A rewriting may put delimiters in, but takes none away. */
  lemma {:induction false} DelimitersGrow(text: string, left: bool, right: bool, f: Form)
    ensures Delimiters(RewriteBy(text, left, right, f)) >= Delimiters(text)
    decreases |text|
  {
    if IsUndelimited(text) {
      NoDelimiters(text);
    } else {
      var word, d, rest := CutDelimited(text);
      RewriteByFirstWord(word, d, rest, left, right, f);
      DelimitersGrow(rest, IsLeft(d), right, f);
      NoDelimiters(word);
      DelimitersOf(word, d, rest);
      DelimitersOf(f(word, left, IsRight(d)), d, RewriteBy(rest, IsLeft(d), right, f));
    }
  }

  /** So in a text that is kept none was put in, and each word was kept. */
  lemma KeptFirstWord(form: string, tail: string, word: string, d: char, rest: string)
    requires IsUndelimited(word) && IsDelimiter(d) && Delimiters(tail) >= Delimiters(rest)
    requires form + ([d] + tail) == word + ([d] + rest)
    ensures form == word && tail == rest
  {
    DelimitersOf(form, d, tail);
    DelimitersOf(word, d, rest);
    NoDelimiters(word);
    NoDelimiters(form);
    CutAgain(form, d, tail, word, d, rest);
    if |word| > |form| {
      NotInWord(word, form, d, word[|form| + 1..]);
    }
  }

  /** In a kept text a match would be in the rest, which is kept as well. */
  lemma MatchIsBehindKeptWord(
    text: string, word: string, d: char, rest: string, left: bool, right: bool, f: Form, rule: Rule, k: nat)
    requires IsPathRule(rule) && ChangesWords(rule, f)
    requires IsUndelimited(word) && IsDelimiter(d) && text == word + ([d] + rest)
    requires RewriteBy(text, left, right, f) == text && MatchesIn(text, rule, k, left, right)
    ensures k > |word| && MatchesIn(rest, rule, k - |word| - 1, IsLeft(d), right)
    ensures RewriteBy(rest, IsLeft(d), right, f) == rest
  {
    RewriteByFirstWord(word, d, rest, left, right, f);
    DelimitersGrow(rest, IsLeft(d), right, f);
    KeptFirstWord(f(word, left, IsRight(d)), RewriteBy(rest, IsLeft(d), right, f), word, d, rest);
    if k == 0 {
      MatchesInFirstWord(word, [d] + rest, rule, left, right);
    } else {
      MatchesInRest(word, d, rest, rule, k, left, right);
    }
  }

  /** What holds of words, and of a word, a delimiter and a text of which it holds, holds of every text. */
  lemma {:induction false} ByWords(P: (string, bool) -> bool, text: string, left: bool)
    requires forall word, l :: IsUndelimited(word) ==> P(word, l)
    requires forall word, d, rest, l :: IsUndelimited(word) && IsDelimiter(d) && P(rest, IsLeft(d)) ==> P(word + ([d] + rest), l)
    ensures P(text, left)
    decreases |text|
  {
    if !IsUndelimited(text) {
      var word, d, rest := CutDelimited(text);
      ByWords(P, rest, IsLeft(d));
    }
  }

  ghost predicate IsUntouchedIfKept(text: string, left: bool, right: bool, f: Form, rule: Rule) {
    RewriteBy(text, left, right, f) == text ==> forall k :: !MatchesIn(text, rule, k, left, right)
  }

  lemma KeptIsUntouched(text: string, left: bool, right: bool, f: Form, rule: Rule)
    requires IsPathRule(rule) && ChangesWords(rule, f)
    ensures IsUntouchedIfKept(text, left, right, f, rule)
  {
    var P := (t, l) => IsUntouchedIfKept(t, l, right, f, rule);
    forall word, l | IsUndelimited(word)
      ensures P(word, l)
    {
      WordIsUntouchedIfKept(word, l, right, f, rule);
    }
    forall word, d, rest, l | IsUndelimited(word) && IsDelimiter(d) && P(rest, IsLeft(d))
      ensures P(word + ([d] + rest), l)
    {
      TextIsUntouchedIfKept(word + ([d] + rest), word, d, rest, l, right, f, rule);
    }
    ByWords(P, text, left);
  }

  lemma TextIsUntouchedIfKept(
    text: string, word: string, d: char, rest: string, left: bool, right: bool, f: Form, rule: Rule)
    requires IsPathRule(rule) && ChangesWords(rule, f)
    requires IsUndelimited(word) && IsDelimiter(d) && text == word + ([d] + rest)
    requires IsUntouchedIfKept(rest, IsLeft(d), right, f, rule)
    ensures IsUntouchedIfKept(text, left, right, f, rule)
  {
    if RewriteBy(text, left, right, f) == text {
      forall k
        ensures !MatchesIn(text, rule, k, left, right)
      {
        if k >= 0 && MatchesIn(text, rule, k, left, right) {
          MatchIsBehindKeptWord(text, word, d, rest, left, right, f, rule, k);
        }
      }
    }
  }

  lemma WordIsUntouchedIfKept(word: string, left: bool, right: bool, f: Form, rule: Rule)
    requires IsUndelimited(word) && IsPathRule(rule) && ChangesWords(rule, f)
    ensures IsUntouchedIfKept(word, left, right, f, rule)
  {
    if RewriteBy(word, left, right, f) == word {
      forall k
        ensures !MatchesIn(word, rule, k, left, right)
      {
        if k >= 0 {
          KeptWordIsUntouched(word, left, right, f, rule, k);
        }
      }
    }
  }

  lemma KeptWordIsUntouched(word: string, left: bool, right: bool, f: Form, rule: Rule, k: nat)
    requires IsUndelimited(word) && IsPathRule(rule) && ChangesWords(rule, f)
    requires RewriteBy(word, left, right, f) == word
    ensures !MatchesIn(word, rule, k, left, right)
  {
    RewriteByWord(word, left, right, f);
    assert word + "" == word;
    assert 0 < k <= |word| ==> !IsDelimiter(word[k - 1]);
    if k == 0 && MatchesIn(word, rule, 0, left, right) {
      MatchesInFirstWord(word, "", rule, left, right);
    }
  }

  /* The rest of a path. */

  lemma WordIsKeptExactly(root: string, w: string, testsDir: string, right: bool)
    requires root == "/root/" || root == "/app/"
    requires IsRelative(testsDir)
    ensures PrefixForm(root + w, testsDir) == w <==> KeepsStart(root, w)
  {
    RootedWordForm(root, w, testsDir, right);
    RootIsStripped(root, w);
    if !KeepsStart(root, w) {
      RootedWordChanges(root, w, testsDir);
    }
  }

  lemma RootedWordChanges(root: string, w: string, testsDir: string)
    requires root == "/root/" || root == "/app/"
    requires IsRelative(testsDir) && !KeepsStart(root, w)
    ensures PrefixForm(root + w, testsDir) != w
  {
    var u := WithoutRoots(root + w);
    RootIsStripped(root, w);
    if StartsWith(u, "/tests/") {
      assert u[0] == "/tests/"[0] && |u| >= 7;
      assert w != "" && w[0] == '/' by {
        StartOfRuled(root, w);
      }
      PutInChanges(testsDir, u[6..], w);
    } else if IsWorkPath(u) {
      StartOfRuled(root, w);
      assert ("." + u)[0] != w[0];
    }
  }

  lemma StartOfRuled(root: string, w: string)
    requires !KeepsStart(root, w)
    ensures w != "" && w[0] == '/'
  {
    assert "/app/"[0] == '/' && "/tests/"[0] == '/';
    assert "/workspace/"[0] == '/' && "/output/"[0] == '/' && "/data/"[0] == '/' && "/logs/"[0] == '/';
  }

  lemma KeptRestIsUntouched(rest: string, left: bool, testsDir: string)
    requires IsRelative(testsDir)
    requires RewriteWords(rest, testsDir, left, true) == rest
    ensures IsUntouchedIn(rest, AllRules(testsDir), left, true)
  {
    forall i, k | 0 <= i < |AllRules(testsDir)|
      ensures !MatchesIn(rest, AllRules(testsDir)[i], k, left, true)
    {
      EveryRuleChangesWords(testsDir, i);
      KeptIsUntouched(rest, left, true, FormOf(testsDir), AllRules(testsDir)[i]);
    }
  }

  /**
   * Of every rooted path the passes leave exactly what is behind the root if and only if that keeps its
   * start and no rule applies anywhere behind its start.
   */
  lemma RestIsKeptExactlyWhenUntouched(root: string, p: string, testsDir: string)
    requires root == "/root/" || root == "/app/"
    requires IsRelative(testsDir)
    ensures ArePathRules(AllRules(testsDir))
    ensures ReplaceAll(root + p, AllRules(testsDir)) == p <==>
            KeepsStart(root, p) && IsUntouchedBehindStart(p, AllRules(testsDir))
  {
    AllRulesArePathRules(testsDir);
    if KeepsStart(root, p) && IsUntouchedBehindStart(p, AllRules(testsDir)) {
      RootIsTaken(root, p, testsDir);
    }
    if ReplaceAll(root + p, AllRules(testsDir)) == p {
      if IsUndelimited(p) {
        KeptWord(root, p, testsDir);
      } else {
        KeptWords(root, p, testsDir);
      }
    }
  }

  lemma KeptWord(root: string, p: string, testsDir: string)
    requires root == "/root/" || root == "/app/"
    requires IsRelative(testsDir) && IsUndelimited(p) && ArePathRules(AllRules(testsDir))
    requires ReplaceAll(root + p, AllRules(testsDir)) == p
    ensures KeepsStart(root, p) && IsUntouchedBehindStart(p, AllRules(testsDir))
  {
    RootedWordIsRewritten(root, p, testsDir);
    WordIsKeptExactly(root, p, testsDir, true);
    assert p + "" == p;
    forall i, k: int | 0 <= i < |AllRules(testsDir)| && 0 < k
      ensures !MatchesIn(p, AllRules(testsDir)[i], k, true, true)
    {
      if k <= |p| {
        MatchesAtStartOnly(p, "", AllRules(testsDir)[i], k, true, true);
      }
    }
  }

  lemma KeptWords(root: string, p: string, testsDir: string)
    requires root == "/root/" || root == "/app/"
    requires IsRelative(testsDir) && !IsUndelimited(p) && ArePathRules(AllRules(testsDir))
    requires ReplaceAll(root + p, AllRules(testsDir)) == p
    ensures KeepsStart(root, p) && IsUntouchedBehindStart(p, AllRules(testsDir))
  {
    var word, d, rest := CutDelimited(p);
    RestIsRewrittenAlone(root, word, d, rest, testsDir);
    PassesRewriteWords(rest, testsDir, IsLeft(d), true);
    DelimitersGrow(rest, IsLeft(d), true, FormOf(testsDir));
    KeptFirstWord(
      PrefixForm(root + word, testsDir), RewriteWords(rest, testsDir, IsLeft(d), true), word, d, rest);
    WordIsKeptExactly(root, word, testsDir, IsRight(d));
    FirstWordKeepsStart(root, word, [d] + rest);
    KeptRestIsUntouched(rest, IsLeft(d), testsDir);
    UntouchedRest(word, d, rest, AllRules(testsDir));
  }
}
