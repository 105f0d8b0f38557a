/**
 * What all the passes over a test file make of one word (benchmark/skillsbench-collab/src/rewrite.ts:39-65).
 */
module WordForms {
  import opened Text
  import opened PathRules
  import opened Words
  import opened TestRules

  /* The two lists of rules, on a word. */

  function Strip(w: string, prefix: string): string {
    if StartsWith(w, prefix) then w[|prefix|..] else w
  }

  /** The first `/root/` is taken away, and then the first `/app/`. */
  function WithoutRoots(w: string): string {
    Strip(Strip(w, "/root/"), "/app/")
  }

  predicate IsWorkPath(w: string) {
    StartsWith(w, "/workspace/") || StartsWith(w, "/output/") || StartsWith(w, "/data/") || StartsWith(w, "/logs/")
  }

  function PrefixForm(w: string, testsDir: string): string {
    var u := WithoutRoots(w);
    if IsWorkPath(u) then "." + u
    else if StartsWith(u, "/tests/") then testsDir + u[|"/tests"|..]
    else u
  }

  function TokenForm(w: string, testsDir: string): string {
    if w == "/root" || w == "/app" then ""
    else if w == "/workspace" || w == "/output" || w == "/data" || w == "/logs" then "." + w
    else if w == "/tests" then testsDir
    else w
  }

  lemma OnWordSeven(w: string, rules: seq<Rule>, left: bool, right: bool)
    requires |rules| == 7
    ensures
      OnWordAll(w, rules, left, right) ==
      var w0 := OnWord(w, rules[0], left, right);
      var w1 := OnWord(w0, rules[1], left, right);
      var w2 := OnWord(w1, rules[2], left, right);
      var w3 := OnWord(w2, rules[3], left, right);
      var w4 := OnWord(w3, rules[4], left, right);
      var w5 := OnWord(w4, rules[5], left, right);
      OnWord(w5, rules[6], left, right)
  {
    OnWordNext(w, rules, left, right);
    var w0 := OnWord(w, rules[0], left, right);
    OnWordNext(w0, rules[1..], left, right);
    var w1 := OnWord(w0, rules[1], left, right);
    OnWordNext(w1, rules[2..], left, right);
    var w2 := OnWord(w1, rules[2], left, right);
    OnWordNext(w2, rules[3..], left, right);
    var w3 := OnWord(w2, rules[3], left, right);
    OnWordNext(w3, rules[4..], left, right);
    var w4 := OnWord(w3, rules[4], left, right);
    OnWordNext(w4, rules[5..], left, right);
    OnWordNext(OnWord(w4, rules[5], left, right), rules[6..], left, right);
  }

  lemma OnWordNext(w: string, rules: seq<Rule>, left: bool, right: bool)
    requires rules != []
    ensures OnWordAll(w, rules, left, right) == OnWordAll(OnWord(w, rules[0], left, right), rules[1..], left, right)
    ensures |rules| > 1 ==> rules[1..][0] == rules[1] && forall i :: 1 <= i < |rules| ==> rules[i..] == rules[1..][i - 1..]
  {
  }

  /** A rule that only puts a dot before the path. */
  lemma DotOnWord(w: string, src: string, right: bool)
    requires src != "" && src[0] == '/'
    ensures OnWord(w, Rule(src, "." + src, false), true, right) == if StartsWith(w, src) then "." + w else w
    ensures forall v :: OnWord("." + v, Rule(src, "." + src, false), true, right) == "." + v
  {
    if StartsWith(w, src) {
      assert w == src + w[|src|..];
      assert "." + src + w[|src|..] == "." + w;
    }
    forall v
      ensures !StartsWith("." + v, src)
    {
      assert ("." + v)[0] != src[0];
    }
  }

  lemma DotsOnWord(w: string, a: string, b: string, c: string, d: string, right: bool)
    requires a != "" && a[0] == '/' && b != "" && b[0] == '/' && c != "" && c[0] == '/' && d != "" && d[0] == '/'
    ensures
      OnWord(OnWord(OnWord(OnWord(w,
        Rule(a, "." + a, false), true, right), Rule(b, "." + b, false), true, right),
        Rule(c, "." + c, false), true, right), Rule(d, "." + d, false), true, right) ==
      if StartsWith(w, a) || StartsWith(w, b) || StartsWith(w, c) || StartsWith(w, d) then "." + w else w
  {
    DotOnWord(w, a, right);
    DotOnWord(w, b, right);
    DotOnWord(w, c, right);
    DotOnWord(w, d, right);
  }

  lemma StripOnWord(w: string, src: string, right: bool)
    ensures OnWord(w, Rule(src, "", false), true, right) == Strip(w, src)
  {
  }

  lemma TestsOnWord(w: string, testsDir: string, right: bool)
    ensures
      OnWord(w, Rule("/tests/", testsDir + "/", false), true, right) ==
      if StartsWith(w, "/tests/") then testsDir + w[|"/tests"|..] else w
  {
    if StartsWith(w, "/tests/") {
      assert w[6] == "/tests/"[6] == '/';
      assert w[6..] == "/" + w[7..];
      assert testsDir + "/" + w[7..] == testsDir + w[6..];
    }
  }

  lemma PrefixesOnWord(w: string, testsDir: string, right: bool)
    ensures OnWordAll(w, PrefixRules(testsDir), true, right) == PrefixForm(w, testsDir)
  {
    var rules := PrefixRules(testsDir);
    OnWordSeven(w, rules, true, right);
    StripOnWord(w, "/root/", right);
    StripOnWord(Strip(w, "/root/"), "/app/", right);
    var u := WithoutRoots(w);
    assert "./workspace/" == "." + "/workspace/" && "./output/" == "." + "/output/";
    assert "./data/" == "." + "/data/" && "./logs/" == "." + "/logs/";
    DotsOnWord(u, "/workspace/", "/output/", "/data/", "/logs/", right);
    TestsOnWord(if IsWorkPath(u) then "." + u else u, testsDir, right);
    assert !StartsWith("." + u, "/tests/") by {
      assert ("." + u)[0] != "/tests/"[0];
    }
  }

  /** A whole-token rule on a word between delimiters that end one. */
  lemma TokenOnWord(w: string, src: string, dst: string)
    ensures OnWord(w, Rule(src, dst, true), true, true) == if w == src then dst else w
  {
    if w == src {
      assert w[|src|..] == "" && dst + "" == dst;
    }
  }

  lemma TokensOnWord(w: string, testsDir: string)
    ensures OnWordAll(w, TokenRules(testsDir), true, true) == TokenForm(w, testsDir)
  {
    var rules := TokenRules(testsDir);
    OnWordSeven(w, rules, true, true);
    TokenOnWord(w, "/root", "");
    TokenOnWord(w, "/app", "");
    TokenOnWord("", "/app", "");
    TokenFormFrom(w, testsDir);
    TokenFormFrom("", testsDir);
  }

  /** The five tokens that leave something. */
  lemma TokenFormFrom(w: string, testsDir: string)
    ensures
      OnWord(OnWord(OnWord(OnWord(OnWord(w,
        Rule("/workspace", "./workspace", true), true, true), Rule("/output", "./output", true), true, true),
        Rule("/data", "./data", true), true, true), Rule("/logs", "./logs", true), true, true),
        Rule("/tests", testsDir, true), true, true) ==
      if w == "/workspace" || w == "/output" || w == "/data" || w == "/logs" then "." + w
      else if w == "/tests" then testsDir
      else w
  {
    TokenOnWord(w, "/workspace", "./workspace");
    TokenOnWord(w, "/output", "./output");
    TokenOnWord(w, "/data", "./data");
    TokenOnWord(w, "/logs", "./logs");
    TokenOnWord(w, "/tests", testsDir);
    DottedIsNoToken("./workspace", testsDir);
    DottedIsNoToken("./output", testsDir);
    DottedIsNoToken("./data", testsDir);
    DottedIsNoToken("./logs", testsDir);
  }

  lemma DottedIsNoToken(w: string, testsDir: string)
    requires w != "" && w[0] == '.'
    ensures OnWord(w, Rule("/output", "./output", true), true, true) == w
    ensures OnWord(w, Rule("/data", "./data", true), true, true) == w
    ensures OnWord(w, Rule("/logs", "./logs", true), true, true) == w
    ensures OnWord(w, Rule("/tests", testsDir, true), true, true) == w
  {
    TokenOnWord(w, "/output", "./output");
    TokenOnWord(w, "/data", "./data");
    TokenOnWord(w, "/logs", "./logs");
    TokenOnWord(w, "/tests", testsDir);
  }

  /* The passes over a text. */

  lemma {:induction false} NothingOnWord(w: string, rules: seq<Rule>, left: bool, right: bool)
    requires !left || (!right && forall i :: 0 <= i < |rules| ==> rules[i].wholeToken)
    ensures OnWordAll(w, rules, left, right) == w
    decreases |rules|
  {
    if rules != [] {
      NothingOnWord(w, rules[1..], left, right);
    }
  }

  lemma LowerCaseIsUndelimited(s: string)
    requires forall i :: 0 <= i < |s| ==> s[i] == '/' || s[i] == '.' || 'a' <= s[i] <= 'z'
    ensures IsUndelimited(s)
  {
  }

  /** Every rule but the last of each list puts nothing in that would delimit a word. */
  lemma PutsNoDelimiter(testsDir: string)
    ensures forall i :: 0 <= i < 6 ==> IsUndelimited(TokenRules(testsDir)[i].dst)
    ensures forall i :: 0 <= i < 6 ==> IsUndelimited(PrefixRules(testsDir)[i].dst)
  {
    LowerCaseIsUndelimited("./workspace");
    LowerCaseIsUndelimited("./output");
    LowerCaseIsUndelimited("./data");
    LowerCaseIsUndelimited("./logs");
    LowerCaseIsUndelimited("./workspace/");
    LowerCaseIsUndelimited("./output/");
    LowerCaseIsUndelimited("./data/");
    LowerCaseIsUndelimited("./logs/");
  }

  function PrefixFormOf(testsDir: string): Form {
    (w, left, right) => if left then PrefixForm(w, testsDir) else w
  }

  lemma PrefixesOverText(text: string, testsDir: string, left: bool, right: bool)
    ensures ArePathRules(PrefixRules(testsDir))
    ensures ReplaceAllIn(text, PrefixRules(testsDir), left, right) == RewriteBy(text, left, right, PrefixFormOf(testsDir))
  {
    var rules := PrefixRules(testsDir);
    PrefixRulesArePathRules(testsDir);
    PutsNoDelimiter(testsDir);
    ReplaceAllByWords(text, rules, left, right);
    forall w, l, r | IsUndelimited(w)
      ensures PassesOf(rules)(w, l, r) == PrefixFormOf(testsDir)(w, l, r)
    {
      OneWord(w, rules, l, r);
      if l {
        PrefixesOnWord(w, testsDir, r);
      } else {
        NothingOnWord(w, rules, l, r);
      }
    }
    RewriteBySame(text, left, right, PassesOf(rules), PrefixFormOf(testsDir));
  }

  lemma TokensOverWord(w: string, testsDir: string, left: bool, right: bool)
    requires IsUndelimited(w)
    ensures ArePathRules(TokenRules(testsDir))
    ensures ReplaceAllIn(w, TokenRules(testsDir), left, right) == if left && right then TokenForm(w, testsDir) else w
  {
    var rules := TokenRules(testsDir);
    TokenRulesArePathRules(testsDir);
    PutsNoDelimiter(testsDir);
    OneWord(w, rules, left, right);
    if left && right {
      TokensOnWord(w, testsDir);
    } else {
      NothingOnWord(w, rules, left, right);
    }
  }

  lemma TokenFormIsUndelimited(w: string, testsDir: string)
    requires IsUndelimited(w)
    ensures w != "/tests" ==> IsUndelimited(TokenForm(w, testsDir))
  {
  }

  /**
   * A word is rewritten behind a left delimiter, as a whole token before a right one. A tests directory
   * put in for a token is then gone through itself.
   */
  function WordForm(w: string, testsDir: string, left: bool, right: bool): string {
    if !left then w
    else if right && w == "/tests" then RewriteBy(testsDir, true, true, PrefixFormOf(testsDir))
    else PrefixForm(if right then TokenForm(w, testsDir) else w, testsDir)
  }

  /** What becomes of a word as a token, or of what is put in for it. */
  lemma PrefixesOverToken(w: string, testsDir: string, left: bool, right: bool)
    requires IsUndelimited(w)
    ensures
      var token := if left && right then TokenForm(w, testsDir) else w;
      RewriteBy(token, left, right, PrefixFormOf(testsDir)) == WordForm(w, testsDir, left, right)
  {
    var token := if left && right then TokenForm(w, testsDir) else w;
    TokenFormIsUndelimited(w, testsDir);
    if left && right && w == "/tests" {
      assert token == testsDir;
    } else {
      RewriteByWord(token, left, right, PrefixFormOf(testsDir));
    }
  }

  /** The fourteen rules one after the other make of a word exactly its form. */
  lemma AllOnWord(w: string, testsDir: string, left: bool, right: bool)
    requires IsUndelimited(w)
    ensures ArePathRules(AllRules(testsDir))
    ensures ReplaceAllIn(w, AllRules(testsDir), left, right) == WordForm(w, testsDir, left, right)
  {
    AllInTurn(w, TokenRules(testsDir), PrefixRules(testsDir), testsDir, left, right);
    PrefixesOverToken(w, testsDir, left, right);
  }

  lemma AllInTurn(w: string, tokens: seq<Rule>, prefixes: seq<Rule>, testsDir: string, left: bool, right: bool)
    requires IsUndelimited(w) && tokens == TokenRules(testsDir) && prefixes == PrefixRules(testsDir)
    ensures ArePathRules(tokens + prefixes)
    ensures ReplaceAllIn(w, tokens + prefixes, left, right) ==
            RewriteBy(if left && right then TokenForm(w, testsDir) else w, left, right, PrefixFormOf(testsDir))
  {
    var token := if left && right then TokenForm(w, testsDir) else w;
    TokensOverWord(w, testsDir, left, right);
    PrefixesOverText(token, testsDir, left, right);
    ReplaceAllInTurn(w, tokens, prefixes, left, right);
  }

  function FormOf(testsDir: string): Form {
    (w, left, right) => WordForm(w, testsDir, left, right)
  }

  /** The passes in one: word by word, each in its place. */
  function RewriteWords(text: string, testsDir: string, left: bool, right: bool): string {
    RewriteBy(text, left, right, FormOf(testsDir))
  }

  /**
   * The fourteen passes are one rewriting of the words, for every tests directory: what becomes of a word
   * depends on itself and on the delimiters around it alone.
   */
  lemma PassesRewriteWords(text: string, testsDir: string, left: bool, right: bool)
    ensures ArePathRules(AllRules(testsDir))
    ensures ReplaceAllIn(text, AllRules(testsDir), left, right) == RewriteWords(text, testsDir, left, right)
  {
    var rules := AllRules(testsDir);
    AllRulesArePathRules(testsDir);
    ReplaceAllByWords(text, rules, left, right);
    forall w, l, r | IsUndelimited(w)
      ensures PassesOf(rules)(w, l, r) == FormOf(testsDir)(w, l, r)
    {
      AllOnWord(w, testsDir, l, r);
    }
    RewriteBySame(text, left, right, PassesOf(rules), FormOf(testsDir));
  }

  /** What the passes make of a word alone. */
  lemma PassesOverWord(w: string, testsDir: string)
    requires IsUndelimited(w)
    ensures ReplaceAll(w, AllRules(testsDir)) ==
            if w == "/tests" then ReplaceAll(testsDir, PrefixRules(testsDir))
            else PrefixForm(TokenForm(w, testsDir), testsDir)
  {
    AllOnWord(w, testsDir, true, true);
    PrefixesOverText(testsDir, testsDir, true, true);
  }

  /* Tests directories that are one word. */

  lemma PrefixesOverWord(w: string, testsDir: string)
    requires IsUndelimited(w)
    ensures ReplaceAll(w, PrefixRules(testsDir)) == PrefixForm(w, testsDir)
  {
    PrefixesOverText(w, testsDir, true, true);
    RewriteByWord(w, true, true, PrefixFormOf(testsDir));
  }

  lemma TestsForm(testsDir: string)
    requires IsUndelimited(testsDir)
    ensures WordForm("/tests", testsDir, true, true) == PrefixForm(testsDir, testsDir)
  {
    RewriteByWord(testsDir, true, true, PrefixFormOf(testsDir));
  }
}
