/**
 * What the literal replacements are left to do: exactly for which texts one of them finds what it
 * looks for, and what becomes of their own sources (benchmark/skillsbench-collab/src/rewrite.ts:66-78).
 *
 * The passes before them go through the same paths first, so a literal never meets the text it was
 * written for, and acts only on contents that come out of the passes as that path.
 */
module LiteralEffects {
  import opened Text
  import opened PathRules
  import opened Words
  import opened Literals
  import opened TestRules
  import opened WordForms
  import opened QuotedContents
  import opened LiteralReach

  /* Where a literal finds its source. */

  ghost predicate Occurs(text: string, part: string) {
    exists a, b :: text == a + (part + b)
  }

  lemma OccursSomewhere(text: string, part: string)
    ensures Occurs(text, part) <==> exists i: nat :: OccursAt(text, part, i)
  {
    if i: nat :| OccursAt(text, part, i) {
      assert text[i..i + |part|] == part;
      assert text == text[..i] + (part + text[i + |part|..]);
    }
    if a, b :| text == a + (part + b) {
      assert forall k :: 0 <= k < |part| ==> text[|a| + k] == part[k];
      assert OccursAt(text, part, |a|);
    }
  }

  /** A quoted path between two texts, as what the passes leave of a quoted content between two others. */
  ghost predicate IsReached(
    text: string, testsDir: string, before: string, quote: char, path: string, after: string, pre: string, c: string, post: string)
  {
    && text == pre + ([quote] + (c + ([quote] + post)))
    && EndsWith(RewriteWords(pre, testsDir, true, true), before)
    && RewriteWords(c, testsDir, true, true) == path
    && StartsWith(RewriteWords(post, testsDir, true, true), after)
  }

  lemma QuoteDelimits(quote: char)
    requires IsQuote(quote)
    ensures IsDelimiter(quote) && IsLeft(quote) && IsRight(quote)
  {
  }

  lemma ReachedOccurs(
    text: string, testsDir: string, before: string, quote: char, path: string, after: string, pre: string, c: string, post: string)
    requires IsQuote(quote) && IsReached(text, testsDir, before, quote, path, after, pre, c, post)
    ensures Occurs(RewriteWords(text, testsDir, true, true), Source(before, quote, path, after))
  {
    QuoteDelimits(quote);
    RewriteAtDelimiter(pre, quote, c + ([quote] + post), testsDir, true, true);
    RewriteAtDelimiter(c, quote, post, testsDir, true, true);
    var u, v := RewriteWords(pre, testsDir, true, true), RewriteWords(post, testsDir, true, true);
    var a := CutEnd(u, before);
    var b := CutStart(v, after);
    SourceBetween(a, before, quote, path, after, b);
  }

  lemma CutStart(s: string, part: string) returns (rest: string)
    requires StartsWith(s, part)
    ensures s == part + rest
  {
    rest := s[|part|..];
    assert forall k :: 0 <= k < |part| ==> s[0 + k] == part[k];
  }

  function Source(before: string, quote: char, path: string, after: string): string {
    before + [quote] + path + [quote] + after
  }

  lemma SourceBetween(a: string, before: string, quote: char, path: string, after: string, b: string)
    ensures (a + before) + ([quote] + (path + ([quote] + (after + b)))) == a + (Source(before, quote, path, after) + b)
  {
  }

  lemma OccurringIsReached(text: string, testsDir: string, before: string, quote: char, path: string, after: string)
    returns (pre: string, c: string, post: string)
    requires IsQuote(quote) && quote !in testsDir
    requires Occurs(RewriteWords(text, testsDir, true, true), Source(before, quote, path, after))
    ensures IsReached(text, testsDir, before, quote, path, after, pre, c, post)
  {
    var whole := RewriteWords(text, testsDir, true, true);
    var a, b :| whole == a + (Source(before, quote, path, after) + b);
    SourceBetween(a, before, quote, path, after, b);
    QuoteDelimits(quote);
    var rest;
    pre, rest := FindDelimiter(text, testsDir, true, true, a + before, quote, path + ([quote] + (after + b)));
    c, post := FindDelimiter(rest, testsDir, true, true, path, quote, after + b);
    FrontEnds(a, before);
    assert forall k :: 0 <= k < |after| ==> (after + b)[0 + k] == after[k];
  }

  /* The condition on the text alone. */

  /** Contents that come out as one of the three paths. */
  predicate Gives(c: string, testsDir: string, path: string) {
    match path
    case "/root" => GivesRoot(c, testsDir)
    case "/root/workspace" => GivesWorkspace(c, testsDir)
    case "/tests/src" => GivesTestsSource(c, testsDir)
    case _ => false
  }

  /** For every tests directory whatsoever. */
  lemma ContentGivesExactly(c: string, testsDir: string, path: string)
    requires IsLiteralPath(path)
    ensures ReplaceAll(c, AllRules(testsDir)) == path <==> Gives(c, testsDir, path)
  {
    ContentYieldsRoot(c, testsDir);
    ContentYieldsWorkspace(c, testsDir);
    ContentYieldsTestsSource(c, testsDir);
  }

  const CALLEE := "sys.path.insert"
  const ZERO := "0,"

  lemma CalleeAndCwdEndNoToken()
    ensures IsNoTokenEnd(CALLEE) && IsNoTokenEnd(CWD)
    ensures IsSlashFree(ZERO) && IsUndelimited(ZERO)
    ensures INSERT == CALLEE + (['('] + (ZERO + " "))
  {
    CalleeIsPlain();
    CwdIsPlain();
    forall w | IsToken(w)
      ensures !EndsWith(w, CALLEE) && !EndsWith(w, CWD)
    {
      TokensAreShort(w);
      TokenEndsInLetter(w);
      EndsInLast(w, CWD);
    }
  }

  lemma CalleeIsPlain()
    ensures IsSlashFree(CALLEE) && IsUndelimited(CALLEE) && |CALLEE| == 15
    ensures IsSlashFree(ZERO) && IsUndelimited(ZERO)
    ensures INSERT == CALLEE + (['('] + (ZERO + " "))
  {
  }

  lemma CwdIsPlain()
    ensures IsSlashFree(CWD) && IsUndelimited(CWD) && CWD[|CWD| - 1] == '='
  {
  }

  lemma TokenEndsInLetter(w: string)
    requires IsToken(w)
    ensures 'a' <= w[|w| - 1] <= 'z'
  {
  }

  lemma EndsInLast(s: string, e: string)
    requires e != ""
    ensures EndsWith(s, e) ==> s != "" && s[|s| - 1] == e[|e| - 1]
  {
    assert |e| <= |s| ==> s[|s| - |e|..][|e| - 1] == s[|s| - 1];
  }

  /** `sys.path.insert(0, "c")`, with words in it that the passes take away. */
  ghost predicate IsInsertOf(
    text: string, testsDir: string, quote: char, path: string, p: string, s: string, c: string, y: string, z: string)
  {
    && text == (p + (['('] + s)) + ([quote] + (c + ([quote] + (y + ([')'] + z)))))
    && EndsWith(p, CALLEE)
    && IsArgument(s, testsDir, ZERO)
    && Gives(c, testsDir, path)
    && IsUndelimited(y) && Becomes(y, testsDir, "")
  }

  /** A tests directory that cannot itself put a quote or a parenthesis of a literal in. */
  predicate IsUnquoted(testsDir: string) {
    '"' !in testsDir && '\'' !in testsDir && '(' !in testsDir && ')' !in testsDir
  }

  /**
   * The six `sys.path.insert` literals: what the passes leave has the source of one exactly when the
   * text has such a call of a content that gives its path.
   */
  lemma InsertIsMetExactly(text: string, testsDir: string, quote: char, path: string)
    requires IsUnquoted(testsDir) && IsQuote(quote) && IsLiteralPath(path)
    ensures Occurs(ReplaceAll(text, AllRules(testsDir)), Source(INSERT, quote, path, ")")) <==>
              exists p, s, c, y, z :: IsInsertOf(text, testsDir, quote, path, p, s, c, y, z)
  {
    CalleeAndCwdEndNoToken();
    PassesRewriteWords(text, testsDir, true, true);
    if Occurs(ReplaceAll(text, AllRules(testsDir)), Source(INSERT, quote, path, ")")) {
      var p, s, c, y, z := MetInsertIs(text, testsDir, quote, path);
    }
    if p, s, c, y, z :| IsInsertOf(text, testsDir, quote, path, p, s, c, y, z) {
      InsertIsMet(text, testsDir, quote, path, p, s, c, y, z);
    }
  }

  lemma MetInsertIs(text: string, testsDir: string, quote: char, path: string)
    returns (p: string, s: string, c: string, y: string, z: string)
    requires IsUnquoted(testsDir) && IsQuote(quote) && IsLiteralPath(path)
    requires Occurs(RewriteWords(text, testsDir, true, true), Source(INSERT, quote, path, ")"))
    ensures IsInsertOf(text, testsDir, quote, path, p, s, c, y, z)
  {
    var pre, post;
    CalleeAndCwdEndNoToken();
    pre, c, post := OccurringIsReached(text, testsDir, INSERT, quote, path, ")");
    p, s := RewrittenIsCall(pre, testsDir, CALLEE, ZERO);
    RewrittenStartsWithParenthesis(post, testsDir);
    y, z :| IsClosed(post, testsDir, y, z);
    PassesRewriteWords(c, testsDir, true, true);
    ContentGivesExactly(c, testsDir, path);
  }

  lemma InsertIsMet(
    text: string, testsDir: string, quote: char, path: string, p: string, s: string, c: string, y: string, z: string)
    requires ')' !in testsDir && IsQuote(quote) && IsLiteralPath(path)
    requires IsInsertOf(text, testsDir, quote, path, p, s, c, y, z)
    ensures Occurs(RewriteWords(text, testsDir, true, true), Source(INSERT, quote, path, ")"))
  {
    CalleeAndCwdEndNoToken();
    var pre, post := p + (['('] + s), y + ([')'] + z);
    CallIsRewritten(pre, testsDir, CALLEE, ZERO, p, s);
    assert IsClosed(post, testsDir, y, z);
    RewrittenStartsWithParenthesis(post, testsDir);
    PassesRewriteWords(c, testsDir, true, true);
    ContentGivesExactly(c, testsDir, path);
    ReachedOccurs(text, testsDir, INSERT, quote, path, ")", pre, c, post);
  }

  /** `cwd="c"`, where a tests directory may have brought the `cwd=`. */
  ghost predicate IsCwdOf(text: string, testsDir: string, quote: char, pre: string, c: string, post: string) {
    && text == pre + ([quote] + (c + ([quote] + post)))
    && (EndsWith(pre, CWD) || (EndsWith(testsDir, CWD) && EndsInTests(pre, true)))
    && GivesRoot(c, testsDir)
  }

  lemma CwdIsReached(text: string, testsDir: string, quote: char, pre: string, c: string, post: string)
    requires IsCwdOf(text, testsDir, quote, pre, c, post)
    ensures IsReached(text, testsDir, CWD, quote, "/root", "", pre, c, post)
  {
    assert EndsWith(RewriteWords(pre, testsDir, true, true), CWD) by {
      CalleeAndCwdEndNoToken();
      RewrittenEndsWith(pre, testsDir, true, true, CWD);
    }
    assert RewriteWords(c, testsDir, true, true) == "/root" by {
      PassesRewriteWords(c, testsDir, true, true);
      ContentYieldsRoot(c, testsDir);
    }
    StartsWithNothing(RewriteWords(post, testsDir, true, true));
  }

  lemma StartsWithNothing(s: string)
    ensures StartsWith(s, "")
  {
  }

  lemma CwdIsMet(text: string, testsDir: string, quote: char, pre: string, c: string, post: string)
    requires IsQuote(quote) && IsCwdOf(text, testsDir, quote, pre, c, post)
    ensures Occurs(RewriteWords(text, testsDir, true, true), Source(CWD, quote, "/root", ""))
  {
    CwdIsReached(text, testsDir, quote, pre, c, post);
    ReachedOccurs(text, testsDir, CWD, quote, "/root", "", pre, c, post);
  }

  lemma MetCwdIs(text: string, testsDir: string, quote: char) returns (pre: string, c: string, post: string)
    requires IsQuote(quote) && quote !in testsDir
    requires Occurs(RewriteWords(text, testsDir, true, true), Source(CWD, quote, "/root", ""))
    ensures IsCwdOf(text, testsDir, quote, pre, c, post)
  {
    CalleeAndCwdEndNoToken();
    pre, c, post := OccurringIsReached(text, testsDir, CWD, quote, "/root", "");
    RewrittenEndsWith(pre, testsDir, true, true, CWD);
    PassesRewriteWords(c, testsDir, true, true);
    ContentYieldsRoot(c, testsDir);
  }

  /** The two `cwd=` literals. */
  lemma CwdIsMetExactly(text: string, testsDir: string, quote: char)
    requires IsQuote(quote) && quote !in testsDir
    ensures Occurs(ReplaceAll(text, AllRules(testsDir)), Source(CWD, quote, "/root", "")) <==>
              exists pre, c, post :: IsCwdOf(text, testsDir, quote, pre, c, post)
  {
    PassesRewriteWords(text, testsDir, true, true);
    if Occurs(ReplaceAll(text, AllRules(testsDir)), Source(CWD, quote, "/root", "")) {
      var pre, c, post := MetCwdIs(text, testsDir, quote);
    }
    if pre, c, post :| IsCwdOf(text, testsDir, quote, pre, c, post) {
      CwdIsMet(text, testsDir, quote, pre, c, post);
    }
  }

  /* The sources the literals were written for. */

  /** What the passes leave of a literal's path: nothing, the workspace, or what the literal would have put in. */
  function LeftOf(path: string, testsDir: string): string {
    if path == "/root" then "" else if path == "/root/workspace" then "workspace" else testsDir + "/src"
  }

  lemma PathIsTaken(path: string, testsDir: string)
    requires IsLiteralPath(path)
    ensures ReplaceAll(path, AllRules(testsDir)) == LeftOf(path, testsDir)
  {
    LiteralPathIsWord(path);
    PassesOverWord(path, testsDir);
    NothingInNothing(testsDir);
    WorkspaceIsTaken(testsDir);
    TestsSourceIsMoved(testsDir);
  }

  lemma LiteralPathIsWord(path: string)
    requires IsLiteralPath(path)
    ensures IsUndelimited(path) && path != "/tests" && (IsToken(path) <==> path == "/root")
  {
    TheWorkspaceIsTarget();
    TheTestsSourceIsTarget();
    TheRootIsTarget();
    assert |"/root/workspace"| == 15 && |"/tests/src"| == 10 && "/tests/src"[1] == 't';
    if IsToken(path) {
      TokensAreShort(path);
    }
  }

  lemma NothingInNothing(testsDir: string)
    ensures PrefixForm("", testsDir) == ""
  {
  }

  lemma WorkspaceIsTaken(testsDir: string)
    ensures PrefixForm("/root/workspace", testsDir) == "workspace"
  {
    var path := "/root/workspace";
    assert forall k :: 0 <= k < 6 ==> path[k] == "/root/"[k];
    assert path[6..] == "workspace" && "workspace"[0] == 'w';
    SlashFreeStarts("workspace");
    WorkPathHasSlash("workspace");
    assert "/tests/"[0] == '/';
  }

  lemma TestsSourceIsMoved(testsDir: string)
    ensures PrefixForm("/tests/src", testsDir) == testsDir + "/src"
  {
    var path := "/tests/src";
    assert path[1] == 't' && "/root/"[1] == 'r' && "/app/"[1] == 'a';
    assert forall k :: 0 <= k < 7 ==> path[k] == "/tests/"[k];
    TestsIsNoWorkPath(path);
    assert path[6..] == "/src";
  }

  /**
   * A literal never meets the text it was written for: of its source, anywhere in a text, the passes
   * have already taken the path. The working directory is put in for none of them.
   */
  lemma LiteralMissesItsSource(pre: string, before: string, quote: char, path: string, after: string, post: string, testsDir: string)
    requires IsQuote(quote) && IsLiteralPath(path)
    ensures ReplaceAll(pre + Source(before, quote, path, after) + post, AllRules(testsDir)) ==
            ReplaceAll(pre + before, AllRules(testsDir))
            + [quote] + (LeftOf(path, testsDir) + [quote] + ReplaceAll(after + post, AllRules(testsDir)))
  {
    var rules := AllRules(testsDir);
    AllRulesArePathRules(testsDir);
    SourceInText(pre, before, quote, path, after, post);
    ReplaceAllSplitsAtQuote(pre + before, quote, path + [quote] + (after + post), rules);
    ReplaceAllSplitsAtQuote(path, quote, after + post, rules);
    PathIsTaken(path, testsDir);
  }

  lemma SourceInText(pre: string, before: string, quote: char, path: string, after: string, post: string)
    ensures pre + Source(before, quote, path, after) + post ==
            (pre + before) + [quote] + (path + [quote] + (after + post))
  {
  }

  /** The content that is left then stays, whatever the literals do elsewhere. */
  lemma SourceKeepsWhatIsLeft(
    pre: string, before: string, quote: char, path: string, after: string, post: string, testsDir: string, workDir: string)
    returns (tail: string)
    requires IsQuote(quote) && (path == "/root" || path == "/root/workspace")
    ensures Rewritten(pre + Source(before, quote, path, after) + post, testsDir, workDir) ==
            SwapAll(ReplaceAll(pre + before, AllRules(testsDir)) + [quote], TestLiterals(testsDir, workDir))
            + (LeftOf(path, testsDir) + [quote] + tail)
  {
    var u, v := ReplaceAll(pre + before, AllRules(testsDir)), ReplaceAll(after + post, AllRules(testsDir));
    LiteralMissesItsSource(pre, before, quote, path, after, post, testsDir);
    RelativeContentStays(u, quote, LeftOf(path, testsDir), v, testsDir, workDir);
    TestLiteralsArePathLiterals(testsDir, workDir);
    tail := SwapAllKeepsQuoted(u + [quote], LeftOf(path, testsDir), quote, v, TestLiterals(testsDir, workDir));
  }

  lemma RelativeContentStays(u: string, quote: char, p: string, v: string, testsDir: string, workDir: string)
    requires IsQuote(quote) && (p == "" || p == "workspace")
    ensures forall i :: 0 <= i < |TestLiterals(testsDir, workDir)| ==> IsCut(u + [quote], p, TestLiterals(testsDir, workDir)[i])
    ensures u + [quote] + (p + [quote] + v) == u + ([quote] + (p + [quote] + v))
  {
    OtherContentsAreCut(u + [quote], p, testsDir, workDir);
  }

  /* Without a source nothing is done. */

  lemma {:induction false} NothingToSwapAll(text: string, literals: seq<Literal>)
    requires forall i :: 0 <= i < |literals| ==> literals[i].src != "" && !Occurs(text, literals[i].src)
    ensures SwapAll(text, literals) == text
    decreases |literals|
  {
    if literals != [] {
      OccursSomewhere(text, literals[0].src);
      SwapNothing(text, literals[0]);
      NothingToSwapAll(text, literals[1..]);
    }
  }

  /** A text in which no literal is met is what the passes leave, whatever the working directory. */
  lemma UnmetLiteralsDoNothing(text: string, testsDir: string, workDir: string)
    requires forall i :: 0 <= i < |TestLiterals(testsDir, workDir)| ==>
               !Occurs(ReplaceAll(text, AllRules(testsDir)), TestLiterals(testsDir, workDir)[i].src)
    ensures Rewritten(text, testsDir, workDir) == ReplaceAll(text, AllRules(testsDir))
  {
    TestLiteralsArePathLiterals(testsDir, workDir);
    NothingToSwapAll(ReplaceAll(text, AllRules(testsDir)), TestLiterals(testsDir, workDir));
  }

  lemma TestLiteralsAreSources(testsDir: string, workDir: string, i: nat)
    requires i < |TestLiterals(testsDir, workDir)|
    ensures
      var src := TestLiterals(testsDir, workDir)[i].src;
      || src == Source(INSERT, '"', "/tests/src", ")") || src == Source(INSERT, '\'', "/tests/src", ")")
      || src == Source(INSERT, '"', "/root/workspace", ")") || src == Source(INSERT, '\'', "/root/workspace", ")")
      || src == Source(INSERT, '"', "/root", ")") || src == Source(INSERT, '\'', "/root", ")")
      || src == Source(CWD, '\'', "/root", "") || src == Source(CWD, '"', "/root", "")
  {
  }

  /** The text has a content that a literal acts on. */
  ghost predicate HasYieldingContent(text: string, testsDir: string) {
    || (exists quote, path, p, s, c, y, z ::
          IsQuote(quote) && IsLiteralPath(path) && IsInsertOf(text, testsDir, quote, path, p, s, c, y, z))
    || (exists quote, pre, c, post :: IsQuote(quote) && IsCwdOf(text, testsDir, quote, pre, c, post))
  }

  /** In all other texts the literals do nothing, and the working directory is put in nowhere. */
  lemma LiteralsActOnlyOnYieldingContents(text: string, testsDir: string, workDir: string)
    requires IsUnquoted(testsDir) && !HasYieldingContent(text, testsDir)
    ensures Rewritten(text, testsDir, workDir) == ReplaceAll(text, AllRules(testsDir))
  {
    InsertsAreUnmet(text, testsDir, '"');
    InsertsAreUnmet(text, testsDir, '\'');
    CwdIsMetExactly(text, testsDir, '"');
    CwdIsMetExactly(text, testsDir, '\'');
    forall i | 0 <= i < |TestLiterals(testsDir, workDir)|
      ensures !Occurs(ReplaceAll(text, AllRules(testsDir)), TestLiterals(testsDir, workDir)[i].src)
    {
      TestLiteralsAreSources(testsDir, workDir, i);
    }
    UnmetLiteralsDoNothing(text, testsDir, workDir);
  }

  lemma InsertsAreUnmet(text: string, testsDir: string, quote: char)
    requires IsUnquoted(testsDir) && !HasYieldingContent(text, testsDir) && IsQuote(quote)
    ensures forall path :: IsLiteralPath(path) ==>
              !Occurs(ReplaceAll(text, AllRules(testsDir)), Source(INSERT, quote, path, ")"))
  {
    forall path | IsLiteralPath(path)
      ensures !Occurs(ReplaceAll(text, AllRules(testsDir)), Source(INSERT, quote, path, ")"))
    {
      InsertIsMetExactly(text, testsDir, quote, path);
    }
  }

  /** The smallest such source: the command is to run in the working directory, and gets no directory at all. */
  lemma WorkingDirectoryIsLost(testsDir: string, workDir: string)
    ensures Rewritten("cwd='/root'", testsDir, workDir) == "cwd=''"
  {
    PassesTakeDirectory(testsDir);
    forall i | 0 <= i < |TestLiterals(testsDir, workDir)|
      ensures !Occurs("cwd=''", TestLiterals(testsDir, workDir)[i].src)
    {
      LiteralsAreLong(testsDir, workDir, i);
    }
    UnmetLiteralsDoNothing("cwd='/root'", testsDir, workDir);
  }

  lemma PassesTakeDirectory(testsDir: string)
    ensures ReplaceAll("cwd='/root'", AllRules(testsDir)) == "cwd=''"
  {
    AllRulesArePathRules(testsDir);
    LiteralMissesItsSource("", CWD, '\'', "/root", "", "", testsDir);
    UntouchedCwd(testsDir);
    ReplaceAllOfEmpty(AllRules(testsDir));
    CwdSource();
  }

  lemma CwdSource()
    ensures "" + Source(CWD, '\'', "/root", "") + "" == "cwd='/root'" && "" + CWD == CWD && "" + "" == ""
    ensures CWD + ['\''] + ("" + ['\''] + "") == "cwd=''"
  {
  }

  lemma UntouchedCwd(testsDir: string)
    ensures ReplaceAll(CWD, AllRules(testsDir)) == CWD
  {
    CwdIsPlain();
    PassesOverWord(CWD, testsDir);
    SlashFreePrefixForm(CWD, testsDir, CWD);
    assert CWD[0] == 'c';
    if IsToken(CWD) {
      TokenSlashes(CWD);
    }
  }

  lemma LiteralsAreLong(testsDir: string, workDir: string, i: nat)
    requires i < |TestLiterals(testsDir, workDir)|
    ensures |TestLiterals(testsDir, workDir)[i].src| > 6
  {
    assert |CWD| == 4 && |INSERT| == 19;
  }
}
