/**
 * Which quoted contents the passes turn into a path that a literal replacement looks for
 * (benchmark/skillsbench-collab/src/rewrite.ts:41-75).
 */
module QuotedContents {
  import opened Text
  import opened Words
  import opened TestRules
  import opened WordForms

  /** `v`, with roots before it of which the passes take all away. */
  predicate IsBehindRoots(w: string, v: string) {
    w == v || w == "/root/" + v || w == "/app/" + v || w == "/root//app/" + v
  }

  lemma StripIs(w: string, prefix: string, v: string)
    ensures Strip(w, prefix) == v <==> (w == v && !StartsWith(v, prefix)) || w == prefix + v
  {
    if StartsWith(w, prefix) {
      assert w == prefix + w[|prefix|..];
    }
    if w == prefix + v {
      assert w[|prefix|..] == v;
    }
  }

  /** For what does not start with a root itself. */
  lemma WithoutRootsIs(w: string, v: string)
    requires !StartsWith(v, "/app/")
    ensures WithoutRoots(w) == v <==> IsBehindRoots(w, v) && (w == v ==> !StartsWith(v, "/root/"))
  {
    var u := Strip(w, "/root/");
    StripIs(u, "/app/", v);
    StripIs(w, "/root/", v);
    StripIs(w, "/root/", "/app/" + v);
    assert "/root/" + ("/app/" + v) == "/root//app/" + v;
    assert ("/app/" + v)[1] == 'a' && "/root/"[1] == 'r';
    assert !StartsWith("/app/" + v, "/root/");
    assert StartsWith(v, "/root/") ==> v != "/app/" + v;
  }

  /** The slashes of a path, as the only places where the tests directory could have been put in. */
  predicate HasSlashesAt(path: string, a: int, b: int) {
    forall k :: 0 <= k < |path| && path[k] == '/' ==> k == a || k == b
  }

  lemma PutInIs(testsDir: string, u: string, path: string, a: nat, b: nat)
    requires HasSlashesAt(path, a, b) && a < |path| && b < |path| && path[a] == '/' && path[b] == '/'
    requires StartsWith(u, "/tests/")
    ensures testsDir + u[6..] == path <==>
              (testsDir == path[..a] && u == "/tests" + path[a..]) || (testsDir == path[..b] && u == "/tests" + path[b..])
  {
    assert u[6] == "/tests/"[6] == '/';
    assert forall k :: 0 <= k < 6 ==> u[k] == "/tests/"[k] == "/tests"[k];
    assert u == "/tests" + u[6..];
    if testsDir + u[6..] == path {
      assert path[|testsDir|] == u[6];
      assert path[..|testsDir|] == testsDir && path[|testsDir|..] == u[6..];
    }
    if testsDir == path[..a] && u == "/tests" + path[a..] {
      assert u[6..] == path[a..];
    }
    if testsDir == path[..b] && u == "/tests" + path[b..] {
      assert u[6..] == path[b..];
    }
  }

  lemma StartsWithTests(u: string, tail: string)
    requires u == "/tests" + tail && tail != "" && tail[0] == '/'
    ensures StartsWith(u, "/tests/")
  {
    assert forall k :: 0 <= k < 6 ==> "/tests"[k] == "/tests/"[k];
    assert u[6] == tail[0];
  }

  /** The form of a word is a path with these slashes. */
  lemma FormIs(w: string, testsDir: string, path: string, a: nat, b: nat)
    requires HasSlashesAt(path, a, b) && a < |path| && b < |path| && path[a] == '/' && path[b] == '/'
    requires path[0] == '/' && !IsWorkPath(path)
    ensures
      var u := WithoutRoots(w);
      PrefixForm(w, testsDir) == path <==>
      || (u == path && !StartsWith(path, "/tests/"))
      || (testsDir == path[..a] && u == "/tests" + path[a..])
      || (testsDir == path[..b] && u == "/tests" + path[b..])
  {
    var u := WithoutRoots(w);
    if u == "/tests" + path[a..] {
      StartsWithTests(u, path[a..]);
    }
    if u == "/tests" + path[b..] {
      StartsWithTests(u, path[b..]);
    }
    if IsWorkPath(u) {
      assert ("." + u)[0] == '.';
    }
    if StartsWith(u, "/tests/") {
      TestsIsNoWorkPath(u);
      PutInIs(testsDir, u, path, a, b);
    }
  }

  lemma TestsIsNoWorkPath(u: string)
    requires StartsWith(u, "/tests/")
    ensures !IsWorkPath(u)
  {
    assert u[1] == "/tests/"[1] == 't';
    assert "/workspace/"[1] == 'w' && "/output/"[1] == 'o' && "/data/"[1] == 'd' && "/logs/"[1] == 'l';
  }

  predicate IsToken(w: string) {
    w == "/root" || w == "/app" || w == "/workspace" || w == "/output" || w == "/data" || w == "/logs" || w == "/tests"
  }

  lemma TokenSlashes(w: string)
    requires IsToken(w)
    ensures w[0] == '/' && forall k :: 0 < k < |w| ==> w[k] != '/'
  {
  }

  /** A path below nothing that the passes take away or move, with slashes at `a` and `b` only. */
  ghost predicate IsTarget(path: string, a: nat, b: nat) {
    && a < |path| && b < |path| && path[a] == '/' && path[b] == '/' && HasSlashesAt(path, a, b)
    && path[0] == '/' && IsUndelimited(path)
    && !IsWorkPath(path) && !StartsWith(path, "/app/")
  }

  /** The path itself behind roots, or a part of it behind `/tests`, with the tests directory for the rest. */
  predicate WordYields(w: string, testsDir: string, path: string, a: nat, b: nat)
    requires a < |path| && b < |path|
  {
    || (IsBehindRoots(w, path) && (w == path ==> !StartsWith(path, "/root/")) && !StartsWith(path, "/tests/"))
    || (testsDir == path[..a] && IsBehindRoots(w, "/tests" + path[a..]))
    || (testsDir == path[..b] && IsBehindRoots(w, "/tests" + path[b..]))
  }

  predicate Yields(content: string, testsDir: string, path: string, a: nat, b: nat)
    requires a < |path| && b < |path|
  {
    if content == "/tests" then WordYields(testsDir, testsDir, path, a, b)
    else !IsToken(content) && WordYields(content, testsDir, path, a, b)
  }

  lemma PartIsNoApp(tail: string)
    ensures !StartsWith("/tests" + tail, "/app/") && !StartsWith("/tests" + tail, "/root/")
  {
    assert ("/tests" + tail)[1] == 't' && "/app/"[1] == 'a' && "/root/"[1] == 'r';
  }

  lemma WordFormIs(w: string, testsDir: string, path: string, a: nat, b: nat)
    requires IsTarget(path, a, b)
    ensures PrefixForm(w, testsDir) == path <==> WordYields(w, testsDir, path, a, b)
  {
    FormIs(w, testsDir, path, a, b);
    WithoutRootsIs(w, path);
    PartIsNoApp(path[a..]);
    PartIsNoApp(path[b..]);
    WithoutRootsIs(w, "/tests" + path[a..]);
    WithoutRootsIs(w, "/tests" + path[b..]);
  }

  lemma BehindRootsIsUndelimited(w: string, v: string)
    requires IsBehindRoots(w, v) && IsUndelimited(v)
    ensures IsUndelimited(w)
  {
    LowerCaseIsUndelimited("/root/");
    LowerCaseIsUndelimited("/app/");
    LowerCaseIsUndelimited("/root//app/");
  }

  lemma PartIsUndelimited(path: string, a: nat)
    requires IsUndelimited(path) && a <= |path|
    ensures IsUndelimited("/tests" + path[a..])
  {
    LowerCaseIsUndelimited("/tests");
  }

  lemma YieldingIsUndelimited(w: string, testsDir: string, path: string, a: nat, b: nat)
    requires IsTarget(path, a, b) && WordYields(w, testsDir, path, a, b)
    ensures IsUndelimited(w)
  {
    PartIsUndelimited(path, a);
    PartIsUndelimited(path, b);
    if IsBehindRoots(w, path) {
      BehindRootsIsUndelimited(w, path);
    } else if IsBehindRoots(w, "/tests" + path[a..]) {
      BehindRootsIsUndelimited(w, "/tests" + path[a..]);
    } else {
      BehindRootsIsUndelimited(w, "/tests" + path[b..]);
    }
  }

  lemma TokenYieldsNothing(w: string, testsDir: string, path: string)
    requires IsToken(w) && w != "/tests" && path != "" && path[0] == '/'
    ensures PrefixForm(TokenForm(w, testsDir), testsDir) != path
  {
    var form := TokenForm(w, testsDir);
    assert form == "" || form[0] == '.';
    StartsWithSlashOnly(form, "/root/");
    StartsWithSlashOnly(form, "/app/");
    StartsWithSlashOnly(form, "/workspace/");
    StartsWithSlashOnly(form, "/output/");
    StartsWithSlashOnly(form, "/data/");
    StartsWithSlashOnly(form, "/logs/");
    StartsWithSlashOnly(form, "/tests/");
  }

  lemma StartsWithSlashOnly(s: string, part: string)
    requires part != "" && part[0] == '/' && (s == "" || s[0] != '/')
    ensures !StartsWith(s, part)
  {
  }

  lemma PrefixesYield(testsDir: string, path: string, a: nat, b: nat)
    requires IsTarget(path, a, b)
    ensures ReplaceAll(testsDir, PrefixRules(testsDir)) == path <==> WordYields(testsDir, testsDir, path, a, b)
  {
    PrefixRulesArePathRules(testsDir);
    if ReplaceAll(testsDir, PrefixRules(testsDir)) == path {
      ReplaceAllByWords(testsDir, PrefixRules(testsDir), true, true);
      DelimitersStay(testsDir, true, true, PassesOf(PrefixRules(testsDir)));
    }
    if WordYields(testsDir, testsDir, path, a, b) {
      YieldingIsUndelimited(testsDir, testsDir, path, a, b);
    }
    if IsUndelimited(testsDir) {
      PrefixesOverWord(testsDir, testsDir);
      WordFormIs(testsDir, testsDir, path, a, b);
    }
  }

  /** Contents come out as such a path exactly when they, or for `/tests` the tests directory, are of this form. */
  lemma ContentYieldsExactly(content: string, testsDir: string, path: string, a: nat, b: nat)
    requires IsTarget(path, a, b)
    ensures ReplaceAll(content, AllRules(testsDir)) == path <==> Yields(content, testsDir, path, a, b)
  {
    AllRulesArePathRules(testsDir);
    LowerCaseIsUndelimited("/tests");
    if ReplaceAll(content, AllRules(testsDir)) == path {
      ReplaceAllByWords(content, AllRules(testsDir), true, true);
      DelimitersStay(content, true, true, PassesOf(AllRules(testsDir)));
    }
    if content != "/tests" && WordYields(content, testsDir, path, a, b) {
      YieldingIsUndelimited(content, testsDir, path, a, b);
    }
    if IsUndelimited(content) {
      PassesOverWord(content, testsDir);
      if content == "/tests" {
        PrefixesYield(testsDir, path, a, b);
      } else if IsToken(content) {
        TokenYieldsNothing(content, testsDir, path);
      } else {
        WordFormIs(content, testsDir, path, a, b);
      }
    }
  }

  /* The three paths. */

  /** `/root` is left of a doubled root, or put together by a tests directory that is itself a root. */
  predicate GivesRoot(content: string, testsDir: string) {
    || content == "/root//root" || content == "/app//root" || content == "/root//app//root"
    || (content == "/tests" && IsBehindRoots(testsDir, "/root"))
    || (testsDir == "" && IsBehindRoots(content, "/tests/root"))
  }

  predicate GivesWorkspace(content: string, testsDir: string) {
    || content == "/root//root/workspace" || content == "/app//root/workspace" || content == "/root//app//root/workspace"
    || (content == "/tests" && testsDir != "/root/workspace" && IsBehindRoots(testsDir, "/root/workspace"))
    || (testsDir == "" && IsBehindRoots(content, "/tests/root/workspace"))
    || (testsDir == "/root" && IsBehindRoots(content, "/tests/workspace"))
  }

  predicate GivesTestsSource(content: string, testsDir: string) {
    || (testsDir == "" && IsBehindRoots(content, "/tests/tests/src"))
    || (testsDir == "/tests" && IsBehindRoots(content, "/tests/src"))
  }

  lemma TheRootIsTarget()
    ensures IsTarget("/root", 0, 0)
  {
    LowerCaseIsUndelimited("/root");
    assert |"/root"| == 5 && |"/app/"| == 5 && "/root"[1] == 'r' && "/app/"[1] == 'a';
  }

  lemma TheWorkspaceIsTarget()
    ensures IsTarget("/root/workspace", 0, 5)
  {
    var path := "/root/workspace";
    LowerCaseIsUndelimited(path);
    assert path[1] == 'r' && "/workspace/"[1] == 'w' && "/output/"[1] == 'o' && "/data/"[1] == 'd' && "/logs/"[1] == 'l';
    assert "/app/"[1] == 'a';
  }

  lemma TheTestsSourceIsTarget()
    ensures IsTarget("/tests/src", 0, 6)
  {
    var path := "/tests/src";
    LowerCaseIsUndelimited(path);
    assert path[1] == 't' && "/workspace/"[1] == 'w' && "/output/"[1] == 'o' && "/data/"[1] == 'd' && "/logs/"[1] == 'l';
    assert "/app/"[1] == 'a';
  }

  lemma ShorterIsNotBehind(w: string, v: string)
    requires |w| < |v|
    ensures !IsBehindRoots(w, v)
  {
  }

  lemma TokensAreShort(w: string)
    requires IsToken(w)
    ensures |w| <= 10 && (|w| == 10 ==> w[1] == 'w')
  {
  }

  lemma BehindTestsIsNoToken(w: string, tail: string)
    requires IsBehindRoots(w, "/tests" + tail) && tail != ""
    ensures !IsToken(w)
  {
    var v := "/tests" + tail;
    assert v[1] == 't' && |v| >= 7;
    assert w == v ==> w[1] == v[1];
    assert w != v ==> |w| >= 5 + |v|;
    if IsToken(w) {
      TokensAreShort(w);
    }
  }

  /** The root, and what the two other paths begin with. */
  lemma RootStrings()
    ensures "/tests" + "/root"[0..] == "/tests/root" && "/root"[..0] == ""
    ensures "/root/" + "/root" == "/root//root" && "/app/" + "/root" == "/app//root"
    ensures "/root//app/" + "/root" == "/root//app//root"
    ensures |"/root//root"| == 11 && |"/app//root"| == 10 && "/app//root"[1] == 'a' && |"/root//app//root"| == 16
  {
  }

  lemma ContentYieldsRoot(content: string, testsDir: string)
    ensures ReplaceAll(content, AllRules(testsDir)) == "/root" <==> GivesRoot(content, testsDir)
  {
    TheRootIsTarget();
    ContentYieldsExactly(content, testsDir, "/root", 0, 0);
    RootStrings();
    if IsBehindRoots(content, "/tests/root") {
      BehindTestsIsNoToken(content, "/root");
    }
    if IsToken(content) {
      TokensAreShort(content);
    }
    if testsDir == "" {
      ShorterIsNotBehind(testsDir, "/tests/root");
    }
  }

  lemma WorkspaceStrings()
    ensures "/tests" + "/root/workspace"[0..] == "/tests/root/workspace" && "/root/workspace"[..0] == ""
    ensures "/tests" + "/root/workspace"[5..] == "/tests/workspace" && "/root/workspace"[..5] == "/root"
    ensures "/root/" + "/root/workspace" == "/root//root/workspace" && "/app/" + "/root/workspace" == "/app//root/workspace"
    ensures "/root//app/" + "/root/workspace" == "/root//app//root/workspace"
    ensures |"/root//root/workspace"| > 10 && |"/app//root/workspace"| > 10 && |"/root//app//root/workspace"| > 10
    ensures StartsWith("/root/workspace", "/root/") && !StartsWith("/root/workspace", "/tests/")
  {
    var path := "/root/workspace";
    assert forall k :: 0 <= k < 6 ==> path[k] == "/root/"[k];
    assert path[1] == 'r' && "/tests/"[1] == 't';
  }

  lemma ContentYieldsWorkspace(content: string, testsDir: string)
    ensures ReplaceAll(content, AllRules(testsDir)) == "/root/workspace" <==> GivesWorkspace(content, testsDir)
  {
    TheWorkspaceIsTarget();
    ContentYieldsExactly(content, testsDir, "/root/workspace", 0, 5);
    WorkspaceStrings();
    NoTokenBehindWorkspace(content, testsDir);
    YieldsBelowRoot(content, testsDir, "/root/workspace", 5, "/tests/root/workspace", "/tests/workspace", "/root");
  }

  lemma YieldsBelowRoot(
    content: string, testsDir: string, path: string, b: nat, testsWhole: string, testsPart: string, part: string)
    requires 10 < |path| && b < |path| && StartsWith(path, "/root/") && !StartsWith(path, "/tests/")
    requires path[..0] == "" && testsWhole == "/tests" + path[0..] && testsPart == "/tests" + path[b..] && part == path[..b]
    requires IsBehindRoots(content, testsWhole) || IsBehindRoots(content, testsPart) ==> !IsToken(content)
    requires testsDir == "" ==> !IsBehindRoots(testsDir, testsWhole)
    requires testsDir == part ==> !IsBehindRoots(testsDir, testsPart)
    ensures Yields(content, testsDir, path, 0, b) <==>
              || (content != path && IsBehindRoots(content, path))
              || (content == "/tests" && testsDir != path && IsBehindRoots(testsDir, path))
              || (testsDir == "" && IsBehindRoots(content, testsWhole))
              || (testsDir == part && IsBehindRoots(content, testsPart))
  {
    if IsToken(content) {
      TokensAreShort(content);
      ShorterIsNotBehind(content, path);
    }
  }

  lemma NoTokenBehindWorkspace(content: string, testsDir: string)
    ensures IsBehindRoots(content, "/tests/root/workspace") || IsBehindRoots(content, "/tests/workspace") ==> !IsToken(content)
    ensures IsToken(content) ==> |content| <= 10
    ensures testsDir == "" ==> !IsBehindRoots(testsDir, "/tests/root/workspace")
    ensures testsDir == "/root" ==> !IsBehindRoots(testsDir, "/tests/workspace")
  {
    assert "/tests" + "/root/workspace" == "/tests/root/workspace" && "/tests" + "/workspace" == "/tests/workspace";
    if IsBehindRoots(content, "/tests/root/workspace") {
      BehindTestsIsNoToken(content, "/root/workspace");
    }
    if IsBehindRoots(content, "/tests/workspace") {
      BehindTestsIsNoToken(content, "/workspace");
    }
    if IsToken(content) {
      TokensAreShort(content);
    }
    if testsDir == "" || testsDir == "/root" {
      ShorterIsNotBehind(testsDir, "/tests/root/workspace");
      ShorterIsNotBehind(testsDir, "/tests/workspace");
    }
  }

  lemma TestsSourceStrings()
    ensures "/tests" + "/tests/src"[0..] == "/tests/tests/src" && "/tests/src"[..0] == ""
    ensures "/tests" + "/tests/src"[6..] == "/tests/src" && "/tests/src"[..6] == "/tests"
    ensures StartsWith("/tests/src", "/tests/")
  {
    assert forall k :: 0 <= k < 7 ==> "/tests/src"[k] == "/tests/"[k];
  }

  lemma ContentYieldsTestsSource(content: string, testsDir: string)
    ensures ReplaceAll(content, AllRules(testsDir)) == "/tests/src" <==> GivesTestsSource(content, testsDir)
  {
    TheTestsSourceIsTarget();
    ContentYieldsExactly(content, testsDir, "/tests/src", 0, 6);
    TestsSourceStrings();
    NoTokenBehindTestsSource(content, testsDir);
  }

  lemma NoTokenBehindTestsSource(content: string, testsDir: string)
    ensures IsBehindRoots(content, "/tests/tests/src") || IsBehindRoots(content, "/tests/src") ==> !IsToken(content)
    ensures testsDir == "" || testsDir == "/tests" ==> !IsBehindRoots(testsDir, "/tests/tests/src")
    ensures testsDir == "" || testsDir == "/tests" ==> !IsBehindRoots(testsDir, "/tests/src")
    ensures IsToken("/tests")
  {
    assert "/tests" + "/tests/src" == "/tests/tests/src" && "/tests" + "/src" == "/tests/src";
    if IsBehindRoots(content, "/tests/tests/src") {
      BehindTestsIsNoToken(content, "/tests/src");
    }
    if IsBehindRoots(content, "/tests/src") {
      BehindTestsIsNoToken(content, "/src");
    }
    if testsDir == "" || testsDir == "/tests" {
      ShorterIsNotBehind(testsDir, "/tests/tests/src");
      ShorterIsNotBehind(testsDir, "/tests/src");
    }
  }
}
