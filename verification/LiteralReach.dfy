/**
 * When the literal replacements meet the texts they look for
 * (benchmark/skillsbench-collab/src/rewrite.ts:66-78).
 */
module LiteralReach {
  import opened Text
  import opened Scans
  import opened PathRules
  import opened Words
  import opened Literals
  import opened TestRules
  import opened WordForms
  import opened QuotedContents

  /* Delimiters in the rewritten text. */

  lemma RewriteWord(word: string, testsDir: string, left: bool, right: bool)
    requires IsUndelimited(word)
    ensures RewriteWords(word, testsDir, left, right) == WordForm(word, testsDir, left, right)
  {
    RewriteByWord(word, left, right, FormOf(testsDir));
  }

  lemma RewriteFirstWord(word: string, d: char, rest: string, testsDir: string, left: bool, right: bool)
    requires IsUndelimited(word) && IsDelimiter(d)
    ensures RewriteWords(word + ([d] + rest), testsDir, left, right) ==
            WordForm(word, testsDir, left, IsRight(d)) + ([d] + RewriteWords(rest, testsDir, IsLeft(d), right))
  {
    RewriteByFirstWord(word, d, rest, left, right, FormOf(testsDir));
  }

  lemma RewriteAtDelimiter(a: string, d: char, b: string, testsDir: string, left: bool, right: bool)
    requires IsDelimiter(d)
    ensures RewriteWords(a + ([d] + b), testsDir, left, right) ==
            RewriteWords(a, testsDir, left, IsRight(d)) + ([d] + RewriteWords(b, testsDir, IsLeft(d), right))
  {
    RewriteByAt(a, d, b, left, right, FormOf(testsDir));
  }

  /* What a word's form has of a delimiter, it has from the tests directory. */

  lemma PrefixFormHasNo(w: string, testsDir: string, e: char)
    requires e !in w && e !in testsDir && e != '.'
    ensures e !in PrefixForm(w, testsDir)
  {
  }

  lemma {:induction false} PrefixTextHasNo(text: string, testsDir: string, left: bool, right: bool, e: char)
    requires e !in text && e !in testsDir && e != '.'
    ensures e !in RewriteBy(text, left, right, PrefixFormOf(testsDir))
    decreases |text|
  {
    var f := PrefixFormOf(testsDir);
    if IsUndelimited(text) {
      RewriteByWord(text, left, right, f);
      PrefixFormHasNo(text, testsDir, e);
    } else {
      var word, d, rest := CutDelimited(text);
      assert e !in word && e !in [d] + rest && e !in rest;
      RewriteByFirstWord(word, d, rest, left, right, f);
      PrefixFormHasNo(word, testsDir, e);
      PrefixTextHasNo(rest, testsDir, IsLeft(d), right, e);
    }
  }

  lemma FormHasNo(word: string, testsDir: string, left: bool, right: bool, e: char)
    requires IsUndelimited(word) && IsDelimiter(e) && e !in testsDir
    ensures e !in WordForm(word, testsDir, left, right)
  {
    assert e !in word;
    PrefixTextHasNo(testsDir, testsDir, true, true, e);
    PrefixFormHasNo(word, testsDir, e);
    TokenFormIsUndelimited(word, testsDir);
    if word != "/tests" {
      assert e !in TokenForm(word, testsDir);
      PrefixFormHasNo(TokenForm(word, testsDir), testsDir, e);
    }
  }

  /** A word and a delimiter, cut again at some character that the word does not have. */
  lemma CutAgain(form: string, d: char, tail: string, u: string, e: char, v: string)
    requires e !in form && form + ([d] + tail) == u + ([e] + v)
    ensures |u| >= |form|
    ensures |u| == |form| ==> u == form && e == d && v == tail
    ensures |u| > |form| ==> u == form + ([d] + u[|form| + 1..]) && tail == u[|form| + 1..] + ([e] + v)
  {
    var whole := form + ([d] + tail);
    assert whole[|u|] == e;
    assert forall k :: 0 <= k < |form| ==> whole[k] == form[k] && whole[k] in form;
    if |u| == |form| {
      assert whole[..|u|] == u == form;
      assert whole[|u| + 1..] == v == tail;
    } else {
      assert u == whole[..|u|];
      assert tail == whole[|form| + 1..];
    }
  }

  lemma NotInWord(form: string, u: string, e: char, v: string)
    requires e !in form
    ensures form != u + ([e] + v)
  {
    var whole := u + ([e] + v);
    assert whole[|u|] == e && e in whole;
  }

  /** The text as a word, a delimiter and the rest, when its result has a delimiter. */
  lemma CutFirstWord(text: string, testsDir: string, left: bool, right: bool, u: string, e: char, v: string)
    returns (word: string, d: char, rest: string)
    requires IsDelimiter(e) && e !in testsDir && RewriteWords(text, testsDir, left, right) == u + ([e] + v)
    ensures IsUndelimited(word) && IsDelimiter(d) && text == word + ([d] + rest)
  {
    if IsUndelimited(text) {
      RewriteWord(text, testsDir, left, right);
      FormHasNo(text, testsDir, left, right, e);
      NotInWord(RewriteWords(text, testsDir, left, right), u, e, v);
    }
    word, d, rest := CutDelimited(text);
  }

  /**
   * Every delimiter of the result that the tests directory does not have is one of the text, and the two
   * sides are rewritten on their own.
   */
  lemma {:induction false} FindDelimiter(text: string, testsDir: string, left: bool, right: bool, u: string, e: char, v: string)
    returns (a: string, b: string)
    requires IsDelimiter(e) && e !in testsDir && RewriteWords(text, testsDir, left, right) == u + ([e] + v)
    ensures text == a + ([e] + b)
    ensures RewriteWords(a, testsDir, left, IsRight(e)) == u && RewriteWords(b, testsDir, IsLeft(e), right) == v
    decreases |text|
  {
    var word, d, rest := CutFirstWord(text, testsDir, left, right, u, e, v);
    RewriteFirstWord(word, d, rest, testsDir, left, right);
    var form := WordForm(word, testsDir, left, IsRight(d));
    FormHasNo(word, testsDir, left, IsRight(d), e);
    CutAgain(form, d, RewriteWords(rest, testsDir, IsLeft(d), right), u, e, v);
    if |u| == |form| {
      a, b := word, rest;
      RewriteWord(word, testsDir, left, IsRight(d));
    } else {
      a, b := FindDelimiter(rest, testsDir, IsLeft(d), right, u[|form| + 1..], e, v);
      RewriteFirstWord(word, d, a, testsDir, left, IsRight(e));
      MoveIn(word, d, a, [e] + b);
      a := word + ([d] + a);
    }
  }

  /* Words that come out without a slash. */

  predicate IsSlashFree(s: string) {
    forall k :: 0 <= k < |s| ==> s[k] != '/'
  }

  lemma SlashFreeStarts(v: string)
    requires IsSlashFree(v)
    ensures !StartsWith(v, "/root/") && !StartsWith(v, "/app/")
  {
    assert "/root/"[0] == '/' && "/app/"[0] == '/';
    assert |v| > 0 ==> v[0] != '/';
  }

  lemma WorkPathHasSlash(u: string)
    ensures IsWorkPath(u) ==> !IsSlashFree(u) && !IsSlashFree("." + u)
  {
    assert "/workspace/"[0] == '/' && "/output/"[0] == '/' && "/data/"[0] == '/' && "/logs/"[0] == '/';
    assert |u| > 0 ==> ("." + u)[1] == u[0];
  }

  lemma TestsHaveSlash(u: string, testsDir: string)
    requires StartsWith(u, "/tests/")
    ensures !IsSlashFree(u) && !IsSlashFree(testsDir + u[|"/tests"|..])
  {
    assert u[6] == "/tests/"[6] == '/';
    assert (testsDir + u[6..])[|testsDir|] == u[6];
  }

  lemma SlashFreePrefixForm(w: string, testsDir: string, v: string)
    requires IsSlashFree(v)
    ensures PrefixForm(w, testsDir) == v <==> IsBehindRoots(w, v)
  {
    SlashFreeStarts(v);
    WithoutRootsIs(w, v);
    var u := WithoutRoots(w);
    WorkPathHasSlash(u);
    if StartsWith(u, "/tests/") {
      TestsHaveSlash(u, testsDir);
    }
  }

  /** Words that come out as `v`, between delimiters that start and end a token. */
  predicate Becomes(w: string, testsDir: string, v: string) {
    || IsBehindRoots(w, v)
    || (v == "" && (w == "/root" || w == "/app"))
    || (w == "/tests" && IsBehindRoots(testsDir, v))
  }

  lemma BehindRootsHasSlash(w: string, v: string)
    requires IsBehindRoots(w, v) && w != v
    ensures |w| >= |v| + 5 && (w[4] == '/' || w[5] == '/')
  {
    assert "/app/"[4] == '/' && "/root/"[5] == '/' && "/root//app/"[5] == '/';
  }

  /** For results of one word, whatever the tests directory. */
  lemma SlashFreeForm(w: string, testsDir: string, v: string)
    requires IsSlashFree(v) && IsUndelimited(v)
    ensures WordForm(w, testsDir, true, true) == v <==> Becomes(w, testsDir, v)
  {
    if w == "/tests" && !IsUndelimited(testsDir) {
      DelimitersStay(testsDir, true, true, PrefixFormOf(testsDir));
      if IsBehindRoots(testsDir, v) {
        BehindRootsIsUndelimited(testsDir, v);
      }
      TestsAreNotBehindRoots(v);
    } else {
      PlainSlashFreeForm(w, testsDir, v);
    }
  }

  lemma TestsAreNotBehindRoots(v: string)
    requires IsSlashFree(v)
    ensures !IsBehindRoots("/tests", v)
  {
    if IsBehindRoots("/tests", v) {
      assert "/tests"[0] == '/';
      BehindRootsHasSlash("/tests", v);
    }
  }

  lemma PlainSlashFreeForm(w: string, testsDir: string, v: string)
    requires IsSlashFree(v) && (w == "/tests" ==> IsUndelimited(testsDir))
    ensures WordForm(w, testsDir, true, true) == v <==> Becomes(w, testsDir, v)
  {
    if w == "/tests" {
      TestsForm(testsDir);
    }
    SlashFreePrefixForm(TokenForm(w, testsDir), testsDir, v);
    if IsToken(w) {
      TokenSlashes(w);
      if IsBehindRoots(w, v) && w != v {
        BehindRootsHasSlash(w, v);
      }
      ShortForms(w, testsDir, v);
    }
  }

  lemma ShortForms(w: string, testsDir: string, v: string)
    requires IsToken(w) && IsSlashFree(v)
    ensures w != "/tests" ==> (IsBehindRoots(TokenForm(w, testsDir), v) <==> v == "" && (w == "/root" || w == "/app"))
  {
    if w != "/tests" {
      var form := TokenForm(w, testsDir);
      TokenSlashes(w);
      assert form != "" ==> form == "." + w && form[1] == '/' && forall k :: 1 < k < |form| ==> form[k] == w[k - 1];
      if IsBehindRoots(form, v) && form != v {
        BehindRootsHasSlash(form, v);
      }
    }
  }

  lemma RewrittenIs(text: string, testsDir: string, v: string)
    requires IsSlashFree(v) && IsUndelimited(v)
    ensures RewriteWords(text, testsDir, true, true) == v <==> IsUndelimited(text) && Becomes(text, testsDir, v)
  {
    DelimitersStay(text, true, true, FormOf(testsDir));
    if IsUndelimited(text) {
      RewriteWord(text, testsDir, true, true);
      SlashFreeForm(text, testsDir, v);
    }
  }

  /* Words that end in something without a slash. */

  lemma EndsBehindSlash(a: string, b: string, e: string)
    requires IsSlashFree(e) && a != "" && a[|a| - 1] == '/'
    ensures EndsWith(a + b, e) <==> EndsWith(b, e)
  {
    var s := a + b;
    assert s[|a| - 1] == '/';
    assert |e| <= |b| ==> s[|s| - |e|..] == b[|b| - |e|..];
    assert |b| < |e| <= |s| ==> s[|s| - |e|..][|e| - |b| - 1] == s[|a| - 1];
  }

  lemma EndsStripped(w: string, prefix: string, e: string)
    requires IsSlashFree(e) && prefix != "" && prefix[|prefix| - 1] == '/'
    ensures EndsWith(Strip(w, prefix), e) <==> EndsWith(w, e)
  {
    if StartsWith(w, prefix) {
      assert w == prefix + w[|prefix|..];
      EndsBehindSlash(prefix, w[|prefix|..], e);
    }
  }

  lemma SlashInside(a: string, b: string, c: string, e: string)
    requires IsSlashFree(e)
    ensures EndsWith(a + ("/" + c), e) <==> EndsWith(b + ("/" + c), e)
  {
    assert a + ("/" + c) == (a + "/") + c && b + ("/" + c) == (b + "/") + c;
    EndsBehindSlash(a + "/", c, e);
    EndsBehindSlash(b + "/", c, e);
  }

  lemma PrefixFormEndsWith(w: string, testsDir: string, e: string)
    requires IsSlashFree(e)
    ensures EndsWith(PrefixForm(w, testsDir), e) <==> EndsWith(w, e)
  {
    var u := WithoutRoots(w);
    EndsStripped(w, "/root/", e);
    EndsStripped(Strip(w, "/root/"), "/app/", e);
    if IsWorkPath(u) {
      WorkPathStarts(u);
      DottedEndsWith(u, e);
    } else if StartsWith(u, "/tests/") {
      assert u[6] == "/tests/"[6] == '/';
      assert forall k :: 0 <= k < 6 ==> u[k] == "/tests/"[k] == "/tests"[k];
      assert u == "/tests" + ("/" + u[7..]) && testsDir + u[6..] == testsDir + ("/" + u[7..]);
      SlashInside("/tests", testsDir, u[7..], e);
    }
  }

  lemma WorkPathStarts(u: string)
    requires IsWorkPath(u)
    ensures u != "" && u[0] == '/'
  {
    assert "/workspace/"[0] == '/' && "/output/"[0] == '/' && "/data/"[0] == '/' && "/logs/"[0] == '/';
  }

  /** No token ends like this. */
  ghost predicate IsNoTokenEnd(e: string) {
    e != "" && IsSlashFree(e) && IsUndelimited(e) && forall w :: IsToken(w) ==> !EndsWith(w, e)
  }

  lemma FormEndsWith(w: string, testsDir: string, left: bool, right: bool, e: string)
    requires IsNoTokenEnd(e)
    ensures EndsWith(WordForm(w, testsDir, left, right), e) <==>
              EndsWith(w, e) || (left && right && w == "/tests" && EndsWith(testsDir, e))
  {
    PrefixFormEndsWith(w, testsDir, e);
    PrefixFormEndsWith(TokenForm(w, testsDir), testsDir, e);
    TokenFormEndsWith(w, testsDir, e);
    PrefixTextEndsWith(testsDir, testsDir, e, true);
  }

  lemma {:induction false} PrefixTextEndsWith(text: string, testsDir: string, e: string, left: bool)
    requires IsSlashFree(e) && IsUndelimited(e)
    ensures EndsWith(RewriteBy(text, left, true, PrefixFormOf(testsDir)), e) <==> EndsWith(text, e)
    decreases |text|
  {
    var f := PrefixFormOf(testsDir);
    if IsUndelimited(text) {
      RewriteByWord(text, left, true, f);
      PrefixFormEndsWith(text, testsDir, e);
    } else {
      var word, d, rest := CutDelimited(text);
      RewriteByFirstWord(word, d, rest, left, true, f);
      PrefixTextEndsWith(rest, testsDir, e, IsLeft(d));
      EndsBehindDelimiter(word, d, rest, e);
      EndsBehindDelimiter(f(word, left, IsRight(d)), d, RewriteBy(rest, IsLeft(d), true, f), e);
    }
  }

  lemma TokenFormEndsWith(w: string, testsDir: string, e: string)
    requires IsNoTokenEnd(e)
    ensures w != "/tests" ==> (EndsWith(TokenForm(w, testsDir), e) <==> EndsWith(w, e))
    ensures w == "/tests" ==> !EndsWith(w, e)
  {
    if IsToken(w) {
      TokenSlashes(w);
      DottedEndsWith(w, e);
    }
  }

  lemma DottedEndsWith(w: string, e: string)
    requires IsSlashFree(e) && w != "" && w[0] == '/'
    ensures EndsWith("." + w, e) <==> EndsWith(w, e)
  {
    assert w == "" + ("/" + w[1..]) && "." + w == "." + ("/" + w[1..]);
    SlashInside("", ".", w[1..], e);
  }

  /* Texts that end in something without a slash. */

  lemma EndsBehindDelimiter(a: string, d: char, b: string, e: string)
    requires IsUndelimited(e) && IsDelimiter(d)
    ensures EndsWith(a + ([d] + b), e) <==> EndsWith(b, e)
  {
    var s := a + ([d] + b);
    assert s[|a|] == d && |s| == |a| + 1 + |b|;
    assert |e| <= |b| ==> s[|s| - |e|..] == b[|b| - |e|..];
    assert |b| < |e| <= |s| ==> s[|s| - |e|..][|e| - |b| - 1] == d;
  }

  /** The text ends in the token `/tests`. */
  predicate EndsInTests(text: string, left: bool) {
    EndsWith(text, "/tests") && if |text| == 6 then left else IsLeft(text[|text| - 7])
  }

  lemma WordEndsInTests(word: string, left: bool)
    requires IsUndelimited(word)
    ensures EndsInTests(word, left) <==> left && word == "/tests"
  {
    if |word| == 6 {
      assert word[0..] == word;
    }
  }

  lemma RestEndsInTests(word: string, d: char, rest: string, left: bool)
    requires IsDelimiter(d)
    ensures EndsInTests(word + ([d] + rest), left) <==> EndsInTests(rest, IsLeft(d))
  {
    LowerCaseIsUndelimited("/tests");
    EndsBehindDelimiter(word, d, rest, "/tests");
    var text := word + ([d] + rest);
    assert |rest| == 6 ==> text[|text| - 7] == d;
    assert |rest| > 6 ==> text[|text| - 7] == rest[|rest| - 7];
  }

  /** The result ends like the text does, or like the tests directory where that is put in last. */
  lemma {:induction false} RewrittenEndsWith(text: string, testsDir: string, left: bool, right: bool, e: string)
    requires IsNoTokenEnd(e)
    ensures EndsWith(RewriteWords(text, testsDir, left, right), e) <==>
              EndsWith(text, e) || (right && EndsWith(testsDir, e) && EndsInTests(text, left))
    decreases |text|
  {
    if IsUndelimited(text) {
      RewriteWord(text, testsDir, left, right);
      FormEndsWith(text, testsDir, left, right, e);
      WordEndsInTests(text, left);
    } else {
      var word, d, rest := CutDelimited(text);
      RewriteFirstWord(word, d, rest, testsDir, left, right);
      RewrittenEndsWith(rest, testsDir, IsLeft(d), right, e);
      EndsBehindDelimiter(word, d, rest, e);
      EndsBehindDelimiter(WordForm(word, testsDir, left, IsRight(d)), d, RewriteWords(rest, testsDir, IsLeft(d), right), e);
      RestEndsInTests(word, d, rest, left);
    }
  }

  /* A call with one argument and a space before the quote, and the parenthesis after it. */

  /** A word that comes out as `z`, a space and one that comes out as nothing; or `/tests` for all of it. */
  ghost predicate IsArgument(s: string, testsDir: string, z: string) {
    || (exists w, x :: IsSpaced(s, testsDir, z, w, x))
    || (s == "/tests" && RewriteBy(testsDir, true, true, PrefixFormOf(testsDir)) == z + " ")
  }

  ghost predicate IsSpaced(s: string, testsDir: string, z: string, w: string, x: string) {
    && s == w + ([' '] + x)
    && IsUndelimited(w) && Becomes(w, testsDir, z)
    && IsUndelimited(x) && Becomes(x, testsDir, "")
  }

  lemma SpacedIsRewritten(s: string, testsDir: string, z: string, w: string, x: string)
    requires IsSlashFree(z) && IsUndelimited(z) && IsSpaced(s, testsDir, z, w, x)
    ensures RewriteWords(s, testsDir, true, true) == z + " "
  {
    RewriteAtDelimiter(w, ' ', x, testsDir, true, true);
    RewrittenIs(w, testsDir, z);
    RewrittenIs(x, testsDir, "");
    assert z + ([' '] + "") == z + " ";
  }

  lemma WordIsArgument(s: string, testsDir: string, z: string)
    requires IsSlashFree(z) && IsUndelimited(s)
    ensures RewriteWords(s, testsDir, true, true) == z + " " <==>
              s == "/tests" && RewriteBy(testsDir, true, true, PrefixFormOf(testsDir)) == z + " "
  {
    RewriteWord(s, testsDir, true, true);
    if s != "/tests" {
      TokenFormIsUndelimited(s, testsDir);
      SlashFreePrefixForm(TokenForm(s, testsDir), testsDir, z + " ");
      if IsBehindRoots(TokenForm(s, testsDir), z + " ") {
        SpaceIsBehindRoots(TokenForm(s, testsDir), z);
      }
    }
  }

  lemma SpaceIsBehindRoots(w: string, z: string)
    requires IsBehindRoots(w, z + " ")
    ensures ' ' in w
  {
    assert w[|w| - 1] == ' ';
  }

  lemma CutAtSpace(form: string, d: char, tail: string, z: string)
    requires IsDelimiter(d) && IsUndelimited(z) && form + ([d] + tail) == z + " "
    ensures form == z && d == ' ' && tail == ""
  {
    var whole := z + " ";
    assert whole[|form|] == d && |whole| == |z| + 1;
    assert forall k :: 0 <= k < |z| ==> whole[k] == z[k] && !IsDelimiter(whole[k]);
    assert whole[..|form|] == form && whole[..|z|] == z;
  }

  lemma WordsAreArgument(s: string, testsDir: string, z: string) returns (w: string, x: string)
    requires IsSlashFree(z) && IsUndelimited(z) && !IsUndelimited(s)
    requires RewriteWords(s, testsDir, true, true) == z + " "
    ensures IsSpaced(s, testsDir, z, w, x)
  {
    var d;
    w, d, x := CutDelimited(s);
    RewriteFirstWord(w, d, x, testsDir, true, true);
    var form, tail := WordForm(w, testsDir, true, IsRight(d)), RewriteWords(x, testsDir, IsLeft(d), true);
    CutAtSpace(form, d, tail, z);
    SlashFreeForm(w, testsDir, z);
    RewrittenIs(x, testsDir, "");
  }

  lemma ArgumentGives(s: string, testsDir: string, z: string)
    requires IsSlashFree(z) && IsUndelimited(z) && IsArgument(s, testsDir, z)
    ensures RewriteWords(s, testsDir, true, true) == z + " "
  {
    if w, x :| IsSpaced(s, testsDir, z, w, x) {
      SpacedIsRewritten(s, testsDir, z, w, x);
    } else {
      LowerCaseIsUndelimited("/tests");
      WordIsArgument(s, testsDir, z);
    }
  }

  lemma ArgumentIsRewritten(s: string, testsDir: string, z: string)
    requires IsSlashFree(z) && IsUndelimited(z)
    ensures RewriteWords(s, testsDir, true, true) == z + " " <==> IsArgument(s, testsDir, z)
  {
    if IsArgument(s, testsDir, z) {
      ArgumentGives(s, testsDir, z);
    } else if IsUndelimited(s) {
      WordIsArgument(s, testsDir, z);
    } else if RewriteWords(s, testsDir, true, true) == z + " " {
      var w, x := WordsAreArgument(s, testsDir, z);
    }
  }

  /** `pre` is a call of `f` with such an argument. */
  ghost predicate IsCall(pre: string, testsDir: string, f: string, z: string, p: string, s: string) {
    && pre == p + (['('] + s)
    && EndsWith(p, f)
    && IsArgument(s, testsDir, z)
  }

  lemma CallIsRewritten(pre: string, testsDir: string, f: string, z: string, p: string, s: string)
    requires IsNoTokenEnd(f) && IsSlashFree(z) && IsUndelimited(z)
    requires IsCall(pre, testsDir, f, z, p, s)
    ensures EndsWith(RewriteWords(pre, testsDir, true, true), f + (['('] + (z + " ")))
  {
    RewriteAtDelimiter(p, '(', s, testsDir, true, true);
    ArgumentIsRewritten(s, testsDir, z);
    RewrittenEndsWith(p, testsDir, true, false, f);
    AppendEnds(RewriteWords(p, testsDir, true, false), f, ['('] + (z + " "));
  }

  lemma AppendEnds(s: string, f: string, tail: string)
    ensures EndsWith(s, f) <==> EndsWith(s + tail, f + tail)
  {
    var a, b := s + tail, f + tail;
    if |f| <= |s| {
      assert a[|a| - |b|..] == s[|s| - |f|..] + tail;
      assert b[..|f|] == f && (s[|s| - |f|..] + tail)[..|f|] == s[|s| - |f|..];
    }
  }

  lemma CutEnd(s: string, part: string) returns (front: string)
    requires EndsWith(s, part)
    ensures s == front + part
  {
    front := s[..|s| - |part|];
  }

  lemma RewrittenIsCall(pre: string, testsDir: string, f: string, z: string) returns (p: string, s: string)
    requires '(' !in testsDir && IsNoTokenEnd(f) && IsSlashFree(z) && IsUndelimited(z)
    requires EndsWith(RewriteWords(pre, testsDir, true, true), f + (['('] + (z + " ")))
    ensures IsCall(pre, testsDir, f, z, p, s)
  {
    var whole := RewriteWords(pre, testsDir, true, true);
    var front := CutEnd(whole, f + (['('] + (z + " ")));
    AppendIsAssociative(front, f, ['('] + (z + " "));
    p, s := FindDelimiter(pre, testsDir, true, true, front + f, '(', z + " ");
    ArgumentIsRewritten(s, testsDir, z);
    RewrittenEndsWith(p, testsDir, true, false, f);
    FrontEnds(front, f);
  }

  lemma FrontEnds(front: string, f: string)
    ensures EndsWith(front + f, f)
  {
  }

  /** What stands behind the quote comes out as a closing parenthesis. */
  ghost predicate IsClosed(post: string, testsDir: string, w: string, y: string) {
    post == w + ([')'] + y) && IsUndelimited(w) && Becomes(w, testsDir, "")
  }

  lemma RewrittenStartsWithParenthesis(post: string, testsDir: string)
    requires ')' !in testsDir
    ensures StartsWith(RewriteWords(post, testsDir, true, true), ")") <==> exists w, y :: IsClosed(post, testsDir, w, y)
  {
    var whole := RewriteWords(post, testsDir, true, true);
    if StartsWith(whole, ")") {
      assert whole[0] == ")"[0];
      assert whole == "" + ([')'] + whole[1..]);
      var w, y := FindDelimiter(post, testsDir, true, true, "", ')', whole[1..]);
      RewrittenIs(w, testsDir, "");
      assert IsClosed(post, testsDir, w, y);
    }
    if w, y :| IsClosed(post, testsDir, w, y) {
      RewrittenIs(w, testsDir, "");
      RewriteAtDelimiter(w, ')', y, testsDir, true, true);
      assert whole[0] == ')';
    }
  }
}
