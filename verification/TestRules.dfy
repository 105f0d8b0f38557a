/**
 * The passes that rewrite the test files of a task so that its absolute paths become relative to the
 * work root (benchmark/skillsbench-collab/src/rewrite.ts:26-80).
 */
module TestRules {
  import opened Text
  import opened PathRules
  import opened Words
  import opened Deletions
  import opened Literals

  /* The regular-expression passes. */

  function TokenRules(testsDir: string): seq<Rule> {
    [Rule("/root", "", true),
     Rule("/app", "", true),
     Rule("/workspace", "./workspace", true),
     Rule("/output", "./output", true),
     Rule("/data", "./data", true),
     Rule("/logs", "./logs", true),
     Rule("/tests", testsDir, true)]
  }

  function PrefixRules(testsDir: string): seq<Rule> {
    [Rule("/root/", "", false),
     Rule("/app/", "", false),
     Rule("/workspace/", "./workspace/", false),
     Rule("/output/", "./output/", false),
     Rule("/data/", "./data/", false),
     Rule("/logs/", "./logs/", false),
     Rule("/tests/", testsDir + "/", false)]
  }

  function AllRules(testsDir: string): seq<Rule> {
    TokenRules(testsDir) + PrefixRules(testsDir)
  }

  lemma LowerCaseIsPathRule(rule: Rule)
    requires rule.src != "" && rule.src[0] == '/'
    requires forall i :: 0 <= i < |rule.src| ==> rule.src[i] == '/' || 'a' <= rule.src[i] <= 'z'
    ensures IsPathRule(rule)
  {
  }

  lemma TokenRulesArePathRules(testsDir: string)
    ensures ArePathRules(TokenRules(testsDir))
  {
    var rules := TokenRules(testsDir);
    LowerCaseIsPathRule(rules[0]);
    LowerCaseIsPathRule(rules[1]);
    LowerCaseIsPathRule(rules[2]);
    LowerCaseIsPathRule(rules[3]);
    LowerCaseIsPathRule(rules[4]);
    LowerCaseIsPathRule(rules[5]);
    LowerCaseIsPathRule(rules[6]);
  }

  lemma PrefixRulesArePathRules(testsDir: string)
    ensures ArePathRules(PrefixRules(testsDir))
  {
    var rules := PrefixRules(testsDir);
    LowerCaseIsPathRule(rules[0]);
    LowerCaseIsPathRule(rules[1]);
    LowerCaseIsPathRule(rules[2]);
    LowerCaseIsPathRule(rules[3]);
    LowerCaseIsPathRule(rules[4]);
    LowerCaseIsPathRule(rules[5]);
    LowerCaseIsPathRule(rules[6]);
  }

  lemma AllRulesArePathRules(testsDir: string)
    ensures ArePathRules(AllRules(testsDir))
  {
    TokenRulesArePathRules(testsDir);
    PrefixRulesArePathRules(testsDir);
  }

  /* Instructions. */

  /** `/root/` loses its prefix, so that paths become relative to the workspace root. */
  function RewriteInstruction(instruction: string): string {
    Replace(instruction, Rule("/root/", "", false))
  }

  /**
   * An instruction keeps no `/root/` exactly when it has none doubled: of `/root//root/` the second
   * is left.
   */
  lemma InstructionKeepsOnlyDoubledRoots(instruction: string)
    ensures
      var rule := Rule("/root/", "", false);
      (exists k: nat :: MatchesAt(RewriteInstruction(instruction), rule, k)) <==>
      (exists j: nat :: MatchesAt(instruction, rule, j) && OccursAt(instruction, rule.src, j + |rule.src|))
  {
    var rule := Rule("/root/", "", false);
    LowerCaseIsPathRule(rule);
    DeletionIsCompleteUnlessDoubled(instruction, rule);
    assert RewriteInstruction(instruction) == Replace(instruction, rule);
  }

  lemma LowerCaseIsNotLeft(s: string)
    requires forall i :: 0 <= i < |s| ==> s[i] == '/' || 'a' <= s[i] <= 'z'
    ensures forall i :: 0 <= i < |s| ==> !IsLeft(s[i])
  {
  }

  lemma StartIsDeleted(src: string, tail: string)
    requires src != "" && src[0] == '/'
    requires forall i :: 0 <= i < |src| ==> src[i] == '/' || 'a' <= src[i] <= 'z'
    requires forall i :: 0 <= i < |tail| ==> tail[i] == '/' || 'a' <= tail[i] <= 'z'
    ensures Replace(src + tail, Rule(src, "", false)) == tail
  {
    var text, rule := src + tail, Rule(src, "", false);
    LowerCaseIsPathRule(rule);
    LowerCaseIsNotLeft(text);
    assert forall k :: 0 <= k < |src| ==> text[0 + k] == src[k];
    ReplaceUndelimited(text, rule);
    assert text[|src|..] == tail;
  }

  /** Such an instruction, and what is left of it. */
  lemma DoubledRootIsKept()
    ensures RewriteInstruction("/root//root/x") == "/root/x"
  {
    StartIsDeleted("/root/", "/root/x");
    assert "/root/" + "/root/x" == "/root//root/x";
  }

  /* The literal replacements. */

  const INSERT := "sys.path.insert(0, "
  const CWD := "cwd="

  /** The literals, with the constants they are made of left open. */
  function LiteralsOf(
    insert: string, cwd: string, source: string, workspace: string, root: string, sourceDir: string, workDir: string)
    : seq<Literal>
  {
    [PathLiteral(insert, '"', source, sourceDir, ")"),
     PathLiteral(insert, '\'', source, sourceDir, ")"),
     PathLiteral(insert, '"', workspace, workDir, ")"),
     PathLiteral(insert, '\'', workspace, workDir, ")"),
     PathLiteral(insert, '"', root, workDir, ")"),
     PathLiteral(insert, '\'', root, workDir, ")"),
     PathLiteral(cwd, '\'', root, workDir, ""),
     PathLiteral(cwd, '"', root, workDir, "")]
  }

  function TestLiterals(testsDir: string, workDir: string): seq<Literal> {
    LiteralsOf(INSERT, CWD, "/tests/src", "/root/workspace", "/root", testsDir + "/src", workDir)
  }

  predicate IsLiteralPath(path: string) {
    path == "/root" || path == "/root/workspace" || path == "/tests/src"
  }

  lemma ConstantsArePlain()
    ensures IsPlain(INSERT) && IsPlain(CWD) && IsPlain("/tests/src") && IsPlain("/root/workspace") && IsPlain("/root")
  {
  }

  function PathOfLiteral(source: string, workspace: string, root: string, i: nat): string {
    if i < 2 then source else if i < 4 then workspace else root
  }

  lemma LiteralAt(
    insert: string, cwd: string, source: string, workspace: string, root: string, sourceDir: string, workDir: string, i: nat)
    requires i < 8
    ensures
      var quote := if i == 0 || i == 2 || i == 4 || i == 7 then '"' else '\'';
      var other := if i < 2 then sourceDir else workDir;
      LiteralsOf(insert, cwd, source, workspace, root, sourceDir, workDir)[i] ==
      PathLiteral(
        if i < 6 then insert else cwd, quote, PathOfLiteral(source, workspace, root, i), other, if i < 6 then ")" else "")
  {
  }

  lemma LiteralsOfQuotePaths(
    insert: string, cwd: string, source: string, workspace: string, root: string, sourceDir: string, workDir: string, i: nat)
    requires i < 8 && IsPlain(insert) && IsPlain(cwd)
    requires IsPlain(source) && source[0] == '/'
    requires IsPlain(workspace) && workspace[0] == '/'
    requires IsPlain(root) && root[0] == '/'
    ensures
      var l, head := LiteralsOf(insert, cwd, source, workspace, root, sourceDir, workDir)[i], if i < 6 then insert else cwd;
      var path := PathOfLiteral(source, workspace, root, i);
      var n, m := |head|, |head| + 1 + |path|;
      QuotesPath(l, n, m) && l.src[..n] == head && l.src[n + 1..m] == path
  {
    var head, path := if i < 6 then insert else cwd, PathOfLiteral(source, workspace, root, i);
    var quote, other := if i == 0 || i == 2 || i == 4 || i == 7 then '"' else '\'', if i < 2 then sourceDir else workDir;
    var after := if i < 6 then ")" else "";
    PathLiteralQuotesPath(head, quote, path, other, after);
    assert LiteralsOf(insert, cwd, source, workspace, root, sourceDir, workDir)[i] ==
           PathLiteral(head, quote, path, other, after) by {
      LiteralAt(insert, cwd, source, workspace, root, sourceDir, workDir, i);
    }
  }

  /** Every literal quotes one of the three paths, behind `sys.path.insert(0, ` or `cwd=`. */
  lemma TestLiteralQuotesPath(testsDir: string, workDir: string, i: nat) returns (head: nat, end: nat)
    requires i < 8
    ensures |TestLiterals(testsDir, workDir)| == 8
    ensures
      var l := TestLiterals(testsDir, workDir)[i];
      QuotesPath(l, head, end) && (l.src[..head] == INSERT || l.src[..head] == CWD) && IsLiteralPath(l.src[head + 1..end])
  {
    var path := PathOfLiteral("/tests/src", "/root/workspace", "/root", i);
    assert IsLiteralPath(path);
    ConstantsArePlain();
    LiteralsOfQuotePaths(INSERT, CWD, "/tests/src", "/root/workspace", "/root", testsDir + "/src", workDir, i);
    head := if i < 6 then |INSERT| else |CWD|;
    end := head + 1 + |path|;
  }

  lemma QuotesAreUnique(l: Literal, head: nat, end: nat, head': nat, end': nat)
    requires QuotesPath(l, head, end) && QuotesPath(l, head', end')
    ensures head == head' && end == end'
  {
    assert IsQuote(l.src[head']) && IsQuote(l.src[end']);
  }

  lemma TestLiteralsArePathLiterals(testsDir: string, workDir: string)
    ensures forall i :: 0 <= i < |TestLiterals(testsDir, workDir)| ==>
              TestLiterals(testsDir, workDir)[i].src != "" && IsPathLiteral(TestLiterals(testsDir, workDir)[i])
  {
    forall i: nat | i < 8
      ensures IsPathLiteral(TestLiterals(testsDir, workDir)[i])
    {
      var _, _ := TestLiteralQuotesPath(testsDir, workDir, i);
    }
  }

  /** A content that no literal is for is cut off by its quote, unless a literal could close in it. */
  lemma OtherContentsAreCut(x: string, p: string, testsDir: string, workDir: string)
    requires IsQuotable(p) && !IsLiteralPath(p)
    requires x != "" && (x[|x| - 1] == ')' || (IsQuote(x[|x| - 1]) && (p == "" || p[0] != ')')))
    ensures forall i :: 0 <= i < |TestLiterals(testsDir, workDir)| ==> IsCut(x, p, TestLiterals(testsDir, workDir)[i])
  {
    forall i: nat | i < 8
      ensures IsCut(x, p, TestLiterals(testsDir, workDir)[i])
    {
      var l := TestLiterals(testsDir, workDir)[i];
      var n, m := TestLiteralQuotesPath(testsDir, workDir, i);
      forall head: nat, end: nat | QuotesPath(l, head, end)
        ensures p != l.src[head + 1..end]
      {
        QuotesAreUnique(l, n, m, head, end);
      }
    }
  }

  lemma LeadsOnlyToConstants(p: string, testsDir: string, workDir: string)
    requires !EndsWith(p, CWD) && !EndsWith(p, INSERT)
    ensures forall i :: 0 <= i < |TestLiterals(testsDir, workDir)| ==> DoesNotLeadTo(p, TestLiterals(testsDir, workDir)[i])
  {
    forall i: nat | i < 8
      ensures DoesNotLeadTo(p, TestLiterals(testsDir, workDir)[i])
    {
      var l := TestLiterals(testsDir, workDir)[i];
      var n, m := TestLiteralQuotesPath(testsDir, workDir, i);
      forall head: nat, end: nat | QuotesPath(l, head, end)
        ensures !EndsWith(p, l.src[..head])
      {
        QuotesAreUnique(l, n, m, head, end);
      }
    }
  }

  /** The rewritten test file. */
  function Rewritten(text: string, testsDir: string, workDir: string): string {
    SwapAll(ReplaceAll(text, AllRules(testsDir)), TestLiterals(testsDir, workDir))
  }

  method ApplyRules(text: string, rules: seq<Rule>) returns (rewritten: string)
    requires forall i :: 0 <= i < |rules| ==> rules[i].src != ""
    ensures rewritten == ReplaceAll(text, rules)
  {
    rewritten := text;
    for i := 0 to |rules|
      invariant ReplaceAll(text, rules) == ReplaceAll(rewritten, rules[i..])
    {
      rewritten := Replace(rewritten, rules[i]);
      assert rules[i..][1..] == rules[i + 1..];
    }
    assert rules[|rules|..] == [];
  }

  method ApplyLiterals(text: string, literals: seq<Literal>) returns (rewritten: string)
    requires forall i :: 0 <= i < |literals| ==> literals[i].src != ""
    ensures rewritten == SwapAll(text, literals)
  {
    rewritten := text;
    for i := 0 to |literals|
      invariant SwapAll(text, literals) == SwapAll(rewritten, literals[i..])
    {
      rewritten := Swap(rewritten, literals[i]);
      assert literals[i..][1..] == literals[i + 1..];
    }
    assert literals[|literals|..] == [];
  }

  /** Three loops, each over the text the one before it left. */
  method RewriteTestText(text: string, testsDir: string, workDir: string) returns (rewritten: string)
    ensures rewritten == Rewritten(text, testsDir, workDir)
  {
    AllRulesArePathRules(testsDir);
    TokenRulesArePathRules(testsDir);
    PrefixRulesArePathRules(testsDir);
    rewritten := ApplyRules(text, TokenRules(testsDir));
    rewritten := ApplyRules(rewritten, PrefixRules(testsDir));
    ReplaceAllInTurn(text, TokenRules(testsDir), PrefixRules(testsDir), true, true);
    rewritten := ApplyLiterals(rewritten, TestLiterals(testsDir, workDir));
  }
}
