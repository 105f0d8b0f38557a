/**
 * What deleting a path prefix everywhere leaves of it (benchmark/skillsbench-collab/src/rewrite.ts:26-30).
 *
 * One pass deletes every prefix that is delimited in the original text. A doubled prefix then leaves
 * its second half behind, delimited by what stood before the first.
 */
module Deletions {
  import opened Text
  import opened Scans
  import opened PathRules

  ghost predicate IsDeletion(rule: Rule) {
    IsPathRule(rule) && rule.dst == "" && !rule.wholeToken
  }

  ghost predicate IsDelimited(text: string, i: nat)
    requires i <= |text|
  {
    i == 0 || IsLeft(text[i - 1])
  }

  /** The path starts at `k`; whether the start of the string is delimited depends on where it stands. */
  ghost predicate StartsPath(s: string, rule: Rule, k: nat, delimited: bool) {
    MatchesIn(s, rule.(wholeToken := false), k, delimited, true)
  }

  ghost predicate HasPath(s: string, rule: Rule, delimited: bool) {
    exists k: nat :: StartsPath(s, rule, k, delimited)
  }

  /** From `i` on, a delimited path with the same path right behind it. */
  ghost predicate HasDoubled(text: string, rule: Rule, i: nat) {
    exists j: nat :: i <= j && IsDoubledAt(text, rule, j)
  }

  ghost predicate IsDoubledAt(text: string, rule: Rule, j: nat) {
    MatchesAt(text, rule, j) && OccursAt(text, rule.src, j + |rule.src|)
  }

  /** Where the rule does not apply, the result goes on with the path exactly when the text does. */
  lemma ResultStartsWithPath(text: string, rule: Rule, i: nat)
    requires IsDeletion(rule) && i <= |text| && !MatchesAt(text, rule, i)
    ensures OccursAt(ReplaceFrom(text, rule, i), rule.src, 0) <==> OccursAt(text, rule.src, i)
  {
    var hits, length := HitsOf(text, rule), |rule.src|;
    var end := if i + length <= |text| then i + length else |text|;
    var first := FirstHit(hits, i, end);
    ScanCopies(text, hits, length, rule.dst, i, first);
    var rest := ReplaceFrom(text, rule, first);
    if first < end {
      assert IsLeft(text[first - 1]);
      CopiedIsNoPath(text, rule, i, first, rest);
    } else if end == |text| {
      ScanStep(text, hits, length, rule.dst, end);
      assert rest == "" && text[i..end] + rest == text[i..];
      CopiedIsPath(text, rule, i, end, "");
    } else {
      CopiedIsPath(text, rule, i, end, rest);
    }
  }

  /** Where a delimiter is copied within the length of the path there is no path, neither before nor after. */
  lemma CopiedIsNoPath(text: string, rule: Rule, i: nat, first: nat, rest: string)
    requires IsDeletion(rule) && i < first <= |text| && first <= i + |rule.src| && IsLeft(text[first - 1])
    ensures !OccursAt(text, rule.src, i) && !OccursAt(text[i..first] + rest, rule.src, 0)
  {
    var result, n := text[i..first] + rest, first - i;
    assert result[n - 1] == text[i + (n - 1)] && !IsLeft(rule.src[n - 1]);
  }

  /** What is copied as far as the path goes, or to the end of the text, has it where the text has it. */
  lemma CopiedIsPath(text: string, rule: Rule, i: nat, end: nat, rest: string)
    requires i <= end <= |text| && (end == i + |rule.src| || (end == |text| && rest == "" && end < i + |rule.src|))
    ensures OccursAt(text[i..end] + rest, rule.src, 0) <==> OccursAt(text, rule.src, i)
  {
    var result := text[i..end] + rest;
    assert forall k :: 0 <= k < end - i ==> result[k] == text[i + k];
  }

  lemma HasPathBehind(c: char, s: string, rule: Rule, delimited: bool)
    ensures HasPath([c] + s, rule, delimited) <==>
              (delimited && OccursAt([c] + s, rule.src, 0)) || HasPath(s, rule, IsLeft(c))
  {
    var t := [c] + s;
    if delimited && OccursAt(t, rule.src, 0) {
      assert StartsPath(t, rule, 0, delimited);
    }
    if k: nat :| StartsPath(s, rule, k, IsLeft(c)) {
      OccursBehind([c], s, rule.src, k);
      assert StartsPath(t, rule, k + 1, delimited);
    }
    if k: nat :| StartsPath(t, rule, k, delimited) && k > 0 {
      OccursBehind([c], s, rule.src, k - 1);
      assert StartsPath(s, rule, k - 1, IsLeft(c));
    }
  }

  lemma NextDoubled(text: string, rule: Rule, i: nat)
    requires IsDeletion(rule)
    ensures !MatchesAt(text, rule, i) ==> (HasDoubled(text, rule, i) <==> HasDoubled(text, rule, i + 1))
    ensures MatchesAt(text, rule, i) ==>
              (HasDoubled(text, rule, i) <==>
                 OccursAt(text, rule.src, i + |rule.src|) || HasDoubled(text, rule, i + |rule.src|))
  {
    if j: nat :| i <= j && IsDoubledAt(text, rule, j) {
      if MatchesAt(text, rule, i) && i < j {
        MatchesAreApart(text, rule, i, j);
      }
    }
    if MatchesAt(text, rule, i) && OccursAt(text, rule.src, i + |rule.src|) {
      assert IsDoubledAt(text, rule, i);
    }
  }

  /** The scan has just deleted a path that ended at `i`. */
  ghost predicate IsBehindDeleted(text: string, rule: Rule, i: nat) {
    i >= |rule.src| && MatchesAt(text, rule, i - |rule.src|)
  }

  lemma NotDelimitedBehindDeleted(text: string, rule: Rule, i: nat)
    requires IsDeletion(rule) && i <= |text| && IsBehindDeleted(text, rule, i)
    ensures !IsDelimited(text, i) && !MatchesAt(text, rule, i)
  {
    var n := |rule.src|;
    assert text[i - n + (n - 1)] == rule.src[n - 1];
  }

  /** What is left of the text from `i` on, in terms of the original text. */
  ghost predicate LeavesDoubled(text: string, rule: Rule, i: nat, deleted: bool)
    requires rule.src != "" && i <= |text|
  {
    HasPath(ReplaceFrom(text, rule, i), rule, deleted || IsDelimited(text, i)) <==>
    HasDoubled(text, rule, i) || (deleted && OccursAt(text, rule.src, i))
  }

  lemma LeftOfMatch(text: string, rule: Rule, i: nat)
    requires IsDeletion(rule) && i < |text| && MatchesAt(text, rule, i)
    requires LeavesDoubled(text, rule, i + |rule.src|, true)
    ensures LeavesDoubled(text, rule, i, false)
  {
    ReplaceStep(text, rule, i);
    assert ReplaceFrom(text, rule, i) == ReplaceFrom(text, rule, i + |rule.src|);
    NextDoubled(text, rule, i);
  }

  lemma LeftOfOther(text: string, rule: Rule, i: nat, deleted: bool)
    requires IsDeletion(rule) && i < |text| && !MatchesAt(text, rule, i) && (deleted ==> !IsDelimited(text, i))
    requires LeavesDoubled(text, rule, i + 1, false)
    ensures LeavesDoubled(text, rule, i, deleted)
  {
    ReplaceStep(text, rule, i);
    ResultStartsWithPath(text, rule, i);
    HasPathBehind(text[i], ReplaceFrom(text, rule, i + 1), rule, deleted || IsDelimited(text, i));
    NextDoubled(text, rule, i);
  }

  lemma {:induction false} WhatIsLeft(text: string, rule: Rule, i: nat, deleted: bool)
    requires IsDeletion(rule) && i <= |text| && (deleted ==> IsBehindDeleted(text, rule, i))
    ensures LeavesDoubled(text, rule, i, deleted)
    decreases |text| - i
  {
    if deleted {
      NotDelimitedBehindDeleted(text, rule, i);
    }
    if i == |text| {
      assert !HasDoubled(text, rule, i);
    } else if MatchesAt(text, rule, i) {
      WhatIsLeft(text, rule, i + |rule.src|, true);
      LeftOfMatch(text, rule, i);
    } else {
      WhatIsLeft(text, rule, i + 1, false);
      LeftOfOther(text, rule, i, deleted);
    }
  }

  /** Deleting a prefix leaves none behind exactly when the text has none doubled. */
  lemma DeletionIsCompleteUnlessDoubled(text: string, rule: Rule)
    requires IsDeletion(rule)
    ensures (exists k: nat :: MatchesAt(Replace(text, rule), rule, k)) <==>
            (exists j: nat :: MatchesAt(text, rule, j) && OccursAt(text, rule.src, j + |rule.src|))
  {
    WhatIsLeft(text, rule, 0, false);
    MatchesArePaths(Replace(text, rule), rule);
    if j: nat :| MatchesAt(text, rule, j) && OccursAt(text, rule.src, j + |rule.src|) {
      assert IsDoubledAt(text, rule, j);
    }
  }

  lemma MatchesArePaths(s: string, rule: Rule)
    requires IsDeletion(rule)
    ensures HasPath(s, rule, true) <==> exists k: nat :: MatchesAt(s, rule, k)
  {
    if k: nat :| StartsPath(s, rule, k, true) {
      assert MatchesAt(s, rule, k);
    }
    if k: nat :| MatchesAt(s, rule, k) {
      assert StartsPath(s, rule, k, true);
    }
  }
}
