/** Strings: where one occurs in another, white space, and splitting at a separator. */
module Text {
  predicate OccursAt(s: string, part: string, i: int) {
    0 <= i <= |s| - |part| && forall k :: 0 <= k < |part| ==> s[i + k] == part[k]
  }

  predicate Contains(s: string, part: string) {
    exists i :: 0 <= i <= |s| && OccursAt(s, part, i)
  }

  predicate StartsWith(s: string, part: string) {
    OccursAt(s, part, 0)
  }

  lemma OccurringChars(s: string, part: string, i: nat)
    requires OccursAt(s, part, i)
    ensures forall k :: i <= k < i + |part| ==> s[k] == part[k - i]
  {
    forall k | i <= k < i + |part|
      ensures s[k] == part[k - i]
    {
      assert s[i..i + |part|][k - i] == s[k];
    }
  }

  lemma OccursBehind(a: string, b: string, part: string, i: nat)
    ensures OccursAt(a + b, part, |a| + i) <==> OccursAt(b, part, i)
  {
    if i + |part| <= |b| {
      assert (a + b)[|a| + i..|a| + i + |part|] == b[i..i + |part|];
    }
  }

  lemma OccursBefore(a: string, b: string, part: string, i: nat)
    requires i + |part| <= |a|
    ensures OccursAt(a + b, part, i) <==> OccursAt(a, part, i)
  {
    assert (a + b)[i..i + |part|] == a[i..i + |part|];
  }

  /** White space and line terminators, as `\s` matches and `trim` removes them. */
  predicate IsSpace(c: char) {
    var n := c as int;
    || 9 <= n <= 13 || n == 32 || n == 0xA0 || n == 0x1680 || 0x2000 <= n <= 0x200A
    || n == 0x2028 || n == 0x2029 || n == 0x202F || n == 0x205F || n == 0x3000 || n == 0xFEFF
  }

  /** The pieces between the separators: one more than there are separators. */
  function Split(s: string, separator: char): (groups: seq<string>)
    ensures |groups| >= 1
  {
    if s == "" then [""]
    else
      var rest := Split(s[1..], separator);
      if s[0] == separator then [""] + rest else [[s[0]] + rest[0]] + rest[1..]
  }

  function Join(groups: seq<string>, separator: char): string
    requires |groups| >= 1
  {
    if |groups| == 1 then groups[0] else groups[0] + [separator] + Join(groups[1..], separator)
  }

  lemma {:induction false} JoinSplit(s: string, separator: char)
    ensures Join(Split(s, separator), separator) == s
    ensures forall g :: g in Split(s, separator) ==> separator !in g
  {
    if s != "" {
      JoinSplit(s[1..], separator);
      var rest := Split(s[1..], separator);
      assert s == [s[0]] + s[1..];
      if s[0] != separator && |rest| > 1 {
        assert ([[s[0]] + rest[0]] + rest[1..])[1..] == rest[1..];
      }
    }
  }

  lemma {:induction false} SplitJoin(groups: seq<string>, separator: char)
    requires |groups| >= 1 && forall g :: g in groups ==> separator !in g
    ensures Split(Join(groups, separator), separator) == groups
    decreases |groups|, |groups[0]|
  {
    var joined := Join(groups, separator);
    if groups[0] == "" {
      if |groups| > 1 {
        SplitJoin(groups[1..], separator);
        assert joined == [separator] + Join(groups[1..], separator);
        assert joined[1..] == Join(groups[1..], separator);
        assert groups == [""] + groups[1..];
      } else {
        assert groups == [""];
      }
    } else {
      var first, shorter := groups[0], [groups[0][1..]] + groups[1..];
      assert first[0] in first && first[0] != separator;
      ShorterGroups(groups, separator);
      SplitJoin(shorter, separator);
      assert joined == [first[0]] + Join(shorter, separator);
      assert joined[1..] == Join(shorter, separator);
      assert [first[0]] + shorter[0] == first && shorter[1..] == groups[1..];
      assert groups == [first] + groups[1..];
    }
  }

  lemma ShorterGroups(groups: seq<string>, separator: char)
    requires |groups| >= 1 && groups[0] != "" && forall g :: g in groups ==> separator !in g
    ensures forall g :: g in [groups[0][1..]] + groups[1..] ==> separator !in g
  {
    assert groups[0] in groups;
    forall g | g in [groups[0][1..]] + groups[1..]
      ensures separator !in g
    {
      if g == groups[0][1..] {
        assert forall c :: c in g ==> c in groups[0];
      } else {
        assert g in groups;
      }
    }
  }
}
