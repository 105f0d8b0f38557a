/**
 * Recognising a UUID by splitting it at its hyphens (crates/installer/src/contract.rs:537-552).
 * Strings are sequences of bytes, one character each.
 */
module RequestId {
  import opened Text

  predicate IsHexDigit(c: char) {
    '0' <= c <= '9' || 'a' <= c <= 'f' || 'A' <= c <= 'F'
  }

  predicate IsHex(s: string) {
    forall i :: 0 <= i < |s| ==> IsHexDigit(s[i])
  }

  const LENGTHS: seq<nat> := [8, 4, 4, 4, 12]

  /** The recogniser. */
  predicate IsRequestId(value: string) {
    var groups := Split(value, '-');
    && |groups| == |LENGTHS|
    && (forall i :: 0 <= i < |LENGTHS| ==> |groups[i]| == LENGTHS[i] && IsHex(groups[i]))
    && groups[2][0] in "12345678"
    && groups[3][0] in "89abAB"
  }

  /** The text layout of section 4 of RFC 9562, position by position. */
  predicate IsUuid(value: string) {
    && |value| == 36
    && (forall i :: 0 <= i < 36 ==>
          if i in {8, 13, 18, 23} then value[i] == '-' else IsHexDigit(value[i]))
    && value[14] in "12345678"  // the version, section 4.2
    && value[19] in "89abAB"    // the variant, section 4.1
  }

  lemma JoinFive(groups: seq<string>)
    requires |groups| == 5 && forall i :: 0 <= i < 5 ==> |groups[i]| == LENGTHS[i]
    ensures Join(groups, '-') == groups[0] + ("-" + (groups[1] + ("-" + (groups[2] + ("-" + (groups[3] + ("-" + groups[4])))))))
    ensures |Join(groups, '-')| == 36
  {
    var last := groups[4..];
    assert Join(last, '-') == groups[4];
    var two := groups[3..];
    assert two[1..] == last && Join(two, '-') == groups[3] + ("-" + groups[4]);
    var three := groups[2..];
    assert three[1..] == two && Join(three, '-') == groups[2] + ("-" + Join(two, '-'));
    var four := groups[1..];
    assert four[1..] == three && Join(four, '-') == groups[1] + ("-" + Join(three, '-'));
    assert Join(groups, '-') == groups[0] + ("-" + Join(four, '-'));
  }

  /** For every string, the split-based recogniser accepts exactly the UUIDs. */
  lemma RequestIdsAreUuids(value: string)
    ensures IsRequestId(value) <==> IsUuid(value)
  {
    JoinSplit(value, '-');
    if IsRequestId(value) {
      JoinFive(Split(value, '-'));
    }
    if IsUuid(value) {
      CutUuid(value);
    }
  }

  lemma CutUuid(value: string)
    requires IsUuid(value)
    ensures Split(value, '-') == [value[..8], value[9..13], value[14..18], value[19..23], value[24..]]
  {
    var cut := [value[..8], value[9..13], value[14..18], value[19..23], value[24..]];
    JoinFive(cut);
    assert value == Join(cut, '-');
    SplitJoin(cut, '-');
  }
}
