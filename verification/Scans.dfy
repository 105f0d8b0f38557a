/** Scanning a text from left to right and replacing what is hit; after a hit the scan goes on behind it. */
module Scans {
  /** Whether something is to be replaced at a position. */
  type Hits = nat -> bool

  function Scan(text: string, hits: Hits, length: nat, dst: string, i: nat): string
    requires length > 0
    decreases |text| - i
  {
    if i >= |text| then ""
    else if hits(i) then dst + Scan(text, hits, length, dst, i + length)
    else [text[i]] + Scan(text, hits, length, dst, i + 1)
  }

  lemma ScanStep(text: string, hits: Hits, length: nat, dst: string, i: nat)
    requires length > 0
    ensures
      Scan(text, hits, length, dst, i) ==
      if i >= |text| then ""
      else if hits(i) then dst + Scan(text, hits, length, dst, i + length)
      else [text[i]] + Scan(text, hits, length, dst, i + 1)
  {
  }

  ghost predicate GoesOn(text: string, hits: Hits, length: nat, dst: string, result: nat -> string, k: nat) {
    result(k) ==
    if k >= |text| then ""
    else if hits(k) then dst + result(k + length)
    else [text[k]] + result(k + 1)
  }

  /** What goes on like the scan is the scan. */
  lemma {:induction false} ScanIsUnique(text: string, hits: Hits, length: nat, dst: string, result: nat -> string, i: nat)
    requires length > 0
    requires forall k: nat :: GoesOn(text, hits, length, dst, result, k)
    ensures result(i) == Scan(text, hits, length, dst, i)
    decreases |text| - i
  {
    assert GoesOn(text, hits, length, dst, result, i);
    if i < |text| {
      if hits(i) {
        ScanIsUnique(text, hits, length, dst, result, i + length);
      } else {
        ScanIsUnique(text, hits, length, dst, result, i + 1);
      }
    }
  }

  /* Strings. */

  lemma AppendIsAssociative(a: string, b: string, c: string)
    ensures (a + b) + c == a + (b + c)
  {
  }

  lemma PrependToSlice(text: string, i: nat, end: nat, rest: string)
    requires i < end <= |text|
    ensures [text[i]] + (text[i + 1..end] + rest) == text[i..end] + rest
  {
    assert text[i..end] == [text[i]] + text[i + 1..end];
  }

  lemma NothingBefore(text: string, i: nat, rest: string)
    requires i <= |text|
    ensures text[i..i] + rest == rest
  {
  }

  /* What is not hit. */

  /** Up to the next hit the text is copied. */
  lemma {:induction false} ScanCopies(text: string, hits: Hits, length: nat, dst: string, i: nat, end: nat)
    requires length > 0 && i <= end <= |text| && forall k :: i <= k < end ==> !hits(k)
    ensures Scan(text, hits, length, dst, i) == text[i..end] + Scan(text, hits, length, dst, end)
    decreases end - i
  {
    if i < end {
      ScanCopies(text, hits, length, dst, i + 1, end);
      PrependToSlice(text, i, end, Scan(text, hits, length, dst, end));
    } else {
      NothingBefore(text, i, Scan(text, hits, length, dst, end));
    }
  }

  /** The text up to the first hit, and what comes of the hit. */
  lemma ScanToFirst(text: string, hits: Hits, length: nat, dst: string, first: nat)
    requires length > 0 && first < |text| && hits(first) && forall k :: 0 <= k < first ==> !hits(k)
    ensures Scan(text, hits, length, dst, 0) == text[..first] + (dst + Scan(text, hits, length, dst, first + length))
  {
    ScanCopies(text, hits, length, dst, 0, first);
    assert text[0..first] == text[..first];
  }

  /** The first of the positions from `i` up to `end` that is hit. */
  lemma {:induction false} FirstHit(hits: Hits, i: nat, end: nat) returns (first: nat)
    requires i <= end
    ensures i <= first <= end && forall k :: i <= k < first ==> !hits(k)
    ensures first < end ==> hits(first)
    decreases end - i
  {
    first := i;
    if i < end && !hits(i) {
      first := FirstHit(hits, i + 1, end);
    }
  }

  /* A text in two parts. */

  ghost predicate IsSameBehind(text: string, hits: Hits, n: nat, rest: string, restHits: Hits, k: nat)
    requires k < |rest| && |text| == n + |rest|
  {
    rest[k] == text[n + k] && restHits(k) == hits(n + k)
  }

  /** From `n` on there is `rest`, with its own hits. */
  ghost predicate IsBehind(text: string, hits: Hits, n: nat, rest: string, restHits: Hits) {
    |text| == n + |rest| && forall k: nat :: k < |rest| ==> IsSameBehind(text, hits, n, rest, restHits, k)
  }

  /** What is hit in the second part alone is replaced there in the same way. */
  lemma ScanBehind(text: string, hits: Hits, n: nat, rest: string, restHits: Hits, length: nat, dst: string)
    requires length > 0 && IsBehind(text, hits, n, rest, restHits)
    ensures Scan(text, hits, length, dst, n) == Scan(rest, restHits, length, dst, 0)
  {
    var result := (k: nat) => Scan(text, hits, length, dst, n + k);
    forall k: nat
      ensures GoesOn(rest, restHits, length, dst, result, k)
    {
      ScanStep(text, hits, length, dst, n + k);
      assert k < |rest| ==> IsSameBehind(text, hits, n, rest, restHits, k);
    }
    ScanIsUnique(rest, restHits, length, dst, result, 0);
  }

  ghost predicate IsSameBefore(text: string, hits: Hits, front: string, frontHits: Hits, length: nat, k: nat)
    requires k < |front| <= |text|
  {
    front[k] == text[k] && frontHits(k) == hits(k) && (frontHits(k) ==> k + length <= |front|)
  }

  /** The text starts with `front`, with its own hits. */
  ghost predicate IsBefore(text: string, hits: Hits, front: string, frontHits: Hits, length: nat) {
    |front| <= |text| && forall k: nat :: k < |front| ==> IsSameBefore(text, hits, front, frontHits, length, k)
  }

  /** What is hit in the first part, and ends in it, is replaced there in the same way. */
  lemma {:induction false} ScanBefore(
    text: string, hits: Hits, front: string, frontHits: Hits, length: nat, dst: string, i: nat)
    requires length > 0 && i <= |front| && IsBefore(text, hits, front, frontHits, length)
    ensures Scan(text, hits, length, dst, i) ==
            Scan(front, frontHits, length, dst, i) + Scan(text, hits, length, dst, |front|)
    decreases |front| - i
  {
    var rest := Scan(text, hits, length, dst, |front|);
    if i < |front| {
      assert IsSameBefore(text, hits, front, frontHits, length, i);
      if frontHits(i) {
        ScanBefore(text, hits, front, frontHits, length, dst, i + length);
        AppendIsAssociative(dst, Scan(front, frontHits, length, dst, i + length), rest);
      } else {
        ScanBefore(text, hits, front, frontHits, length, dst, i + 1);
        AppendIsAssociative([front[i]], Scan(front, frontHits, length, dst, i + 1), rest);
      }
    }
  }

  ghost predicate EndsAlike(text: string, hits: Hits, length: nat, dst: string, k: nat)
    requires dst != "" && text != ""
  {
    hits(k) ==> k + length <= |text| && (k + length == |text| ==> text[|text| - 1] == dst[|dst| - 1])
  }

  lemma LastOfAppend(a: string, b: string)
    requires b != ""
    ensures (a + b)[|a + b| - 1] == b[|b| - 1]
  {
  }

  /** A text keeps its last character when every hit at its end is replaced by something that ends in it. */
  lemma {:induction false} ScanKeepsLast(text: string, hits: Hits, length: nat, dst: string, i: nat)
    requires length > 0 && dst != "" && i < |text|
    requires forall k: nat :: EndsAlike(text, hits, length, dst, k)
    ensures var result := Scan(text, hits, length, dst, i); result != "" && result[|result| - 1] == text[|text| - 1]
    decreases |text| - i
  {
    assert EndsAlike(text, hits, length, dst, i);
    var next := if hits(i) then i + length else i + 1;
    ScanStep(text, hits, length, dst, i);
    if next < |text| {
      ScanKeepsLast(text, hits, length, dst, next);
      LastOfAppend(if hits(i) then dst else [text[i]], Scan(text, hits, length, dst, next));
    } else {
      ScanStep(text, hits, length, dst, next);
      assert dst + "" == dst && [text[i]] + "" == [text[i]];
    }
  }

  /* Every hit is replaced. */

  /** Every position from `i` on that is hit, in order. */
  function HitsFrom(text: string, hits: Hits, i: nat): seq<nat>
    decreases |text| - i
  {
    if i >= |text| then []
    else (if hits(i) then [i] else []) + HitsFrom(text, hits, i + 1)
  }

  ghost predicate AreApart(text: string, i: nat, positions: seq<nat>, length: nat) {
    && i <= |text|
    && (forall n :: 0 <= n < |positions| ==> i <= positions[n] && positions[n] + length <= |text|)
    && (forall m, n :: 0 <= m < n < |positions| ==> positions[m] + length <= positions[n])
  }

  /** The text from `i` on, with `length` characters at each position replaced by `dst`. */
  ghost function Splice(text: string, i: nat, positions: seq<nat>, length: nat, dst: string): string
    requires AreApart(text, i, positions, length)
    decreases |positions|
  {
    if positions == [] then text[i..]
    else text[i..positions[0]] + dst + Splice(text, positions[0] + length, positions[1..], length, dst)
  }

  lemma {:induction false} HitIsListed(text: string, hits: Hits, i: nat, k: nat)
    ensures k in HitsFrom(text, hits, i) <==> i <= k < |text| && hits(k)
    decreases |text| - i
  {
    if i < |text| {
      HitIsListed(text, hits, i + 1, k);
    }
  }

  lemma {:induction false} HitsIncrease(text: string, hits: Hits, i: nat, m: nat, n: nat)
    requires m < n < |HitsFrom(text, hits, i)|
    ensures HitsFrom(text, hits, i)[m] < HitsFrom(text, hits, i)[n]
    decreases |text| - i
  {
    if !hits(i) {
      HitsIncrease(text, hits, i + 1, m, n);
    } else if m > 0 {
      HitsIncrease(text, hits, i + 1, m - 1, n - 1);
    } else {
      HitIsListed(text, hits, i + 1, HitsFrom(text, hits, i + 1)[n - 1]);
    }
  }

  lemma HitsAreAll(text: string, hits: Hits, i: nat)
    ensures forall k: nat :: k in HitsFrom(text, hits, i) <==> i <= k < |text| && hits(k)
    ensures forall m, n :: 0 <= m < n < |HitsFrom(text, hits, i)| ==> HitsFrom(text, hits, i)[m] < HitsFrom(text, hits, i)[n]
  {
    forall k: nat {
      HitIsListed(text, hits, i, k);
    }
    forall m, n | 0 <= m < n < |HitsFrom(text, hits, i)| {
      HitsIncrease(text, hits, i, m, n);
    }
  }

  ghost predicate NeverOverlap(text: string, hits: Hits, length: nat) {
    && (forall k: nat :: hits(k) ==> k + length <= |text|)
    && (forall j: nat, k: nat :: j < k && hits(j) && hits(k) ==> j + length <= k)
  }

  lemma HitsAreApart(text: string, hits: Hits, length: nat, i: nat)
    requires NeverOverlap(text, hits, length) && i <= |text|
    ensures AreApart(text, i, HitsFrom(text, hits, i), length)
  {
    var positions := HitsFrom(text, hits, i);
    HitsAreAll(text, hits, i);
    assert forall n :: 0 <= n < |positions| ==> positions[n] in positions && hits(positions[n]);
  }

  lemma {:induction false} NothingInside(text: string, hits: Hits, length: nat, i: nat, j: nat)
    requires NeverOverlap(text, hits, length) && hits(i) && i < j <= i + length
    ensures HitsFrom(text, hits, j) == HitsFrom(text, hits, i + length)
    decreases i + length - j
  {
    if j < i + length {
      NothingInside(text, hits, length, i, j + 1);
    }
  }

  lemma SpliceMiss(text: string, i: nat, positions: seq<nat>, length: nat, dst: string)
    requires i < |text| && AreApart(text, i + 1, positions, length)
    ensures AreApart(text, i, positions, length)
    ensures Splice(text, i, positions, length, dst) == [text[i]] + Splice(text, i + 1, positions, length, dst)
  {
    if positions == [] {
      assert text[i..] == [text[i]] + text[i + 1..];
    } else {
      var rest := Splice(text, positions[0] + length, positions[1..], length, dst);
      PrependToSlice(text, i, positions[0], dst + rest);
      AppendIsAssociative(text[i..positions[0]], dst, rest);
      AppendIsAssociative(text[i + 1..positions[0]], dst, rest);
    }
  }

  lemma SpliceHit(text: string, i: nat, later: seq<nat>, length: nat, dst: string, all: seq<nat>)
    requires i + length <= |text| && AreApart(text, i + length, later, length) && all == [i] + later
    ensures AreApart(text, i, all, length)
    ensures Splice(text, i, all, length, dst) == dst + Splice(text, i + length, later, length, dst)
  {
    assert all[1..] == later && all[0] == i;
    assert text[i..i] + dst == dst;
  }

  ghost function SplicedFrom(text: string, hits: Hits, length: nat, dst: string, i: nat): string
    requires NeverOverlap(text, hits, length) && i <= |text|
  {
    HitsAreApart(text, hits, length, i);
    Splice(text, i, HitsFrom(text, hits, i), length, dst)
  }

  lemma SplicedStep(text: string, hits: Hits, length: nat, dst: string, i: nat)
    requires length > 0 && NeverOverlap(text, hits, length) && i < |text|
    ensures
      SplicedFrom(text, hits, length, dst, i) ==
      if hits(i) then dst + SplicedFrom(text, hits, length, dst, i + length)
      else [text[i]] + SplicedFrom(text, hits, length, dst, i + 1)
  {
    if hits(i) {
      NothingInside(text, hits, length, i, i + 1);
      HitsAreApart(text, hits, length, i + length);
      SpliceHit(text, i, HitsFrom(text, hits, i + length), length, dst, HitsFrom(text, hits, i));
    } else {
      HitsAreApart(text, hits, length, i + 1);
      assert HitsFrom(text, hits, i) == HitsFrom(text, hits, i + 1);
      SpliceMiss(text, i, HitsFrom(text, hits, i + 1), length, dst);
    }
  }

  lemma SplicedAtEnd(text: string, hits: Hits, length: nat, dst: string)
    requires NeverOverlap(text, hits, length)
    ensures SplicedFrom(text, hits, length, dst, |text|) == ""
  {
    assert HitsFrom(text, hits, |text|) == [] && text[|text|..] == "";
  }

  /** When hits never overlap, the scan is exactly splicing `dst` in at every one of them. */
  lemma {:induction false} ScanSplices(text: string, hits: Hits, length: nat, dst: string, i: nat)
    requires length > 0 && NeverOverlap(text, hits, length) && i <= |text|
    ensures Scan(text, hits, length, dst, i) == SplicedFrom(text, hits, length, dst, i)
    decreases |text| - i
  {
    ScanStep(text, hits, length, dst, i);
    if i == |text| {
      SplicedAtEnd(text, hits, length, dst);
    } else {
      SplicedStep(text, hits, length, dst, i);
      ScanSplices(text, hits, length, dst, if hits(i) then i + length else i + 1);
    }
  }
}
