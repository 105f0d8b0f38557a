/** Numbering the dev builds of a release line (scripts/release/publish.ts:316-334). */
module DevNumbers {
  import opened Wrappers
  import opened ReleaseFeed
  import opened Publication
  import opened PublicationHistory
  import opened Publisher

  /** How many dev numbers a line may use. */
  const MAX_DEV_NUMBER := 500

  function Digit(d: nat): char
    requires d < 10
  {
    "0123456789"[d]
  }

  function Decimal(n: nat): string {
    if n < 10 then [Digit(n)] else Decimal(n / 10) + [Digit(n % 10)]
  }

  lemma DigitIsInjective(c: nat, d: nat)
    requires c < 10 && d < 10 && Digit(c) == Digit(d)
    ensures c == d
  {
  }

  /** The last digit, and what is before it. */
  lemma LastDigit(n: nat)
    ensures
      var s := Decimal(n);
      s != "" && s[|s| - 1] == Digit(n % 10) && (n < 10 ==> |s| == 1) && (n >= 10 ==> |s| > 1 && s[..|s| - 1] == Decimal(n / 10))
  {
    DecimalIsNotEmpty(n / 10);
  }

  lemma {:induction false} DecimalIsInjective(m: nat, n: nat)
    requires Decimal(m) == Decimal(n)
    ensures m == n
  {
    LastDigit(m);
    LastDigit(n);
    DigitIsInjective(m % 10, n % 10);
    if m >= 10 {
      DecimalIsInjective(m / 10, n / 10);
    }
  }

  lemma DecimalIsNotEmpty(n: nat)
    ensures |Decimal(n)| >= 1
    ensures forall i :: 0 <= i < |Decimal(n)| ==> '0' <= Decimal(n)[i] <= '9'
  {
  }

  predicate IsNumeral(s: string) {
    && s != ""
    && (forall i :: 0 <= i < |s| ==> '0' <= s[i] <= '9')
    && (s[0] == '0' ==> s == "0")
  }

  /** `major.minor.patch`, without leading zeros. */
  ghost predicate IsReleaseLine(line: string) {
    exists major, minor, patch ::
      && IsNumeral(major) && IsNumeral(minor) && IsNumeral(patch)
      && line == major + "." + minor + "." + patch
  }

  function DevVersion(line: string, n: nat): string {
    line + "-dev." + Decimal(n)
  }

  lemma DevVersionIsPathSegment(line: string, n: nat)
    requires IsReleaseLine(line)
    ensures IsPathSegment(DevVersion(line, n))
  {
    DecimalIsNotEmpty(n);
    assert IsPathSegment("-dev.");
  }

  lemma DevVersionIsInjective(line: string, m: nat, n: nat)
    requires DevVersion(line, m) == DevVersion(line, n)
    ensures m == n
  {
    var prefix := line + "-dev.";
    assert Decimal(m) == DevVersion(line, m)[|prefix|..];
    assert Decimal(n) == DevVersion(line, n)[|prefix|..];
    DecimalIsInjective(m, n);
  }

  predicate IsPublished(line: string, objects: Objects, n: nat) {
    ManifestKey(DevVersion(line, n)) in objects
  }

  /** The least number up to the limit without a stored manifest. */
  ghost predicate IsNextNumber(line: string, objects: Objects, n: nat) {
    && 1 <= n <= MAX_DEV_NUMBER
    && !IsPublished(line, objects, n)
    && forall m :: 1 <= m < n ==> IsPublished(line, objects, m)
  }

  ghost predicate IsExhausted(line: string, objects: Objects) {
    forall m :: 1 <= m <= MAX_DEV_NUMBER ==> IsPublished(line, objects, m)
  }

  datatype ProbeError = NoUnusedNumber | ProbeFailed

  method NextDevVersion(line: string, feed: Feed) returns (result: Result<string, ProbeError>)
    modifies feed`faults
    ensures result.Ok? ==> exists n :: IsNextNumber(line, feed.objects, n) && result.value == DevVersion(line, n)
    ensures result == Err(NoUnusedNumber) ==> IsExhausted(line, feed.objects)
    ensures result == Err(ProbeFailed) <==> feed.faults > old(feed.faults)
  {
    for number := 1 to MAX_DEV_NUMBER + 1
      invariant forall m :: 1 <= m < number ==> IsPublished(line, feed.objects, m)
      invariant feed.faults == old(feed.faults)
    {
      var version := DevVersion(line, number);
      var found := feed.Probe(ManifestKey(version));
      if found.Fault? {
        return Err(ProbeFailed);
      }
      if found.Absent? {
        assert IsNextNumber(line, feed.objects, number);
        return Ok(version);
      }
    }
    return Err(NoUnusedNumber);
  }

  /** Exactly the numbers 1 to `k` of the line are published. */
  ghost predicate Dense(line: string, objects: Objects, k: nat) {
    forall n :: n >= 1 ==> (IsPublished(line, objects, n) <==> n <= k)
  }

  /** Then the next number is `k + 1`, and there is none exactly when `k` is the limit. */
  lemma NextNumberOfDense(line: string, objects: Objects, k: nat)
    requires Dense(line, objects, k) && k <= MAX_DEV_NUMBER
    ensures forall n: nat :: IsNextNumber(line, objects, n) <==> n == k + 1 <= MAX_DEV_NUMBER
    ensures IsExhausted(line, objects) <==> k == MAX_DEV_NUMBER
  {
    assert !IsPublished(line, objects, k + 1);
    assert IsPublished(line, objects, MAX_DEV_NUMBER) <==> MAX_DEV_NUMBER <= k;
  }

  /**
   * Runs in which every dev build of the line was numbered by probing the feed it starts from, and
   * published in full. Runs of other versions may come between.
   */
  ghost predicate IsLineHistory(line: string, corruptible: set<Key>, jobs: seq<Job>, runs: seq<seq<Snapshot>>) {
    && IsReleaseLine(line)
    && IsHistory(corruptible, jobs, runs)
    && forall r, n :: 0 <= r < |runs| && n >= 1 && jobs[r].version == DevVersion(line, n) ==>
         IsNextNumber(line, runs[r][0].objects, n)
  }

  lemma RunKeepsDense(line: string, corruptible: set<Key>, job: Job, run: seq<Snapshot>, i: nat, k: nat)
    requires IsReleaseLine(line) && IsRun(job, corruptible, run) && i < |run|
    requires k <= MAX_DEV_NUMBER && Dense(line, run[0].objects, k)
    requires forall n :: n >= 1 && job.version == DevVersion(line, n) ==> IsNextNumber(line, run[0].objects, n)
    ensures Dense(line, run[i].objects, k) || (k < MAX_DEV_NUMBER && Dense(line, run[i].objects, k + 1))
  {
    RunKeepsObjects(job, corruptible, run, i);
    NextNumberOfDense(line, run[0].objects, k);
    VersionIsPathSegment(job.version);
    forall n | n >= 1 && n != k + 1
      ensures IsPublished(line, run[i].objects, n) <==> n <= k
    {
      OtherManifestKept(line, job, run[0].objects, run[i], n);
    }
    if k == MAX_DEV_NUMBER {
      OtherManifestKept(line, job, run[0].objects, run[i], k + 1);
    }
  }

  lemma OtherManifestKept(line: string, job: Job, before: Objects, s: Snapshot, n: nat)
    requires IsReleaseLine(line) && WellFormed(job) && KeepsInvariant(job, before, s)
    requires job.version != DevVersion(line, n)
    ensures IsPublished(line, before, n) <==> IsPublished(line, s.objects, n)
  {
    var key := ManifestKey(DevVersion(line, n));
    ManifestIsUnder(DevVersion(line, n));
    DevVersionIsPathSegment(line, n);
    VersionIsPathSegment(job.version);
    if key in job.plan.uploads {
      ObjectHasOneVersion(key, DevVersion(line, n), job.version);
    }
    assert SameObject(key, before, s.objects);
  }

  /**
   * From an empty line, whatever succeeds, fails or is cut off, the published dev numbers are always
   * 1 to some `k`: a half-uploaded number is used again, and none is ever skipped.
   */
  lemma {:induction false} PublishedNumbersAreDense(
    line: string, corruptible: set<Key>, jobs: seq<Job>, runs: seq<seq<Snapshot>>, r: nat, i: nat)
    requires IsLineHistory(line, corruptible, jobs, runs) && r < |runs| && i < |runs[r]|
    requires Dense(line, runs[0][0].objects, 0)
    ensures exists k :: 0 <= k <= MAX_DEV_NUMBER && Dense(line, runs[r][i].objects, k)
    decreases r
  {
    var k := 0;
    if r > 0 {
      PublishedNumbersAreDense(line, corruptible, jobs, runs, r - 1, |runs[r - 1]| - 1);
      k :| 0 <= k <= MAX_DEV_NUMBER && Dense(line, runs[r - 1][|runs[r - 1]| - 1].objects, k);
    }
    RunKeepsDense(line, corruptible, jobs[r], runs[r], i, k);
  }
}
