/**
 * Publications one after the other, in any mode, each finished or cut off: a version whose manifest
 * is stored is never changed again (scripts/release/publish.ts:10-12, 299-316).
 */
module PublicationHistory {
  import opened ReleaseVersion
  import opened ReleaseFeed
  import opened Publication
  import opened PublicationSafety

  ghost predicate SameObject(key: Key, before: Objects, after: Objects) {
    (key in before <==> key in after) && (key in before ==> before[key] == after[key])
  }

  /** Every object found by a run, other than the selector, is still there with the same bytes. */
  ghost predicate KeepsObjects(before: Objects, after: Objects) {
    forall k :: k in before && k != LATEST ==> SameObject(k, before, after)
  }

  ghost predicate KeepsOthers(job: Job, before: Objects, s: Snapshot) {
    forall k :: k !in job.plan.uploads && k != LATEST ==> SameObject(k, before, s.objects)
  }

  ghost predicate KeepsFound(job: Job, before: Objects, s: Snapshot) {
    job.plan.allowExisting ==>
      && KeepsObjects(before, s.objects)
      && !s.phase.CheckingVersion?
      && (s.phase.Uploading? ==> s.phase.i < |job.plan.uploads| && job.plan.uploads[s.phase.i] !in before)
  }

  ghost predicate KeepsPublished(job: Job, before: Objects, s: Snapshot) {
    !job.plan.allowExisting && ManifestKey(job.version) in before ==>
      && s.objects == before
      && (s.phase == CheckingVersion || s.phase == Ended(AlreadyPublished) || s.phase == Ended(Failed))
  }

  ghost predicate KeepsInvariant(job: Job, before: Objects, s: Snapshot) {
    KeepsOthers(job, before, s) && KeepsFound(job, before, s) && KeepsPublished(job, before, s)
  }

  lemma StepKeepsOthers(job: Job, corruptible: set<Key>, before: Objects, s: Snapshot, reply: Reply, t: Snapshot)
    requires WellFormed(job) && InProgress(job, s.phase) && StepBy(job, corruptible, s, reply, t)
    requires KeepsOthers(job, before, s)
    ensures KeepsOthers(job, before, t)
  {
    FilesAreNotLatest(job);
  }

  lemma StepKeepsFound(job: Job, corruptible: set<Key>, before: Objects, s: Snapshot, reply: Reply, t: Snapshot)
    requires WellFormed(job) && InProgress(job, s.phase) && StepBy(job, corruptible, s, reply, t)
    requires KeepsFound(job, before, s)
    ensures KeepsFound(job, before, t)
  {
    FilesAreNotLatest(job);
  }

  lemma StepKeepsPublished(job: Job, corruptible: set<Key>, before: Objects, s: Snapshot, reply: Reply, t: Snapshot)
    requires WellFormed(job) && InProgress(job, s.phase) && StepBy(job, corruptible, s, reply, t)
    requires KeepsPublished(job, before, s)
    ensures KeepsPublished(job, before, t)
  {
  }

  lemma StepKeepsObjects(job: Job, corruptible: set<Key>, before: Objects, s: Snapshot, t: Snapshot)
    requires WellFormed(job) && Step(job, corruptible, s, t)
    requires KeepsInvariant(job, before, s)
    ensures KeepsInvariant(job, before, t)
  {
    var reply :| StepBy(job, corruptible, s, reply, t);
    StepKeepsOthers(job, corruptible, before, s, reply, t);
    StepKeepsFound(job, corruptible, before, s, reply, t);
    StepKeepsPublished(job, corruptible, before, s, reply, t);
  }

  lemma {:induction false} RunKeepsObjects(job: Job, corruptible: set<Key>, run: seq<Snapshot>, i: nat)
    requires IsRun(job, corruptible, run) && i < |run|
    ensures KeepsInvariant(job, run[0].objects, run[i])
  {
    if i > 0 {
      RunKeepsObjects(job, corruptible, run, i - 1);
      StepKeepsObjects(job, corruptible, run[0].objects, run[i - 1], run[i]);
    }
  }

  /**
   * A run that tolerates existing objects never overwrites one, and a run that does not writes
   * nothing at all once the version is published.
   */
  lemma FoundObjectsAreNeverOverwritten(job: Job, corruptible: set<Key>, run: seq<Snapshot>, i: nat)
    requires IsRun(job, corruptible, run) && i < |run|
    ensures job.plan.allowExisting ==> KeepsObjects(run[0].objects, run[i].objects)
    ensures !job.plan.allowExisting && ManifestKey(job.version) in run[0].objects ==>
              run[i].objects == run[0].objects
  {
    RunKeepsObjects(job, corruptible, run, i);
  }

  /** A sequence of runs that do not overlap, each starting from what the one before it left. */
  ghost predicate IsHistory(corruptible: set<Key>, jobs: seq<Job>, runs: seq<seq<Snapshot>>) {
    && |jobs| == |runs|
    && (forall n :: 0 <= n < |runs| ==> IsRun(jobs[n], corruptible, runs[n]))
    && (forall n :: 0 < n < |runs| ==> runs[n][0].objects == runs[n - 1][|runs[n - 1]| - 1].objects)
  }

  lemma RunKeepsPublishedVersion(job: Job, corruptible: set<Key>, run: seq<Snapshot>, i: nat, version: string, key: Key)
    requires IsRun(job, corruptible, run) && i < |run|
    requires IsValidReleaseVersion(version) && ManifestKey(version) in run[0].objects
    requires IsUnder(key, version) && key in run[0].objects
    ensures SameObject(key, run[0].objects, run[i].objects)
  {
    RunKeepsObjects(job, corruptible, run, i);
    VersionIsPathSegment(version);
    VersionIsPathSegment(job.version);
    ObjectHasOneVersion(key, version, version);
    if key in job.plan.uploads {
      ObjectHasOneVersion(key, version, job.version);
    }
  }

  /**
   * A published version is immutable: once its manifest is stored, no later run, in any mode, of
   * any version, finished or cut off at any request, changes a stored object below it.
   */
  lemma {:induction false} PublishedVersionIsImmutable(
    corruptible: set<Key>, jobs: seq<Job>, runs: seq<seq<Snapshot>>,
    version: string, key: Key, n: nat, m: nat, i: nat)
    requires IsHistory(corruptible, jobs, runs)
    requires n <= m < |runs| && i < |runs[m]|
    requires IsValidReleaseVersion(version) && ManifestKey(version) in runs[n][0].objects
    requires IsUnder(key, version) && key in runs[n][0].objects
    ensures SameObject(key, runs[n][0].objects, runs[m][i].objects)
    decreases m
  {
    if n < m {
      ManifestIsUnder(version);
      var last := |runs[m - 1]| - 1;
      PublishedVersionIsImmutable(corruptible, jobs, runs, version, key, n, m - 1, last);
      PublishedVersionIsImmutable(corruptible, jobs, runs, version, ManifestKey(version), n, m - 1, last);
    }
    RunKeepsPublishedVersion(jobs[m], corruptible, runs[m], i, version, key);
  }
}
