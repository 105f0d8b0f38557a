/**
 * A publication split over several jobs that run at the same time: objects-only jobs, one per
 * target, and one pass that finalizes, their requests interleaved in any order and any of them cut
 * off at any point (scripts/release/publish.ts:346-356, 392-403). A full publication on its own is
 * the case of one job.
 */
module SplitPublication {
  import opened ReleaseFeed
  import opened Publication
  import opened PublicationSafety

  /** All jobs share one store; `phases[w]` is where job `w` is. */
  datatype System = System(objects: Objects, phases: seq<Phase>)

  /** The jobs publish one version, and the bytes of an object depend on its key alone. */
  ghost predicate IsSplit(jobs: seq<Job>, finalize: nat) {
    && finalize < |jobs|
    && (forall w :: 0 <= w < |jobs| ==>
          && WellFormed(jobs[w])
          && jobs[w].version == jobs[finalize].version
          && jobs[w].plan.objectsOnly == (w != finalize)
          && SameBytes(jobs[w], jobs[finalize]))
  }

  ghost predicate SameBytes(job: Job, other: Job) {
    forall k :: k in job.local && k in other.local && k != ManifestKey(job.version) ==> job.local[k] == other.local[k]
  }

  ghost function At(system: System, w: nat): Snapshot
    requires w < |system.phases|
  {
    Snapshot(system.phases[w], system.objects)
  }

  /** Job `w` sends one request. */
  ghost predicate JobStep(jobs: seq<Job>, corruptible: set<Key>, w: nat, s: System, t: System)
    requires w < |jobs| == |s.phases| && WellFormed(jobs[w])
  {
    && |t.phases| == |s.phases|
    && t.phases == s.phases[w := t.phases[w]]
    && Step(jobs[w], corruptible, At(s, w), At(t, w))
  }

  ghost predicate IsInterleaving(
    jobs: seq<Job>, finalize: nat, corruptible: set<Key>, states: seq<System>, turns: seq<nat>)
  {
    && IsSplit(jobs, finalize)
    && |states| == |turns| + 1
    && |states[0].phases| == |jobs|
    && (forall w :: 0 <= w < |jobs| ==> states[0].phases[w] == Start(jobs[w]))
    && (forall n :: 0 <= n < |turns| ==>
          && turns[n] < |jobs| == |states[n].phases|
          && JobStep(jobs, corruptible, turns[n], states[n], states[n + 1]))
  }

  /** Stored, and with the job's bytes unless uploads of it may be corrupted. */
  ghost predicate StoredUnless(job: Job, corruptible: set<Key>, objects: Objects, key: Key)
    requires key in job.local
  {
    key in objects && (key in corruptible || objects[key] == job.local[key])
  }

  /** How many of its uploads the finalize pass has put or compared. */
  ghost function UploadedCount(job: Job, phase: Phase): nat {
    match phase
    case CheckingVersion => 0
    case Looking(i) => i
    case Comparing(i) => i
    case Uploading(i, _) => i
    case Ended(Failed) | Ended(AlreadyPublished) | Ended(Rejected) => 0
    case _ => |job.plan.uploads|
  }

  /** Every other object the finalize tree lists is stored. */
  ghost predicate AllButManifest(job: Job, corruptible: set<Key>, objects: Objects)
    requires WellFormed(job)
  {
    forall k :: k in job.plan.files && k != ManifestKey(job.version) ==> StoredUnless(job, corruptible, objects, k)
  }

  ghost predicate SplitInvariant(jobs: seq<Job>, finalize: nat, corruptible: set<Key>, s: System)
    requires IsSplit(jobs, finalize) && |s.phases| == |jobs|
  {
    var job, phase := jobs[finalize], s.phases[finalize];
    var manifest := ManifestKey(job.version);
    && (forall j :: 0 <= j < UploadedCount(job, phase) && j < |job.plan.uploads| && job.plan.uploads[j] != manifest ==>
          StoredUnless(job, corruptible, s.objects, job.plan.uploads[j]))
    && (manifest in s.objects ==>
          AllButManifest(job, corruptible, s.objects) && StoredUnless(job, corruptible, s.objects, manifest))
    && (UploadedCount(job, phase) >= |job.plan.uploads| ==> manifest in s.objects)
    && (forall w :: 0 <= w < |jobs| && w != finalize ==> !MovesLatest(s.phases[w]))
  }

  lemma ManifestIsUploadedLast(job: Job, i: nat)
    requires WellFormed(job) && i < |job.plan.uploads|
    ensures job.plan.uploads[i] == ManifestKey(job.version) <==> !job.plan.objectsOnly && i == |job.plan.uploads| - 1
  {
    if i < |job.plan.uploads| - 1 && !job.plan.objectsOnly {
      assert job.plan.uploads[i] in job.plan.uploads[..|job.plan.uploads| - 1];
    }
  }

  /* What one request does to the store and to the progress of its job. */

  ghost predicate Uploads(job: Job, corruptible: set<Key>, phase: Phase, before: Objects, after: Objects) {
    && phase.Uploading?
    && phase.i < |job.plan.uploads|
    && job.plan.uploads[phase.i] in job.local
    && Stores(corruptible, job.plan.uploads[phase.i], job.local[job.plan.uploads[phase.i]], before, after)
  }

  ghost predicate OnlySelectorChanges(before: Objects, after: Objects) {
    && (forall k :: k != LATEST ==> (k in before <==> k in after))
    && (forall k :: k in before && k != LATEST ==> after[k] == before[k])
  }

  lemma StepEffect(job: Job, corruptible: set<Key>, s: Snapshot, reply: Reply, t: Snapshot)
    requires WellFormed(job) && InProgress(job, s.phase) && StepBy(job, corruptible, s, reply, t)
    ensures
      || t.objects == s.objects
      || Uploads(job, corruptible, s.phase, s.objects, t.objects)
      || (MovesLatest(s.phase) && OnlySelectorChanges(s.objects, t.objects))
  {
  }

  lemma StepEntersMove(job: Job, corruptible: set<Key>, s: Snapshot, reply: Reply, t: Snapshot)
    requires WellFormed(job) && InProgress(job, s.phase) && StepBy(job, corruptible, s, reply, t)
    ensures MovesLatest(s.phase) ==> MovesLatest(t.phase) || t.phase == Ended(Failed)
    ensures job.plan.objectsOnly && !MovesLatest(s.phase) ==> !MovesLatest(t.phase)
  {
  }

  /** The count of uploads only grows by an upload that is now stored. */
  lemma StepProgress(job: Job, corruptible: set<Key>, s: Snapshot, reply: Reply, t: Snapshot)
    requires WellFormed(job) && InProgress(job, s.phase) && StepBy(job, corruptible, s, reply, t)
    requires !job.plan.objectsOnly
    ensures
      || UploadedCount(job, t.phase) <= UploadedCount(job, s.phase)
      || (&& UploadedCount(job, s.phase) < |job.plan.uploads|
          && UploadedCount(job, t.phase) == UploadedCount(job, s.phase) + 1
          && StoredUnless(job, corruptible, t.objects, job.plan.uploads[UploadedCount(job, s.phase)]))
  {
  }

  /** A write to the tree of the finalize pass, of its own bytes unless it was corrupted. */
  ghost predicate StoresForSplit(job: Job, corruptible: set<Key>, key: Key, before: Objects, after: Objects) {
    && key != LATEST && key != ManifestKey(job.version)
    && key in after
    && (key in job.local && key !in corruptible ==> after[key] == job.local[key])
    && after == before[key := after[key]]
  }

  /** An objects-only job writes neither the manifest nor `latest`, and no other bytes than finalize. */
  lemma ObjectsOnlyStep(
    jobs: seq<Job>, finalize: nat, corruptible: set<Key>, w: nat, s: System, t: System)
    requires IsSplit(jobs, finalize) && w < |jobs| == |s.phases| && w != finalize
    requires JobStep(jobs, corruptible, w, s, t) && !MovesLatest(s.phases[w])
    ensures !MovesLatest(t.phases[w])
    ensures
      || t.objects == s.objects
      || exists k :: k in jobs[w].plan.uploads && StoresForSplit(jobs[finalize], corruptible, k, s.objects, t.objects)
  {
    var job := jobs[w];
    FilesAreNotLatest(job);
    var a, b := At(s, w), At(t, w);
    var reply :| StepBy(job, corruptible, a, reply, b);
    StepEffect(job, corruptible, a, reply, b);
    StepEntersMove(job, corruptible, a, reply, b);
    if Uploads(job, corruptible, a.phase, a.objects, b.objects) {
      var k := job.plan.uploads[a.phase.i];
      assert k in job.plan.uploads;
      assert StoresForSplit(jobs[finalize], corruptible, k, s.objects, t.objects);
    }
  }

  /* A stored manifest. */

  lemma OtherStepKeepsInvariant(
    jobs: seq<Job>, finalize: nat, corruptible: set<Key>, w: nat, s: System, t: System)
    requires IsSplit(jobs, finalize) && w < |jobs| == |s.phases| && w != finalize
    requires SplitInvariant(jobs, finalize, corruptible, s)
    requires JobStep(jobs, corruptible, w, s, t)
    ensures SplitInvariant(jobs, finalize, corruptible, t)
  {
    ObjectsOnlyStep(jobs, finalize, corruptible, w, s, t);
    FilesAreNotLatest(jobs[finalize]);
    assert t.phases[finalize] == s.phases[finalize];
  }

  lemma FinalizeStepKeepsUploads(
    jobs: seq<Job>, finalize: nat, corruptible: set<Key>, s: System, t: System, j: nat)
    requires IsSplit(jobs, finalize) && |jobs| == |s.phases|
    requires SplitInvariant(jobs, finalize, corruptible, s)
    requires JobStep(jobs, corruptible, finalize, s, t)
    requires j < UploadedCount(jobs[finalize], t.phases[finalize]) && j < |jobs[finalize].plan.uploads|
    ensures jobs[finalize].plan.uploads[j] != ManifestKey(jobs[finalize].version) ==>
              StoredUnless(jobs[finalize], corruptible, t.objects, jobs[finalize].plan.uploads[j])
  {
    var job := jobs[finalize];
    FilesAreNotLatest(job);
    var a, b := At(s, finalize), At(t, finalize);
    var reply :| StepBy(job, corruptible, a, reply, b);
    StepEffect(job, corruptible, a, reply, b);
    StepProgress(job, corruptible, a, reply, b);
    assert job.plan.uploads[j] in job.plan.uploads;
  }

  lemma FinalizeStepKeepsManifestRule(
    jobs: seq<Job>, finalize: nat, corruptible: set<Key>, s: System, t: System)
    requires IsSplit(jobs, finalize) && |jobs| == |s.phases|
    requires SplitInvariant(jobs, finalize, corruptible, s)
    requires JobStep(jobs, corruptible, finalize, s, t)
    ensures
      var manifest := ManifestKey(jobs[finalize].version);
      manifest in t.objects ==>
        && AllButManifest(jobs[finalize], corruptible, t.objects)
        && StoredUnless(jobs[finalize], corruptible, t.objects, manifest)
  {
    var job := jobs[finalize];
    var manifest := ManifestKey(job.version);
    FilesAreNotLatest(job);
    ManifestIsUnder(job.version);
    var a, b := At(s, finalize), At(t, finalize);
    var reply :| StepBy(job, corruptible, a, reply, b);
    StepEffect(job, corruptible, a, reply, b);
    if Uploads(job, corruptible, a.phase, a.objects, b.objects) {
      ManifestIsUploadedLast(job, a.phase.i);
    }
    forall k | k in job.plan.files && k != manifest && manifest in t.objects
      ensures StoredUnless(job, corruptible, t.objects, k)
    {
      var j :| 0 <= j < |job.plan.uploads| && job.plan.uploads[j] == k;
      ManifestIsUploadedLast(job, j);
    }
  }

  lemma FinalizeStepKeepsInvariant(
    jobs: seq<Job>, finalize: nat, corruptible: set<Key>, s: System, t: System)
    requires IsSplit(jobs, finalize) && |jobs| == |s.phases|
    requires SplitInvariant(jobs, finalize, corruptible, s)
    requires JobStep(jobs, corruptible, finalize, s, t)
    ensures SplitInvariant(jobs, finalize, corruptible, t)
  {
    var job := jobs[finalize];
    FinalizeStepKeepsManifestRule(jobs, finalize, corruptible, s, t);
    forall j | 0 <= j < UploadedCount(job, t.phases[finalize]) && j < |job.plan.uploads|
      ensures job.plan.uploads[j] in job.local
      ensures job.plan.uploads[j] != ManifestKey(job.version) ==>
                StoredUnless(job, corruptible, t.objects, job.plan.uploads[j])
    {
      FinalizeStepKeepsUploads(jobs, finalize, corruptible, s, t, j);
    }
    var a, b := At(s, finalize), At(t, finalize);
    var reply :| StepBy(job, corruptible, a, reply, b);
    FilesAreNotLatest(job);
    ManifestIsUnder(job.version);
    StepEffect(job, corruptible, a, reply, b);
    StepProgress(job, corruptible, a, reply, b);
    ManifestIsUploadedLast(job, |job.plan.uploads| - 1);
  }

  lemma {:induction false} InterleavingKeepsInvariant(
    jobs: seq<Job>, finalize: nat, corruptible: set<Key>, states: seq<System>, turns: seq<nat>, n: nat)
    requires IsInterleaving(jobs, finalize, corruptible, states, turns) && n < |states|
    requires ManifestKey(jobs[finalize].version) !in states[0].objects
    ensures |states[n].phases| == |jobs|
    ensures SplitInvariant(jobs, finalize, corruptible, states[n])
  {
    if n == 0 {
      assert |jobs[finalize].plan.uploads| > 0;
    } else {
      InterleavingKeepsInvariant(jobs, finalize, corruptible, states, turns, n - 1);
      if turns[n - 1] == finalize {
        FinalizeStepKeepsInvariant(jobs, finalize, corruptible, states[n - 1], states[n]);
      } else {
        OtherStepKeepsInvariant(jobs, finalize, corruptible, turns[n - 1], states[n - 1], states[n]);
      }
    }
  }

  /**
   * However the jobs interleave and whatever uploads are corrupted, an objects-only job leaves the
   * manifest and `latest` alone, and a stored manifest means that every object of the finalize tree is
   * stored, with the finalize pass's bytes unless its uploads may be corrupted.
   */
  lemma StoredManifestMeansStoredVersion(
    jobs: seq<Job>, finalize: nat, corruptible: set<Key>, states: seq<System>, turns: seq<nat>, n: nat)
    requires IsInterleaving(jobs, finalize, corruptible, states, turns) && n < |states|
    requires ManifestKey(jobs[finalize].version) !in states[0].objects
    ensures ManifestKey(jobs[finalize].version) in states[n].objects ==>
              forall k :: k in jobs[finalize].plan.files ==>
                StoredUnless(jobs[finalize], corruptible, states[n].objects, k)
    ensures n < |turns| && turns[n] != finalize ==>
              && Selector(states[n + 1].objects) == Selector(states[n].objects)
              && (ManifestKey(jobs[finalize].version) in states[n + 1].objects <==>
                  ManifestKey(jobs[finalize].version) in states[n].objects)
              && (ManifestKey(jobs[finalize].version) in states[n].objects ==>
                    states[n + 1].objects[ManifestKey(jobs[finalize].version)] ==
                    states[n].objects[ManifestKey(jobs[finalize].version)])
  {
    InterleavingKeepsInvariant(jobs, finalize, corruptible, states, turns, n);
    if n < |turns| && turns[n] != finalize {
      ObjectsOnlyStep(jobs, finalize, corruptible, turns[n], states[n], states[n + 1]);
    }
  }

  /* The selector. */

  /** Some other job uploads the object too, so it may be written again after it was read back. */
  ghost predicate IsShared(jobs: seq<Job>, finalize: nat, key: Key) {
    exists w :: 0 <= w < |jobs| && w != finalize && key in jobs[w].plan.uploads
  }

  /** The uploads that may be corrupted after the finalize pass has read the object back. */
  ghost predicate MayChangeLater(jobs: seq<Job>, finalize: nat, corruptible: set<Key>, key: Key) {
    key in corruptible && IsShared(jobs, finalize, key)
  }

  ghost predicate StillStored(jobs: seq<Job>, finalize: nat, corruptible: set<Key>, objects: Objects, key: Key)
    requires finalize < |jobs| && key in jobs[finalize].local
  {
    && key in objects
    && (MayChangeLater(jobs, finalize, corruptible, key) || objects[key] == jobs[finalize].local[key])
  }

  /** What the finalizing job keeps survives the others, which never come to `latest`. */
  ghost predicate MoveInvariant(jobs: seq<Job>, finalize: nat, corruptible: set<Key>, before: Objects, s: System)
    requires IsSplit(jobs, finalize) && |s.phases| == |jobs|
  {
    var job, phase := jobs[finalize], s.phases[finalize];
    && SelectorInvariant(job, corruptible, before, At(s, finalize))
    && (forall j :: 0 <= j < VerifiedCount(job, phase) ==>
          StillStored(jobs, finalize, corruptible, s.objects, job.plan.files[j]))
    && (forall w :: 0 <= w < |jobs| && w != finalize ==> !MovesLatest(s.phases[w]))
  }

  lemma OtherStepKeepsMove(
    jobs: seq<Job>, finalize: nat, corruptible: set<Key>, before: Objects, w: nat, s: System, t: System)
    requires IsSplit(jobs, finalize) && w < |jobs| == |s.phases| && w != finalize
    requires MoveInvariant(jobs, finalize, corruptible, before, s) && JobStep(jobs, corruptible, w, s, t)
    ensures MoveInvariant(jobs, finalize, corruptible, before, t)
  {
    ObjectsOnlyStep(jobs, finalize, corruptible, w, s, t);
    FilesAreNotLatest(jobs[finalize]);
    assert t.phases[finalize] == s.phases[finalize];
    assert Selector(t.objects) == Selector(s.objects);
  }

  /** A request that leaves something read back changes nothing but `latest`, and may be what read it back. */
  lemma StepWhenVerified(job: Job, corruptible: set<Key>, s: Snapshot, reply: Reply, t: Snapshot, j: nat)
    requires WellFormed(job) && InProgress(job, s.phase) && StepBy(job, corruptible, s, reply, t)
    requires j < VerifiedCount(job, t.phase)
    ensures OnlySelectorChanges(s.objects, t.objects)
    ensures j < VerifiedCount(job, s.phase) || StoredExactly(job, s.objects, job.plan.files[j])
  {
    if s.phase.Verifying? && j == s.phase.i {
      assert reply == Content(job.local[job.plan.files[j]]);
    }
  }

  lemma FinalizeStepKeepsMove(
    jobs: seq<Job>, finalize: nat, corruptible: set<Key>, before: Objects, s: System, t: System)
    requires IsSplit(jobs, finalize) && |s.phases| == |jobs|
    requires MoveInvariant(jobs, finalize, corruptible, before, s) && JobStep(jobs, corruptible, finalize, s, t)
    ensures MoveInvariant(jobs, finalize, corruptible, before, t)
  {
    var job, a, b := jobs[finalize], At(s, finalize), At(t, finalize);
    FilesAreNotLatest(job);
    var reply :| StepBy(job, corruptible, a, reply, b);
    StepKeepsSelector(job, corruptible, before, a, reply, b);
    forall j | 0 <= j < VerifiedCount(job, b.phase)
      ensures StillStored(jobs, finalize, corruptible, t.objects, job.plan.files[j])
    {
      StepWhenVerified(job, corruptible, a, reply, b, j);
      assert job.plan.files[j] in job.plan.files;
    }
  }

  lemma {:induction false} InterleavingKeepsMove(
    jobs: seq<Job>, finalize: nat, corruptible: set<Key>, states: seq<System>, turns: seq<nat>, n: nat)
    requires IsInterleaving(jobs, finalize, corruptible, states, turns) && n < |states|
    ensures |states[n].phases| == |jobs|
    ensures MoveInvariant(jobs, finalize, corruptible, states[0].objects, states[n])
  {
    if n > 0 {
      InterleavingKeepsMove(jobs, finalize, corruptible, states, turns, n - 1);
      if turns[n - 1] == finalize {
        FinalizeStepKeepsMove(jobs, finalize, corruptible, states[0].objects, states[n - 1], states[n]);
      } else {
        OtherStepKeepsMove(
          jobs, finalize, corruptible, states[0].objects, turns[n - 1], states[n - 1], states[n]);
      }
    }
  }

  /**
   * The rule for `latest` survives the other jobs: whatever was stored at the start, whenever the
   * selector is not what it was then, it names this version and the whole finalize tree is stored, each
   * object with the finalize pass's bytes unless another job may have corrupted it since.
   */
  lemma LatestNamesCompleteVersionAmongJobs(
    jobs: seq<Job>, finalize: nat, corruptible: set<Key>, states: seq<System>, turns: seq<nat>, n: nat)
    requires IsInterleaving(jobs, finalize, corruptible, states, turns) && n < |states| && LATEST !in corruptible
    ensures
      || Selector(states[n].objects) == Selector(states[0].objects)
      || (&& Selector(states[n].objects) == NewSelector(jobs[finalize])
          && forall k :: k in jobs[finalize].plan.files ==>
               StillStored(jobs, finalize, corruptible, states[n].objects, k))
  {
    InterleavingKeepsMove(jobs, finalize, corruptible, states, turns, n);
    var job, s := jobs[finalize], At(states[n], finalize);
    forall k | k in job.plan.files && MovesLatest(s.phase)
      ensures StillStored(jobs, finalize, corruptible, s.objects, k)
    {
      var j :| 0 <= j < |job.plan.files| && job.plan.files[j] == k;
    }
  }

  /* A full publication on its own. */

  function Alone(s: Snapshot): System {
    System(s.objects, [s.phase])
  }

  lemma RunIsInterleaving(job: Job, corruptible: set<Key>, run: seq<Snapshot>)
    requires IsRun(job, corruptible, run) && !job.plan.objectsOnly
    ensures IsInterleaving(
              [job], 0, corruptible, seq(|run|, n requires 0 <= n < |run| => Alone(run[n])), seq(|run| - 1, n => 0))
  {
    var states := seq(|run|, n requires 0 <= n < |run| => Alone(run[n]));
    forall n | 0 <= n < |run| - 1
      ensures JobStep([job], corruptible, 0, states[n], states[n + 1])
    {
      assert Step(job, corruptible, run[n + 1 - 1], run[n + 1]);
      assert At(states[n], 0) == run[n] && At(states[n + 1], 0) == run[n + 1];
    }
  }

  /**
   * The manifest is the completion marker: in a full publication of either kind, at any request, a
   * manifest that was not there before means that every file of the tree is stored, with the local bytes
   * unless its uploads may be corrupted.
   */
  lemma ManifestMarksCompletion(job: Job, corruptible: set<Key>, run: seq<Snapshot>, i: nat)
    requires IsRun(job, corruptible, run) && !job.plan.objectsOnly && i < |run|
    requires ManifestKey(job.version) !in run[0].objects
    ensures ManifestKey(job.version) in run[i].objects ==>
              forall k :: k in job.plan.files ==> StoredUnless(job, corruptible, run[i].objects, k)
  {
    RunIsInterleaving(job, corruptible, run);
    StoredManifestMeansStoredVersion(
      [job], 0, corruptible, seq(|run|, n requires 0 <= n < |run| => Alone(run[n])), seq(|run| - 1, n => 0), i);
  }
}
