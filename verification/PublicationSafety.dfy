/**
 * What every snapshot of every publication keeps: `latest` never names an incomplete version, a
 * failed move is reported as exactly what it left behind, and stored objects are never overwritten
 * by a publication that finds them.
 */
module PublicationSafety {
  import opened Wrappers
  import opened ReleaseFeed
  import opened Publication

  ghost predicate StoredExactly(job: Job, objects: Objects, key: Key)
    requires key in job.local
  {
    key in objects && objects[key] == job.local[key]
  }

  /** Every file of the job is stored with its local bytes. */
  ghost predicate Complete(job: Job, objects: Objects)
    requires WellFormed(job)
  {
    forall k :: k in job.plan.files ==> StoredExactly(job, objects, k)
  }

  ghost function NewSelector(job: Job): Option<Bytes>
    requires WellFormed(job)
  {
    Some(LatestText(job.version))
  }

  /** How many of the job's files have been read back in this phase. */
  ghost function VerifiedCount(job: Job, phase: Phase): nat {
    match phase
    case Verifying(i) => if i < |job.plan.files| then i else |job.plan.files|
    case CheckingVersion | Looking(_) | Comparing(_) | Uploading(_, _) => 0
    case Ended(verdict) =>
      if verdict in {ObjectsUp, Published, Restored, Unverified} then |job.plan.files| else 0
    case _ => |job.plan.files|
  }

  ghost predicate MovesLatest(phase: Phase) {
    || phase.FindingLatest? || phase.ReadingLatest? || phase.ExposingLatest?
    || phase.Moving? || phase.Restoring? || phase.Deleting? || phase.ConfirmingDeleted?
    || (phase.Ended? && phase.verdict in {Published, Restored, Unverified})
  }

  /** The selector is the one of before the run, or the new one. */
  ghost predicate OldOrNew(job: Job, before: Objects, objects: Objects)
    requires WellFormed(job)
  {
    Selector(objects) == Selector(before) || Selector(objects) == NewSelector(job)
  }

  ghost predicate SelectorInvariant(job: Job, corruptible: set<Key>, before: Objects, s: Snapshot)
    requires WellFormed(job)
  {
    var exact := LATEST !in corruptible;
    match s.phase
    case ReadingLatest =>
      Selector(s.objects) == Selector(before) && Selector(before).Some?
    case ExposingLatest(bytes) =>
      Selector(s.objects) == Selector(before) == Some(bytes)
    case Moving(step, previous) =>
      && previous == Selector(before)
      && (exact ==> OldOrNew(job, before, s.objects))
      && (step.Exposing? ==> Selector(s.objects) == NewSelector(job))
    case Restoring(step, bytes) =>
      && Selector(before) == Some(bytes)
      && (exact ==> OldOrNew(job, before, s.objects))
      && (step.Exposing? ==> Selector(s.objects) == Selector(before))
    case Deleting =>
      Selector(before) == None && (exact ==> OldOrNew(job, before, s.objects))
    case ConfirmingDeleted =>
      Selector(before) == None && Selector(s.objects) == None
    case Ended(Published) => Selector(s.objects) == NewSelector(job)
    case Ended(Unverified) => exact ==> OldOrNew(job, before, s.objects)
    case _ => Selector(s.objects) == Selector(before)
  }

  ghost predicate Invariant(job: Job, corruptible: set<Key>, before: Objects, s: Snapshot)
    requires WellFormed(job)
  {
    && SelectorInvariant(job, corruptible, before, s)
    && (MovesLatest(s.phase) ==> !job.plan.objectsOnly)
    && forall j :: 0 <= j < VerifiedCount(job, s.phase) ==> StoredExactly(job, s.objects, job.plan.files[j])
  }

  lemma FilesAreNotLatest(job: Job)
    requires WellFormed(job)
    ensures LATEST !in job.plan.files && LATEST !in job.plan.uploads && LATEST !in job.local
  {
    LatestIsUnderNoVersion(job.version);
  }

  lemma StepKeepsInvariant(job: Job, corruptible: set<Key>, before: Objects, s: Snapshot, t: Snapshot)
    requires WellFormed(job) && Step(job, corruptible, s, t)
    requires Invariant(job, corruptible, before, s)
    ensures Invariant(job, corruptible, before, t)
  {
    FilesAreNotLatest(job);
    var reply :| StepBy(job, corruptible, s, reply, t);
    StepKeepsVerified(job, corruptible, before, s, reply, t);
    StepKeepsSelector(job, corruptible, before, s, reply, t);
  }

  lemma StepKeepsVerified(job: Job, corruptible: set<Key>, before: Objects, s: Snapshot, reply: Reply, t: Snapshot)
    requires WellFormed(job) && InProgress(job, s.phase) && StepBy(job, corruptible, s, reply, t)
    requires Invariant(job, corruptible, before, s)
    ensures MovesLatest(t.phase) ==> !job.plan.objectsOnly
    ensures forall j :: 0 <= j < VerifiedCount(job, t.phase) ==> StoredExactly(job, t.objects, job.plan.files[j])
  {
    FilesAreNotLatest(job);
    forall j | 0 <= j < VerifiedCount(job, t.phase)
      ensures StoredExactly(job, t.objects, job.plan.files[j])
    {
      if s.phase.Verifying? && j == s.phase.i {
        assert reply == Content(job.local[job.plan.files[j]]);
      }
    }
  }

  lemma StepKeepsSelector(job: Job, corruptible: set<Key>, before: Objects, s: Snapshot, reply: Reply, t: Snapshot)
    requires WellFormed(job) && InProgress(job, s.phase) && StepBy(job, corruptible, s, reply, t)
    requires SelectorInvariant(job, corruptible, before, s)
    ensures SelectorInvariant(job, corruptible, before, t)
  {
    if WritesLatest(s.phase) {
      StepOfWrite(job, corruptible, before, s, reply, t);
    } else {
      FilesAreNotLatest(job);
    }
  }

  ghost predicate WritesLatest(phase: Phase) {
    phase.Moving? || phase.Restoring?
  }

  lemma StepOfWrite(job: Job, corruptible: set<Key>, before: Objects, s: Snapshot, reply: Reply, t: Snapshot)
    requires WellFormed(job) && InProgress(job, s.phase) && StepBy(job, corruptible, s, reply, t)
    requires WritesLatest(s.phase) && SelectorInvariant(job, corruptible, before, s)
    ensures SelectorInvariant(job, corruptible, before, t)
  {
  }

  lemma {:induction false} RunKeepsInvariant(job: Job, corruptible: set<Key>, run: seq<Snapshot>, i: nat)
    requires IsRun(job, corruptible, run) && i < |run|
    ensures Invariant(job, corruptible, run[0].objects, run[i])
  {
    if i > 0 {
      RunKeepsInvariant(job, corruptible, run, i - 1);
      StepKeepsInvariant(job, corruptible, run[0].objects, run[i - 1], run[i]);
    }
  }

  /**
   * `latest` never names an incomplete version: at every point of every run, whatever fails and
   * whichever uploads of tree objects are corrupted, the selector is what it was before the run, or
   * it names this version and every file of its tree is stored with the local bytes.
   */
  lemma LatestNamesCompleteVersion(job: Job, corruptible: set<Key>, run: seq<Snapshot>, i: nat)
    requires IsRun(job, corruptible, run) && i < |run| && LATEST !in corruptible
    ensures
      || Selector(run[i].objects) == Selector(run[0].objects)
      || (&& !job.plan.objectsOnly
          && Selector(run[i].objects) == NewSelector(job)
          && Complete(job, run[i].objects))
  {
    RunKeepsInvariant(job, corruptible, run, i);
    forall k | k in job.plan.files && MovesLatest(run[i].phase)
      ensures StoredExactly(job, run[i].objects, k)
    {
      var j :| 0 <= j < |job.plan.files| && job.plan.files[j] == k;
    }
  }

  /**
   * What a finished run reports is what it left, even when a write of `latest` was corrupted: only
   * an unverified rollback leaves the selector open, and with exact writes it is then the old one
   * or the new one.
   */
  lemma VerdictTellsSelector(job: Job, corruptible: set<Key>, run: seq<Snapshot>)
    requires IsRun(job, corruptible, run) && run[|run| - 1].phase.Ended?
    ensures
      var end, before := run[|run| - 1], run[0].objects;
      match end.phase.verdict
      case Published =>
        Selector(end.objects) == NewSelector(job) && Complete(job, end.objects) && !job.plan.objectsOnly
      case Restored =>
        Selector(end.objects) == Selector(before) && Complete(job, end.objects)
      case Unverified =>
        LATEST !in corruptible ==> OldOrNew(job, before, end.objects)
      case ObjectsUp =>
        Selector(end.objects) == Selector(before) && Complete(job, end.objects)
      case _ =>
        Selector(end.objects) == Selector(before)
  {
    var end := run[|run| - 1];
    RunKeepsInvariant(job, corruptible, run, |run| - 1);
    forall k | k in job.plan.files && VerifiedCount(job, end.phase) == |job.plan.files|
      ensures StoredExactly(job, end.objects, k)
    {
      var j :| 0 <= j < |job.plan.files| && job.plan.files[j] == k;
    }
  }

  /* What was done on the way. */

  /** Of how many files the origin has refused anonymous readers. */
  ghost function RefusedCount(job: Job, phase: Phase): nat {
    match phase
    case Refusing(i) => if i < |job.plan.files| then i else |job.plan.files|
    case _ => if MovesLatest(phase) || phase == Ended(ObjectsUp) then |job.plan.files| else 0
  }

  /** Request `n` of the run was the probe of file `j`, and it was refused. */
  ghost predicate RefusedAt(job: Job, corruptible: set<Key>, run: seq<Snapshot>, n: nat, j: nat)
    requires WellFormed(job) && j < |job.plan.files|
  {
    && n + 1 < |run|
    && run[n].phase == Refusing(j)
    && RequestOf(job, run[n].phase) == AnonymousGet(job.plan.files[j])
    && StepBy(job, corruptible, run[n], Done, run[n + 1])
  }

  /** No run touches `latest`, or reports its objects up, before the origin refused every file. */
  lemma {:induction false} EveryOriginRefused(job: Job, corruptible: set<Key>, run: seq<Snapshot>, i: nat, j: nat)
    requires IsRun(job, corruptible, run) && i < |run| && j < RefusedCount(job, run[i].phase)
    ensures exists n: nat :: n < i && RefusedAt(job, corruptible, run, n, j)
  {
    if i > 0 {
      var reply := StepReply(job, corruptible, run, i - 1);
      if j < RefusedCount(job, run[i - 1].phase) {
        EveryOriginRefused(job, corruptible, run, i - 1, j);
      } else {
        assert RefusedAt(job, corruptible, run, i - 1, j);
      }
    }
  }

  lemma StepReply(job: Job, corruptible: set<Key>, run: seq<Snapshot>, n: nat) returns (reply: Reply)
    requires IsRun(job, corruptible, run) && n + 1 < |run|
    ensures InProgress(job, run[n].phase) && StepBy(job, corruptible, run[n], reply, run[n + 1])
  {
    assert Step(job, corruptible, run[n + 1 - 1], run[n + 1]);
    reply :| StepBy(job, corruptible, run[n], reply, run[n + 1]);
  }

  /** A run that moved `latest` ends with its origin refusing it, whichever selector it left. */
  lemma LatestIsRefused(job: Job, corruptible: set<Key>, run: seq<Snapshot>)
    requires IsRun(job, corruptible, run) && run[|run| - 1].phase in {Ended(Published), Ended(Restored)}
    requires Selector(run[|run| - 1].objects).Some?
    ensures |run| > 1
    ensures
      var last := run[|run| - 2];
      && InProgress(job, last.phase)
      && RequestOf(job, last.phase) == AnonymousGet(LATEST)
      && StepBy(job, corruptible, last, Done, run[|run| - 1])
  {
    assert |run| > 1;
    var reply := StepReply(job, corruptible, run, |run| - 2);
    RunKeepsInvariant(job, corruptible, run, |run| - 2);
    LastStepIsRefusal(job, corruptible, run[0].objects, run[|run| - 2], reply, run[|run| - 1]);
  }

  lemma LastStepIsRefusal(job: Job, corruptible: set<Key>, before: Objects, s: Snapshot, reply: Reply, t: Snapshot)
    requires WellFormed(job) && InProgress(job, s.phase) && StepBy(job, corruptible, s, reply, t)
    requires SelectorInvariant(job, corruptible, before, s)
    requires t.phase in {Ended(Published), Ended(Restored)} && Selector(t.objects).Some?
    ensures reply == Done && RequestOf(job, s.phase) == AnonymousGet(LATEST)
  {
  }

  /** How often the upload in progress has been sent, this time included. */
  ghost function Attempt(phase: Phase): nat {
    match phase
    case Uploading(_, attempt) => attempt
    case Moving(Sending(attempt), _) => attempt
    case Restoring(Sending(attempt), _) => attempt
    case _ => 1
  }

  ghost predicate IsSmallUpload(job: Job, phase: Phase)
    requires WellFormed(job)
  {
    && InProgress(job, phase)
    && RequestOf(job, phase).Put?
    && |RequestOf(job, phase).bytes| < MULTIPART_MIN_BYTES
  }

  /** An upload is sent at most three times, and a small one once. */
  lemma {:induction false} AttemptsAreBounded(job: Job, corruptible: set<Key>, run: seq<Snapshot>, i: nat)
    requires IsRun(job, corruptible, run) && i < |run|
    ensures 1 <= Attempt(run[i].phase) <= 3
    ensures IsSmallUpload(job, run[i].phase) ==> Attempt(run[i].phase) == 1
  {
    if i > 0 {
      AttemptsAreBounded(job, corruptible, run, i - 1);
      var reply := StepReply(job, corruptible, run, i - 1);
    }
  }
}
