/**
 * One publication as a protocol: which request it sends next, and where each reply takes it.
 *
 * A publication uploads the objects of a version, reads every one of them back, checks that the
 * origin refuses anonymous readers, and only then moves the selector `latest`, putting it back when
 * the move cannot be verified (scripts/release/publish.ts:354-559). It may stop after any request,
 * so everything said here of every snapshot of a run also holds of a run that was killed.
 */
module Publication {
  import opened Wrappers
  import opened ReleaseVersion
  import opened ReleaseFeed

  /* The plan of a publication. */

  datatype Tree = Tree(version: string, files: seq<Key>)

  datatype Options = Options(activate: bool, allowExisting: bool)

  datatype Plan = Plan(allowExisting: bool, objectsOnly: bool, files: seq<Key>, uploads: seq<Key>)

  function Without(files: seq<Key>, key: Key): (rest: seq<Key>)
    ensures key !in rest
    ensures forall k :: k in rest <==> k in files && k != key
    ensures multiset(rest) == multiset(files)[key := 0]
  {
    if files == [] then []
    else
      assert files == [files[0]] + files[1..];
      if files[0] == key then Without(files[1..], key)
      else [files[0]] + Without(files[1..], key)
  }

  /** None is the error for a tree without exactly one manifest. */
  function PlanUpload(tree: Tree, options: Options): Option<Plan> {
    var manifest := ManifestKey(tree.version);
    if multiset(tree.files)[manifest] != 1 then None
    else
      var objects := Without(tree.files, manifest);
      var objectsOnly := !options.activate;
      Some(Plan(
             options.allowExisting,
             objectsOnly,
             if objectsOnly then objects else tree.files,
             if objectsOnly then objects else objects + [manifest]))
  }

  /** What one run publishes: the local bytes of every file of its tree, and its plan. */
  datatype Job = Job(version: string, plan: Plan, local: map<Key, Bytes>)

  ghost predicate WellFormed(job: Job) {
    && IsValidReleaseVersion(job.version)
    && (forall k :: k in job.plan.uploads <==> k in job.plan.files)
    && (forall k :: k in job.plan.files ==> k in job.local)
    && (forall k :: k in job.local ==> IsUnder(k, job.version))
    && ManifestLast(job.plan, ManifestKey(job.version))
  }

  /** Only a full publication writes the manifest, and it writes it after everything else. */
  ghost predicate ManifestLast(plan: Plan, manifest: Key) {
    if plan.objectsOnly then manifest !in plan.uploads
    else
      && |plan.uploads| > 0
      && plan.uploads[|plan.uploads| - 1] == manifest
      && manifest !in plan.uploads[..|plan.uploads| - 1]
  }

  /** A tree is ready when its files are on disk, below its version's directory. */
  ghost predicate IsReady(tree: Tree, local: map<Key, Bytes>) {
    && IsValidReleaseVersion(tree.version)
    && local.Keys == (set k | k in tree.files)
    && (forall k :: k in tree.files ==> IsUnder(k, tree.version))
  }

  /**
   * A plan exists exactly for a tree with one manifest. It covers every file of the tree once, the
   * manifest last, except that an objects-only plan leaves the manifest out.
   */
  lemma PlanCoversTree(tree: Tree, options: Options)
    ensures PlanUpload(tree, options).Some? <==> multiset(tree.files)[ManifestKey(tree.version)] == 1
    ensures PlanUpload(tree, options).Some? ==>
              var plan := PlanUpload(tree, options).value;
              && ManifestLast(plan, ManifestKey(tree.version))
              && multiset(plan.uploads) == multiset(plan.files)
              && multiset(tree.files) ==
                 multiset(plan.files) + (if plan.objectsOnly then multiset{ManifestKey(tree.version)} else multiset{})
              && (!plan.objectsOnly ==> plan.files == tree.files)
              && plan.objectsOnly == !options.activate && plan.allowExisting == options.allowExisting
  {
    var manifest := ManifestKey(tree.version);
    if PlanUpload(tree, options).Some? {
      var objects := Without(tree.files, manifest);
      assert multiset(objects + [manifest]) == multiset(objects) + multiset{manifest} == multiset(tree.files);
      assert (objects + [manifest])[..|objects|] == objects;
    }
  }

  lemma PlannedJobIsWellFormed(tree: Tree, options: Options, local: map<Key, Bytes>)
    requires IsReady(tree, local)
    requires PlanUpload(tree, options).Some?
    ensures WellFormed(Job(tree.version, PlanUpload(tree, options).value, local))
  {
    PlanCoversTree(tree, options);
    var plan := PlanUpload(tree, options).value;
    forall k
      ensures k in plan.uploads <==> k in plan.files
      ensures k in plan.files ==> k in tree.files
    {
      assert k in plan.uploads <==> k in multiset(plan.uploads);
      assert k in plan.files <==> k in multiset(plan.files);
      assert k in tree.files <==> k in multiset(tree.files);
    }
  }

  /* The protocol. */

  /** How a publication ends: only the last two leave `latest` written to. */
  datatype Verdict =
    | Rejected       // no plan, no request sent
    | AlreadyPublished
    | Failed         // stopped before the first write of `latest`
    | ObjectsUp
    | Published
    | Restored       // the move of `latest` failed; the previous selector is back and verified
    | Unverified     // the move failed, and putting the previous selector back could not be verified

  datatype Write = Sending(attempt: nat) | ReadingBack | Exposing

  datatype Phase =
    | CheckingVersion
    | Looking(i: nat)
    | Comparing(i: nat)
    | Uploading(i: nat, attempt: nat)
    | Verifying(i: nat)
    | Refusing(i: nat)
    | FindingLatest
    | ReadingLatest
    | ExposingLatest(bytes: Bytes)
    | Moving(step: Write, previous: Option<Bytes>)
    | Restoring(step: Write, bytes: Bytes)
    | Deleting
    | ConfirmingDeleted
    | Ended(verdict: Verdict)

  const MULTIPART_MIN_BYTES := 20 * 1024 * 1024
  const MULTIPART_ATTEMPTS := 3

  /** Only a timed-out multipart upload is sent again, and only until the last attempt. */
  predicate SendsAgain(bytes: Bytes, attempt: nat, reply: Reply) {
    reply.Fault? && reply.timeout && |bytes| >= MULTIPART_MIN_BYTES && attempt < MULTIPART_ATTEMPTS
  }

  function Start(job: Job): Phase {
    if job.plan.allowExisting then UploadFrom(job, 0) else CheckingVersion
  }

  function UploadFrom(job: Job, i: nat): Phase {
    if i >= |job.plan.uploads| then VerifyFrom(job, 0)
    else if job.plan.allowExisting then Looking(i)
    else Uploading(i, 1)
  }

  function VerifyFrom(job: Job, i: nat): Phase {
    if i < |job.plan.files| then Verifying(i) else RefuseFrom(job, 0)
  }

  function RefuseFrom(job: Job, i: nat): Phase {
    if i < |job.plan.files| then Refusing(i)
    else if job.plan.objectsOnly then Ended(ObjectsUp)
    else FindingLatest
  }

  function Rollback(previous: Option<Bytes>): Phase {
    match previous
    case Some(bytes) => Restoring(Sending(1), bytes)
    case None => Deleting
  }

  ghost predicate InProgress(job: Job, phase: Phase) {
    match phase
    case Looking(i) => i < |job.plan.uploads|
    case Comparing(i) => i < |job.plan.uploads|
    case Uploading(i, _) => i < |job.plan.uploads|
    case Verifying(i) => i < |job.plan.files|
    case Refusing(i) => i < |job.plan.files|
    case Ended(_) => false
    case _ => true
  }

  function WriteRequest(step: Write, bytes: Bytes): Request {
    match step
    case Sending(_) => Put(LATEST, bytes)
    case ReadingBack => Get(LATEST)
    case Exposing => AnonymousGet(LATEST)
  }

  /** The request a publication sends in a phase. */
  function RequestOf(job: Job, phase: Phase): Request
    requires WellFormed(job) && InProgress(job, phase)
  {
    match phase
    case CheckingVersion => Head(ManifestKey(job.version))
    case Looking(i) => Head(job.plan.uploads[i])
    case Comparing(i) => Get(job.plan.uploads[i])
    case Uploading(i, _) => Put(job.plan.uploads[i], job.local[job.plan.uploads[i]])
    case Verifying(i) => Get(job.plan.files[i])
    case Refusing(i) => AnonymousGet(job.plan.files[i])
    case FindingLatest => Head(LATEST)
    case ReadingLatest => Get(LATEST)
    case ExposingLatest(_) => AnonymousGet(LATEST)
    case Moving(step, _) => WriteRequest(step, LatestText(job.version))
    case Restoring(step, bytes) => WriteRequest(step, bytes)
    case Deleting => Delete(LATEST)
    case ConfirmingDeleted => Head(LATEST)
  }

  datatype WriteResult = Next(step: Write) | Written | NotWritten

  function AdvanceWrite(step: Write, bytes: Bytes, reply: Reply): WriteResult {
    match step
    case Sending(attempt) =>
      if reply.Done? then Next(ReadingBack)
      else if SendsAgain(bytes, attempt, reply) then Next(Sending(attempt + 1))
      else NotWritten
    case ReadingBack => if reply == Content(bytes) then Next(Exposing) else NotWritten
    case Exposing => if reply.Done? then Written else NotWritten
  }

  /** The phase a reply leads to. */
  function Advance(job: Job, phase: Phase, reply: Reply): Phase
    requires WellFormed(job) && InProgress(job, phase)
  {
    match phase
    case CheckingVersion =>
      if reply.Absent? then UploadFrom(job, 0)
      else if reply.Present? then Ended(AlreadyPublished)
      else Ended(Failed)
    case Looking(i) =>
      if reply.Present? then Comparing(i)
      else if reply.Absent? then Uploading(i, 1)
      else Ended(Failed)
    case Comparing(i) =>
      if reply == Content(job.local[job.plan.uploads[i]]) then UploadFrom(job, i + 1) else Ended(Failed)
    case Uploading(i, attempt) =>
      if reply.Done? then UploadFrom(job, i + 1)
      else if SendsAgain(job.local[job.plan.uploads[i]], attempt, reply) then Uploading(i, attempt + 1)
      else Ended(Failed)
    case Verifying(i) =>
      if reply == Content(job.local[job.plan.files[i]]) then VerifyFrom(job, i + 1) else Ended(Failed)
    case Refusing(i) =>
      if reply.Done? then RefuseFrom(job, i + 1) else Ended(Failed)
    case FindingLatest =>
      if reply.Present? then ReadingLatest
      else if reply.Absent? then Moving(Sending(1), None)
      else Ended(Failed)
    case ReadingLatest =>
      if reply.Content? then ExposingLatest(reply.bytes) else Ended(Failed)
    case ExposingLatest(bytes) =>
      if reply.Done? then Moving(Sending(1), Some(bytes)) else Ended(Failed)
    case Moving(step, previous) =>
      (match AdvanceWrite(step, LatestText(job.version), reply)
       case Next(next) => Moving(next, previous)
       case Written => Ended(Published)
       case NotWritten => Rollback(previous))
    case Restoring(step, bytes) =>
      (match AdvanceWrite(step, bytes, reply)
       case Next(next) => Restoring(next, bytes)
       case Written => Ended(Restored)
       case NotWritten => Ended(Unverified))
    case Deleting =>
      if reply.Done? then ConfirmingDeleted else Ended(Unverified)
    case ConfirmingDeleted =>
      if reply.Absent? then Ended(Restored) else Ended(Unverified)
  }

  /* Runs. */

  datatype Snapshot = Snapshot(phase: Phase, objects: Objects)

  ghost predicate Step(job: Job, corruptible: set<Key>, s: Snapshot, t: Snapshot)
    requires WellFormed(job)
  {
    && InProgress(job, s.phase)
    && exists reply :: StepBy(job, corruptible, s, reply, t)
  }

  ghost predicate StepBy(job: Job, corruptible: set<Key>, s: Snapshot, reply: Reply, t: Snapshot)
    requires WellFormed(job) && InProgress(job, s.phase)
  {
    && Serves(corruptible, RequestOf(job, s.phase), reply, s.objects, t.objects)
    && t.phase == Advance(job, s.phase, reply)
  }

  /** The snapshots of a run that nothing else interferes with, up to any request. */
  ghost predicate IsRun(job: Job, corruptible: set<Key>, run: seq<Snapshot>) {
    && WellFormed(job)
    && |run| > 0
    && run[0].phase == Start(job)
    && forall i :: 0 < i < |run| ==> Step(job, corruptible, run[i - 1], run[i])
  }
}
