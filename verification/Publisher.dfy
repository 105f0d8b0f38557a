/**
 * The publish script itself, request by request, against a store that may fault at every one
 * (scripts/release/publish.ts:192-559).
 *
 * A `Feed` records the snapshots of the publication in progress. Its only way to reach the store is
 * `Send`, which a method may call only with the request the protocol sends next, so a method that
 * skipped, swapped or repeated a request would not verify; and what the protocol keeps at every
 * snapshot holds at every point where the script could be killed.
 */
module Publisher {
  import opened Wrappers
  import opened ReleaseFeed
  import opened Publication
  import opened PublicationSafety

  /** Compares as many bytes as it must. */
  method BytesEqual(a: Bytes, b: Bytes) returns (equal: bool)
    ensures equal <==> a == b
  {
    if |a| != |b| {
      return false;
    }
    for index := 0 to |a|
      invariant a[..index] == b[..index]
    {
      if a[index] != b[index] {
        return false;
      }
    }
    return true;
  }

  class Feed {
    var objects: Objects
    const corruptible: set<Key>

    ghost var job: Job
    ghost var phase: Phase
    ghost var run: seq<Snapshot>
    ghost var faults: nat  // faulted requests outside a publication

    constructor (objects: Objects, corruptible: set<Key>)
      ensures this.objects == objects && this.corruptible == corruptible
    {
      this.objects := objects;
      this.corruptible := corruptible;
    }

    ghost predicate Valid()
      reads this
    {
      && IsRun(job, corruptible, run)
      && run[|run| - 1] == Snapshot(phase, objects)
    }

    /** The publication in progress is at `phase`, and its snapshots extend those of `since`. */
    ghost predicate At(since: seq<Snapshot>, job: Job, phase: Phase)
      reads this
    {
      Valid() && this.job == job && this.phase == phase && since <= run
    }

    /** A HEAD request outside a publication. */
    method Probe(key: Key) returns (reply: Reply)
      modifies this`faults
      ensures Serves(corruptible, Head(key), reply, objects, objects)
      ensures reply.Fault? <==> faults == old(faults) + 1
      ensures !reply.Fault? <==> faults == old(faults)
    {
      var fault := *;
      if fault {
        faults := faults + 1;
        var timeout := *;
        return Fault(timeout);
      }
      reply := if key in objects then Present else Absent;
    }

    /** One request of the publication in progress. Everything the environment may do happens here. */
    method Send(request: Request) returns (reply: Reply)
      requires Valid() && InProgress(job, phase) && request == RequestOf(job, phase)
      modifies this
      ensures Serves(corruptible, request, reply, old(objects), objects)
      ensures InProgress(old(job), old(phase)) && WellFormed(old(job))
      ensures At(old(run), old(job), Advance(old(job), old(phase), reply))
      ensures run == old(run) + [Snapshot(phase, objects)]
    {
      var timeout := *;
      var fault := *;
      var applied := *;
      reply := Fault(timeout);
      match request {
        case Head(key) =>
          if !fault {
            reply := if key in objects then Present else Absent;
          }
        case Get(key) =>
          if !fault && key in objects {
            reply := Content(objects[key]);
          }
        case AnonymousGet(key) =>
          if !fault {
            reply := Done;
          }
        case Delete(key) =>
          if !fault {
            reply := Done;
          }
          if !fault || applied {
            objects := objects - {key};
          }
        case Put(key, bytes) =>
          if !fault {
            reply := Done;
          }
          if !fault || applied {
            var stored: Bytes :| key in corruptible || stored == bytes;
            objects := objects[key := stored];
          }
      }
      ghost var next := Snapshot(Advance(job, phase, reply), objects);
      RunGoesOn(job, corruptible, run, reply, next);
      phase := next.phase;
      run := run + [next];
    }

    /* Upload primitives (scripts/release/publish.ts:222-289). */

    /** Present, Absent, or the fault that was thrown. */
    method ObjectExists(key: Key) returns (reply: Reply)
      requires Valid() && InProgress(job, phase) && RequestOf(job, phase) == Head(key)
      modifies this
      ensures reply.Present? || reply.Absent? || reply.Fault?
      ensures InProgress(old(job), old(phase)) && WellFormed(old(job))
      ensures At(old(run), old(job), Advance(old(job), old(phase), reply))
    {
      reply := Send(Head(key));
    }

    method GetObject(key: Key) returns (reply: Reply)
      requires Valid() && InProgress(job, phase) && RequestOf(job, phase) == Get(key)
      modifies this
      ensures reply.Content? || reply.Fault?
      ensures InProgress(old(job), old(phase)) && WellFormed(old(job))
      ensures At(old(run), old(job), Advance(old(job), old(phase), reply))
    {
      reply := Send(Get(key));
    }

    /** Whether the origin refused an anonymous reader. */
    method VerifyPrivateOrigin(key: Key) returns (ok: bool)
      requires Valid() && InProgress(job, phase) && RequestOf(job, phase) == AnonymousGet(key)
      modifies this
      ensures InProgress(old(job), old(phase)) && WellFormed(old(job))
      ensures At(old(run), old(job), Advance(old(job), old(phase), if ok then Done else Fault(false)))
    {
      var reply := Send(AnonymousGet(key));
      ok := reply.Done?;
    }

    /**
     * Puts an object, a large one in up to three multipart attempts. The phase goes where a single
     * put would have taken it.
     */
    method PutObject(key: Key, bytes: Bytes) returns (ok: bool)
      requires Valid() && InProgress(job, phase) && IsFirstAttempt(phase)
      requires RequestOf(job, phase) == Put(key, bytes)
      modifies this
      ensures InProgress(old(job), old(phase)) && WellFormed(old(job))
      ensures At(old(run), old(job), Advance(old(job), old(phase), if ok then Done else Fault(false)))
    {
      if |bytes| >= MULTIPART_MIN_BYTES {
        ok := PutInParts(key, bytes);
      } else {
        var reply := Send(Put(key, bytes));
        ok := reply.Done?;
      }
    }

    method PutInParts(key: Key, bytes: Bytes) returns (ok: bool)
      requires Valid() && InProgress(job, phase) && IsFirstAttempt(phase)
      requires RequestOf(job, phase) == Put(key, bytes) && |bytes| >= MULTIPART_MIN_BYTES
      modifies this
      ensures InProgress(old(job), old(phase)) && WellFormed(old(job))
      ensures At(old(run), old(job), Advance(old(job), old(phase), if ok then Done else Fault(false)))
    {
      var attempt := 1;
      while true
        invariant 1 <= attempt <= MULTIPART_ATTEMPTS
        invariant At(old(run), old(job), WithAttempt(old(phase), attempt))
        decreases MULTIPART_ATTEMPTS - attempt
      {
        AttemptAdvances(job, old(phase), attempt, key, bytes);
        var reply := Send(Put(key, bytes));
        if reply.Done? {
          return true;
        }
        if attempt >= MULTIPART_ATTEMPTS || !reply.timeout {
          return false;
        }
        attempt := attempt + 1;
      }
    }

    /* The phases of a publication. */

    /** Phase 1: uploads in plan order; what a finalize pass finds is compared instead. */
    method UploadObjects(context: Job) returns (ok: bool)
      requires Valid() && context == job && phase == UploadFrom(job, 0)
      modifies this
      ensures At(old(run), context, if ok then VerifyFrom(context, 0) else Ended(Failed))
    {
      for i := 0 to |context.plan.uploads|
        invariant At(old(run), context, UploadFrom(context, i))
      {
        ok := UploadObject(context, i);
        if !ok {
          return;
        }
      }
      ok := true;
    }

    method UploadObject(context: Job, i: nat) returns (ok: bool)
      requires Valid() && context == job && i < |context.plan.uploads| && phase == UploadFrom(job, i)
      modifies this
      ensures At(old(run), context, if ok then UploadFrom(context, i + 1) else Ended(Failed))
    {
      var key := context.plan.uploads[i];
      var bytes := context.local[key];
      if context.plan.allowExisting {
        var found := ObjectExists(key);
        if found.Fault? {
          return false;
        }
        if found.Present? {
          var remote := GetObject(key);
          if remote.Fault? {
            return false;
          }
          ok := BytesEqual(bytes, remote.bytes);
          return;
        }
      }
      ok := PutObject(key, bytes);
    }

    /** Phase 2: reads every file of the plan back and compares it. */
    method VerifyUploadedBytes(context: Job) returns (ok: bool)
      requires Valid() && context == job && phase == VerifyFrom(job, 0)
      modifies this
      ensures At(old(run), context, if ok then RefuseFrom(context, 0) else Ended(Failed))
    {
      for i := 0 to |context.plan.files|
        invariant At(old(run), context, VerifyFrom(context, i))
      {
        var key := context.plan.files[i];
        var remote := GetObject(key);
        if remote.Fault? {
          return false;
        }
        var equal := BytesEqual(context.local[key], remote.bytes);
        if !equal {
          return false;
        }
      }
      ok := true;
    }

    /** Phase 3: the origin must refuse anonymous readers of every object. */
    method VerifyPrivateOrigins(context: Job) returns (ok: bool)
      requires Valid() && context == job && phase == RefuseFrom(job, 0)
      modifies this
      ensures At(old(run), context, if ok then RefuseFrom(context, |context.plan.files|) else Ended(Failed))
    {
      for i := 0 to |context.plan.files|
        invariant At(old(run), context, RefuseFrom(context, i))
      {
        var refused := VerifyPrivateOrigin(context.plan.files[i]);
        if !refused {
          return false;
        }
      }
      ok := true;
    }

    /** One write of `latest`: put, read back, and check that the origin refuses it. */
    method WriteLatest(bytes: Bytes) returns (ok: bool)
      requires Valid() && IsWriteOf(job, phase, bytes)
      modifies this
      ensures At(old(run), old(job), AfterWrite(old(phase), ok))
    {
      var put := PutObject(LATEST, bytes);
      if !put {
        return false;
      }
      var readback := GetObject(LATEST);
      if readback.Fault? {
        return false;
      }
      var equal := BytesEqual(bytes, readback.bytes);
      if !equal {
        return false;
      }
      ok := VerifyPrivateOrigin(LATEST);
    }

    /** Phase 4: the selector is switched over, and switched back unless that reads back and is private. */
    method ActivateLatest(context: Job) returns (verdict: Verdict)
      requires Valid() && context == job && phase == FindingLatest
      modifies this
      ensures At(old(run), context, Ended(verdict)) && verdict != Rejected
    {
      var previous: Option<Bytes> := None;
      var found := ObjectExists(LATEST);
      if found.Fault? {
        return Failed;
      }
      if found.Present? {
        var content := GetObject(LATEST);
        if content.Fault? {
          return Failed;
        }
        previous := Some(content.bytes);
        var private := VerifyPrivateOrigin(LATEST);
        if !private {
          return Failed;
        }
      }

      var moved := WriteLatest(LatestText(context.version));
      if moved {
        return Published;
      }
      verdict := RollBack(previous);
    }

    /** Puts back the selector of before, or none when there was none. */
    method RollBack(previous: Option<Bytes>) returns (verdict: Verdict)
      requires Valid() && phase == Rollback(previous)
      modifies this
      ensures At(old(run), old(job), Ended(verdict)) && verdict in {Restored, Unverified}
    {
      match previous {
        case Some(bytes) =>
          var restored := WriteLatest(bytes);
          verdict := if restored then Restored else Unverified;
        case None =>
          var deleted := Send(Delete(LATEST));
          if deleted.Fault? {
            return Unverified;
          }
          var left := ObjectExists(LATEST);
          verdict := if left.Absent? then Restored else Unverified;
      }
    }

    /**
     * Publishes a tree whose files are on disk. The snapshots it leaves are a run of the protocol
     * that ended with the verdict it returns.
     */
    method UploadReleaseTree(tree: Tree, local: map<Key, Bytes>, options: Options) returns (verdict: Verdict)
      requires IsReady(tree, local)
      modifies this
      ensures PlanUpload(tree, options).None? ==> verdict == Rejected && objects == old(objects)
      ensures PlanUpload(tree, options).Some? ==>
                && verdict != Rejected
                && Valid()
                && job == Job(tree.version, PlanUpload(tree, options).value, local)
                && phase == Ended(verdict)
                && run[0].objects == old(objects)
      ensures verdict == Published ==>
                && Selector(objects) == Some(LatestText(tree.version))
                && (forall k :: k in tree.files ==> k in objects && objects[k] == local[k])
      ensures verdict !in {Published, Unverified} ==> Selector(objects) == Selector(old(objects))
    {
      var planned := PlanUpload(tree, options);
      if planned.None? {
        return Rejected;
      }
      var plan := planned.value;
      var context := Job(tree.version, plan, local);
      PlannedJobIsWellFormed(tree, options, local);
      job := context;
      phase := Start(context);
      run := [Snapshot(phase, objects)];
      verdict := RunPlan(context);
      FinishedRunTells(tree, options, local, corruptible, run);
    }

    method RunPlan(context: Job) returns (verdict: Verdict)
      requires Valid() && context == job && phase == Start(job)
      modifies this
      ensures At(old(run), context, Ended(verdict)) && verdict != Rejected
    {
      if !context.plan.allowExisting {
        var published := ObjectExists(ManifestKey(context.version));
        if published.Fault? {
          return Failed;
        }
        if published.Present? {
          return AlreadyPublished;
        }
      }
      var ok := UploadObjects(context);
      if !ok {
        return Failed;
      }
      ok := VerifyUploadedBytes(context);
      if !ok {
        return Failed;
      }
      ok := VerifyPrivateOrigins(context);
      if !ok {
        return Failed;
      }
      if context.plan.objectsOnly {
        return ObjectsUp;
      }
      verdict := ActivateLatest(context);
    }
  }

  lemma RunGoesOn(job: Job, corruptible: set<Key>, run: seq<Snapshot>, reply: Reply, next: Snapshot)
    requires IsRun(job, corruptible, run)
    requires InProgress(job, run[|run| - 1].phase) && StepBy(job, corruptible, run[|run| - 1], reply, next)
    ensures IsRun(job, corruptible, run + [next])
  {
    var longer := run + [next];
    forall i | 0 < i < |longer|
      ensures Step(job, corruptible, longer[i - 1], longer[i])
    {
      if i < |run| {
        assert Step(job, corruptible, run[i - 1], run[i]);
      }
    }
  }

  /** What a finished publication of a tree left behind. */
  lemma FinishedRunTells(
    tree: Tree, options: Options, local: map<Key, Bytes>, corruptible: set<Key>, run: seq<Snapshot>)
    requires PlanUpload(tree, options).Some?
    requires IsRun(Job(tree.version, PlanUpload(tree, options).value, local), corruptible, run)
    requires run[|run| - 1].phase.Ended?
    ensures
      var end := run[|run| - 1];
      && (end.phase.verdict == Published ==>
            && Selector(end.objects) == Some(LatestText(tree.version))
            && (forall k :: k in tree.files ==> k in end.objects && k in local && end.objects[k] == local[k]))
      && (end.phase.verdict !in {Published, Unverified} ==> Selector(end.objects) == Selector(run[0].objects))
  {
    var job := Job(tree.version, PlanUpload(tree, options).value, local);
    VerdictTellsSelector(job, corruptible, run);
    PlanCoversTree(tree, options);
    if run[|run| - 1].phase.verdict == Published {
      forall k | k in tree.files
        ensures StoredExactly(job, run[|run| - 1].objects, k)
      {
        assert k in job.plan.files;
      }
    }
  }

  predicate IsFirstAttempt(phase: Phase) {
    match phase
    case Uploading(_, attempt) => attempt == 1
    case Moving(step, _) => step == Sending(1)
    case Restoring(step, _) => step == Sending(1)
    case _ => false
  }

  function WithAttempt(phase: Phase, attempt: nat): Phase {
    match phase
    case Uploading(i, _) => Uploading(i, attempt)
    case Moving(_, previous) => Moving(Sending(attempt), previous)
    case Restoring(_, bytes) => Restoring(Sending(attempt), bytes)
    case _ => phase
  }

  /** A repeated upload is the same request, and leads on as the first one would. */
  lemma AttemptAdvances(job: Job, phase: Phase, attempt: nat, key: Key, bytes: Bytes)
    requires WellFormed(job) && InProgress(job, phase) && IsFirstAttempt(phase)
    requires RequestOf(job, phase) == Put(key, bytes) && |bytes| >= MULTIPART_MIN_BYTES
    ensures InProgress(job, WithAttempt(phase, attempt))
    ensures RequestOf(job, WithAttempt(phase, attempt)) == Put(key, bytes)
    ensures forall reply: Reply ::
              Advance(job, WithAttempt(phase, attempt), reply) ==
              if reply.Fault? && reply.timeout && attempt < MULTIPART_ATTEMPTS then WithAttempt(phase, attempt + 1)
              else Advance(job, phase, if reply.Done? then Done else Fault(false))
  {
  }

  ghost predicate IsWriteOf(job: Job, phase: Phase, bytes: Bytes)
    requires WellFormed(job)
  {
    match phase
    case Moving(step, _) => step == Sending(1) && bytes == LatestText(job.version)
    case Restoring(step, saved) => step == Sending(1) && bytes == saved
    case _ => false
  }

  function AfterWrite(phase: Phase, ok: bool): Phase {
    match phase
    case Moving(_, previous) => if ok then Ended(Published) else Rollback(previous)
    case _ => Ended(if ok then Restored else Unverified)
  }
}
