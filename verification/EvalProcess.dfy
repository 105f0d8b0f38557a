/**
 * One evaluation process with its file (benchmark/evolbench-collab/src/report.ts:32-62, run.ts:37-62, 267-296).
 *
 * An `AttemptsFile` records the states of the machine of one shard. The file changes only where the
 * machine takes a step, so a process is an execution of that machine, wherever it is killed.
 */
module EvalProcess {
  import opened Wrappers
  import opened Sequences
  import opened EvalManifest
  import opened EvalWork
  import opened EvalResume

  /** A fleet of one shard. */
  function OneShard(work: seq<string>): Fleet {
    Fleet([work], [true])
  }

  class AttemptsFile {
    var content: Option<seq<string>>  // the run ids of its rows

    ghost var work: seq<string>
    ghost var states: seq<State>

    constructor (content: Option<seq<string>>)
      ensures this.content == content
    {
      this.content := content;
    }

    /** The machine has come to `process`, by an execution that goes on where `since` stopped. */
    ghost predicate At(since: seq<State>, work: seq<string>, process: Process)
      reads this
    {
      && this.work == work
      && IsExecution(OneShard(work), states)
      && since <= states
      && states[|states| - 1] == State(content, [process])
    }

    /** The process has come to `next`; the file has `rows`, and behind them what it did until then. */
    ghost predicate IsRunning(
      since: seq<State>, work: seq<string>, rows: seq<string>, next: nat, completed: set<string>)
      reads this
    {
      && next <= |work|
      && At(since, work, Running(next, completed))
      && content == Some(RowsAfter(rows, work[..next], completed))
    }

    /** Records the step the machine took to the present content. */
    ghost method Record(process: Process)
      requires IsExecution(OneShard(work), states)
      requires Step(OneShard(work), 0, states[|states| - 1], State(content, [process]))
      modifies this`states
      ensures At(old(states), work, process)
    {
      var longer := Extend(OneShard(work), 0, states, State(content, [process]));
      states := longer;
    }

    /** Keeps an existing file and returns its run ids when resuming; otherwise starts an empty one. */
    method CreateWriter(resume: bool) returns (completed: set<string>)
      modifies this`content
      ensures resume && old(content).Some? ==>
                content == old(content) && completed == Recorded(old(content))
      ensures !(resume && old(content).Some?) ==> content == Some([]) && completed == {}
    {
      completed := {};
      if resume && content.Some? {
        var rows := content.value;
        for i := 0 to |rows|
          invariant completed == set id | id in rows[..i]
        {
          completed := completed + {rows[i]};
        }
        assert rows[..|rows|] == rows;
      } else {
        content := Some([]);
      }
    }

    /** The writer of a process that resumes. */
    method Open(ghost work: seq<string>) returns (completed: set<string>)
      modifies this
      ensures IsRunning([Initial(OneShard(work), old(content))], work, Rows(old(content)), 0, completed)
      ensures completed == Recorded(old(content))
    {
      this.work := work;
      states := [Initial(OneShard(work), content)];
      Record(Checking);
      Record(if content.Some? then Reading else Truncating);
      completed := CreateWriter(true);
      RowsAfterNone(Rows(old(content)), work, completed);
      Record(Running(0, completed));
    }

    method Append(id: string, ghost rows: seq<string>, ghost next: nat, ghost completed: set<string>)
      requires IsRunning(states, work, rows, next, completed)
      requires next < |work| && id == work[next] && id !in completed
      modifies this
      ensures IsRunning(old(states), old(work), rows, next + 1, completed)
      ensures content == Some(old(content).value + [id])
    {
      RowsAfterOne(rows, work, next, completed);
      content := Some(content.value + [id]);
      Record(Running(next + 1, completed));
    }

    /** Skips a recorded episode, and appends the row of another unless something fails before it. */
    method RunEpisode(id: string, completed: set<string>, ghost rows: seq<string>, ghost next: nat) returns (ok: bool)
      requires IsRunning(states, work, rows, next, completed) && next < |work| && id == work[next]
      modifies this
      ensures IsRunning(old(states), old(work), rows, if ok then next + 1 else next, completed)
      ensures content == if ok && id !in completed then Some(old(content).value + [id]) else old(content)
    {
      var failed := *;
      if failed {
        return false;
      }
      if id in completed {
        RowsAfterOne(rows, work, next, completed);
        Record(Running(next + 1, completed));
      } else {
        Append(id, rows, next, completed);
      }
      ok := true;
    }

    /** The episodes of one family. A failure, of provisioning or of an episode, ends the process. */
    method RunFamily(
      v: Evaluation, arm: Arm, family: Family, completed: set<string>, ghost rows: seq<string>, ghost next: nat)
      returns (ok: bool, ghost done: nat)
      requires IsRunning(states, work, rows, next, completed) && PlansFrom(work, next, FamilyWork(v, arm, family))
      modifies this
      ensures next <= done && IsRunning(old(states), old(work), rows, done, completed)
      ensures ok ==> done == next + |FamilyWork(v, arm, family)|
    {
      var episodes := EpisodesForArm(family, arm);
      ghost var planned := FamilyWork(v, arm, family);
      done := next;
      for i := 0 to |episodes|
        invariant done == next + i && work == old(work)
        invariant IsRunning(old(states), work, rows, done, completed)
      {
        var id := RunIdFor(v, arm, episodes[i].episodeId);
        PlansAt(work, next, planned, i);
        ok := RunEpisode(id, completed, rows, done);
        if !ok {
          return;
        }
        done := done + 1;
      }
      ok := true;
    }

    /** The families of one arm. */
    method RunArm(
      v: Evaluation, arm: Arm, families: seq<Family>, completed: set<string>, ghost rows: seq<string>, ghost next: nat)
      returns (ok: bool, ghost done: nat)
      requires IsRunning(states, work, rows, next, completed) && PlansFrom(work, next, ArmWork(v, arm, families))
      modifies this
      ensures next <= done && IsRunning(old(states), old(work), rows, done, completed)
      ensures ok ==> done == next + |ArmWork(v, arm, families)|
    {
      ghost var works := FamilyWorks(v, arm, families);
      done := next;
      FirstPart(work, next, works);
      for i := 0 to |families|
        invariant next <= done && work == old(work) && IsAtPart(work, next, works, i, done)
        invariant IsRunning(old(states), work, rows, done, completed)
      {
        NextPart(work, next, works, i, done);
        ok, done := RunFamily(v, arm, families[i], completed, rows, done);
        if !ok {
          return;
        }
      }
      LastPart(work, next, works, done);
      ok := true;
    }

    /**
     * All arms, in order. The file gains the run ids of a prefix of the work, in order, without those
     * that were already recorded when the process started; and of all of it unless something failed.
     */
    method RunArms(v: Evaluation, families: seq<Family>, completed: set<string>, ghost rows: seq<string>)
      returns (ok: bool, ghost done: nat)
      requires IsRunning(states, work, rows, 0, completed) && work == Work(v, families)
      modifies this
      ensures IsRunning(old(states), old(work), rows, done, completed) && (ok ==> done == |old(work)|)
    {
      ghost var works := ArmWorks(v, families);
      done := 0;
      assert work[0..0 + |work|] == work;
      FirstPart(work, 0, works);
      for i := 0 to |v.arms|
        invariant work == old(work) && IsAtPart(work, 0, works, i, done)
        invariant IsRunning(old(states), work, rows, done, completed)
      {
        NextPart(work, 0, works, i, done);
        ok, done := RunArm(v, v.arms[i], families, completed, rows, done);
        if !ok {
          return;
        }
      }
      LastPart(work, 0, works, done);
      ok := true;
    }

    /** All arms, and what the machine does when the last is done. */
    method RunToEnd(v: Evaluation, families: seq<Family>, completed: set<string>, ghost rows: seq<string>)
      returns (ok: bool)
      requires IsRunning(states, work, rows, 0, completed) && work == Work(v, families)
      modifies this
      ensures IsExecution(OneShard(old(work)), states) && old(states) <= states
      ensures states[|states| - 1].file == content
      ensures ok ==>
                && states[|states| - 1].processes == [Finished]
                && content == Some(RowsAfter(rows, old(work), completed))
    {
      ghost var done;
      ok, done := RunArms(v, families, completed, rows);
      if ok {
        assert work[..done] == work;
        Record(Finished);
      }
    }

    /** The work of the shard, from its first episode to its last, once it has families. */
    method RunShard(v: Evaluation, families: seq<Family>, ghost planned: seq<string>) returns (ok: bool)
      requires planned == Work(v, families)
      modifies this
      ensures IsExecutionFrom(OneShard(planned), old(content), states)
      ensures states[|states| - 1].file == content
      ensures ok ==>
                && states[|states| - 1].processes == [Finished]
                && content == Some(RowsAfter(Rows(old(content)), planned, Recorded(old(content))))
    {
      ghost var file := content;
      var completed := Open(planned);
      ok := RunToEnd(v, families, completed, Rows(file));
      FromFirst(states, Initial(OneShard(planned), file));
    }

    /**
     * A process of shard `n:k`, started with the resume option. Its states are an execution of the
     * machine of that shard alone, from the file it found; it ends finished unless something failed.
     */
    method Evaluate(v: Evaluation, n: nat, k: nat) returns (result: Result<(), ProcessError>)
      modifies this
      ensures v.manifest == [] ==> result == Err(Manifest(NoEpisodes))
      ensures v.manifest != [] && (n < 1 || k >= n) ==> result == Err(Manifest(BadEpisodeMod))
      ensures v.manifest != [] && k < n && ShardFamilies(v, n, k) == [] ==> result == Err(NoFamilies)
      ensures result.Err? && result.error != RunFailed ==> content == old(content)
      ensures v.manifest != [] && k < n && ShardFamilies(v, n, k) != [] ==>
                && (result == Ok(()) || result == Err(RunFailed))
                && IsExecutionFrom(OneShard(ShardWork(v, n, k)), old(content), states)
                && states[|states| - 1].file == content
                && (result.Ok? ==>
                      && states[|states| - 1].processes == [Finished]
                      && content == Some(RowsAfter(Rows(old(content)), ShardWork(v, n, k), Recorded(old(content)))))
    {
      var loaded := LoadManifest(v.manifest, Some((n, k)));
      if loaded.Err? {
        return Err(Manifest(loaded.error));
      }
      var families := GroupFamilies(v.compare, loaded.value);
      families := Selected(v, families);
      if families == [] {
        return Err(NoFamilies);
      }
      var ok := RunShard(v, families, ShardWork(v, n, k));
      result := if ok then Ok(()) else Err(RunFailed);
    }
  }

  datatype ProcessError = Manifest(error: ManifestError) | NoFamilies | RunFailed

  /** From `next` on, `work` goes on with `part`. */
  ghost predicate PlansFrom(work: seq<string>, next: nat, part: seq<string>) {
    next + |part| <= |work| && work[next..next + |part|] == part
  }

  lemma PlansAt(work: seq<string>, next: nat, part: seq<string>, i: nat)
    requires PlansFrom(work, next, part) && i < |part|
    ensures next + i < |work| && work[next + i] == part[i]
  {
    assert part[i] == work[next..next + |part|][i];
  }

  /** A plan goes on with all the parts at `next`, and with the `i`-th at `done`. */
  ghost predicate IsAtPart(work: seq<string>, next: nat, parts: seq<seq<string>>, i: nat, done: nat) {
    && i <= |parts|
    && PlansFrom(work, next, Flatten(parts))
    && done == next + |Flatten(parts[..i])|
  }

  lemma FirstPart(work: seq<string>, next: nat, parts: seq<seq<string>>)
    requires PlansFrom(work, next, Flatten(parts))
    ensures IsAtPart(work, next, parts, 0, next)
  {
  }

  lemma NextPart(work: seq<string>, next: nat, parts: seq<seq<string>>, i: nat, done: nat)
    requires IsAtPart(work, next, parts, i, done) && i < |parts|
    ensures PlansFrom(work, done, parts[i])
    ensures IsAtPart(work, next, parts, i + 1, done + |parts[i]|)
  {
    FlattenGrows(parts, i);
    FlattenPrefix(parts, i);
    var before, whole := Flatten(parts[..i]), Flatten(parts);
    assert parts[i] == (before + parts[i])[|before|..];
    assert before + parts[i] == whole[..|before| + |parts[i]|];
  }

  lemma LastPart(work: seq<string>, next: nat, parts: seq<seq<string>>, done: nat)
    requires IsAtPart(work, next, parts, |parts|, done)
    ensures done == next + |Flatten(parts)|
  {
    assert parts[..|parts|] == parts;
  }

  lemma {:induction false} FlattenGrows(xss: seq<seq<string>>, i: nat)
    requires i < |xss|
    ensures Flatten(xss[..i]) + xss[i] <= Flatten(xss)
  {
    if i == |xss| - 1 {
      FlattenPrefix(xss, i);
      assert xss[..i + 1] == xss;
    } else {
      var init := xss[..|xss| - 1];
      FlattenGrows(init, i);
      assert init[..i] == xss[..i] && init[i] == xss[i];
    }
  }

  lemma FromFirst(states: seq<State>, first: State)
    ensures [first] <= states ==> |states| > 0 && states[0] == first
  {
  }

  lemma RowsAfterNone(rows: seq<string>, work: seq<string>, completed: set<string>)
    ensures RowsAfter(rows, work[..0], completed) == rows
  {
  }
}
