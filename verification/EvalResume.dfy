/**
 * Shard processes that append to one attempts file, each killed and resumed any number of times
 * (benchmark/evolbench-collab/src/report.ts:32-62, run.ts:58-64, 267-296).
 *
 * At most one process runs per shard. Reading the file, truncating it and appending a row are each
 * atomic; between any two of them any other process may act.
 */
module EvalResume {
  import opened Wrappers
  import opened Sequences
  import opened EvalManifest
  import opened EvalWork

  /** What each shard has to record, and whether it has families at all: one without never starts. */
  datatype Fleet = Fleet(works: seq<seq<string>>, starts: seq<bool>)

  /** Whoever has work starts. A run id may be planned more than once, by one shard or by several. */
  ghost predicate IsFleet(fleet: Fleet) {
    && |fleet.starts| == |fleet.works|
    && (forall k :: 0 <= k < |fleet.works| && fleet.works[k] != [] ==> fleet.starts[k])
  }

  datatype Process =
    | Stopped
    | Checking     // before asking whether the file exists
    | Reading      // it did
    | Truncating   // it did not
    | Running(next: nat, completed: set<string>)
    | Finished

  datatype State = State(file: Option<seq<string>>, processes: seq<Process>)

  function Rows(file: Option<seq<string>>): seq<string> {
    if file.Some? then file.value else []
  }

  function Recorded(file: Option<seq<string>>): set<string> {
    set id | id in Rows(file)
  }

  function Initial(fleet: Fleet, file: Option<seq<string>>): State {
    State(file, seq(|fleet.works|, k => Stopped))
  }

  /** The next thing a running process does on its own. */
  function Proceed(work: seq<string>, file: Option<seq<string>>, process: Process): (Option<seq<string>>, Process) {
    match process
    case Stopped => (file, Stopped)
    case Finished => (file, Finished)
    case Checking => (file, if file.Some? then Reading else Truncating)
    case Reading => (file, Running(0, Recorded(file)))
    case Truncating => (Some([]), Running(0, {}))
    case Running(next, completed) =>
      if next >= |work| then (file, Finished)
      else if work[next] in completed then (file, Running(next + 1, completed))
      else (Some(Rows(file) + [work[next]]), Running(next + 1, completed))
  }

  ghost predicate Step(fleet: Fleet, k: nat, s: State, t: State)
    requires |fleet.starts| == |fleet.works|
  {
    && k < |fleet.works| == |s.processes| == |t.processes|
    && t.processes == s.processes[k := t.processes[k]]
    && ((&& fleet.starts[k] && (s.processes[k].Stopped? || s.processes[k].Finished?)
         && t.processes[k] == Checking && t.file == s.file)       // started, or started again
        || (t.processes[k] == Stopped && t.file == s.file)        // killed
        || (t.file, t.processes[k]) == Proceed(fleet.works[k], s.file, s.processes[k]))
  }

  ghost predicate SomeStep(fleet: Fleet, s: State, t: State)
    requires |fleet.starts| == |fleet.works|
  {
    exists k :: Step(fleet, k, s, t)
  }

  ghost predicate IsExecution(fleet: Fleet, states: seq<State>) {
    && IsFleet(fleet)
    && |states| > 0
    && forall n :: 0 < n < |states| ==> SomeStep(fleet, states[n - 1], states[n])
  }

  ghost predicate IsExecutionFrom(fleet: Fleet, file: Option<seq<string>>, states: seq<State>) {
    IsExecution(fleet, states) && states[0] == Initial(fleet, file)
  }

  /** How often a run id is recorded. */
  function RowCount(s: State, id: string): nat {
    multiset(Rows(s.file))[id]
  }

  /* When a row is never repeated. */

  /** Nobody can record `id` twice: it was recorded before, or all plans together have it at most once. */
  ghost predicate IsPlannedOnce(fleet: Fleet, rows: seq<string>, id: string) {
    id in rows || multiset(Flatten(fleet.works))[id] <= 1
  }

  /** What is planned at most once is planned by one shard, once. */
  lemma PlannedByOne(works: seq<seq<string>>, id: string, j: nat, k: nat)
    requires multiset(Flatten(works))[id] <= 1 && j < |works| && k < |works|
    ensures multiset(works[k])[id] <= 1
    ensures j != k && id in works[k] ==> id !in works[j]
  {
    var counts := seq(|works|, i requires 0 <= i < |works| => multiset(works[i])[id]);
    FlattenSum(works, id, counts);
    SumOfTwo(counts, j, k);
    SumOfTwo(counts, k, j);
    assert id in works[j] <==> id in multiset(works[j]);
    assert id in works[k] <==> id in multiset(works[k]);
  }

  /** A process that comes to `id` knows of its row. */
  ghost predicate KnowsRow(work: seq<string>, file: Option<seq<string>>, recorded: bool, process: Process, id: string) {
    match process
    case Running(next, completed) =>
      && next <= |work|
      && (recorded ==> id in completed)
      && (id in Rows(file) && id in work[next..] ==> id in completed)
    case Truncating => !recorded
    case _ => true
  }

  ghost predicate RowInvariant(fleet: Fleet, file: Option<seq<string>>, id: string, s: State) {
    && |s.processes| == |fleet.works|
    && RowCount(s, id) <= 1
    && (id in Rows(file) ==> id in Rows(s.file))
    && forall k :: 0 <= k < |fleet.works| ==> KnowsRow(fleet.works[k], s.file, id in Rows(file), s.processes[k], id)
  }

  lemma OwnStepKeepsRow(
    work: seq<string>, recorded: bool, id: string, s: State, process: Process, file: Option<seq<string>>, next: Process)
    requires RowCount(s, id) <= 1 && (recorded ==> id in Rows(s.file))
    requires recorded || multiset(work)[id] <= 1
    requires KnowsRow(work, s.file, recorded, process, id)
    requires || (file == s.file && (next == Checking || next == Stopped))
             || (file, next) == Proceed(work, s.file, process)
    ensures RowCount(State(file, s.processes), id) <= 1
    ensures recorded ==> id in Rows(file)
    ensures KnowsRow(work, file, recorded, next, id)
  {
    if process.Running? && process.next < |work| && next.Running? {
      RunningStepKeepsRow(work, recorded, id, s, process.next, process.completed, file);
    }
  }

  lemma RunningStepKeepsRow(
    work: seq<string>, recorded: bool, id: string, s: State, next: nat, completed: set<string>, file: Option<seq<string>>)
    requires RowCount(s, id) <= 1 && (recorded ==> id in Rows(s.file))
    requires recorded || multiset(work)[id] <= 1
    requires next < |work| && KnowsRow(work, s.file, recorded, Running(next, completed), id)
    requires file == if work[next] in completed then s.file else Some(Rows(s.file) + [work[next]])
    ensures RowCount(State(file, s.processes), id) <= 1
    ensures recorded ==> id in Rows(file)
    ensures KnowsRow(work, file, recorded, Running(next + 1, completed), id)
  {
    var before, x, behind := work[..next], work[next], work[next + 1..];
    assert work[next..] == [x] + behind;
    assert work == before + ([x] + behind);
    RecordingKeepsRow(Rows(s.file), before, x, behind, completed, recorded, id);
  }

  /** What is planned at most once is not planned again behind its place, where its row may be appended. */
  lemma RecordingKeepsRow(
    rows: seq<string>, before: seq<string>, x: string, behind: seq<string>, completed: set<string>, recorded: bool, id: string)
    requires multiset(rows)[id] <= 1 && (recorded ==> id in rows && id in completed)
    requires recorded || multiset(before + ([x] + behind))[id] <= 1
    requires id in rows && id in [x] + behind ==> id in completed
    ensures id in rows && id in behind ==> id in completed
    ensures x !in completed ==> multiset(rows + [x])[id] <= 1 && (id in rows + [x] && id in behind ==> id in completed)
  {
    assert id in behind <==> id in multiset(behind);
    assert id in rows <==> id in multiset(rows);
    assert multiset(rows + [x])[id] == multiset(rows)[id] + multiset{x}[id];
  }

  lemma StepKeepsRow(fleet: Fleet, file: Option<seq<string>>, id: string, k: nat, s: State, t: State)
    requires IsFleet(fleet) && Step(fleet, k, s, t) && RowInvariant(fleet, file, id, s)
    requires IsPlannedOnce(fleet, Rows(file), id)
    ensures RowInvariant(fleet, file, id, t)
  {
    if id !in Rows(file) {
      PlannedByOne(fleet.works, id, k, k);
    }
    OwnStepKeepsRow(fleet.works[k], id in Rows(file), id, s, s.processes[k], t.file, t.processes[k]);
    forall j | 0 <= j < |fleet.works| && j != k
      ensures KnowsRow(fleet.works[j], t.file, id in Rows(file), t.processes[j], id)
    {
      assert t.processes[j] == s.processes[j];
      OtherStepKeepsRow(fleet, file, id, j, k, s, t);
    }
  }

  lemma OtherStepKeepsRow(fleet: Fleet, file: Option<seq<string>>, id: string, j: nat, k: nat, s: State, t: State)
    requires IsFleet(fleet) && Step(fleet, k, s, t) && RowInvariant(fleet, file, id, s)
    requires IsPlannedOnce(fleet, Rows(file), id)
    requires j < |fleet.works| && j != k
    ensures KnowsRow(fleet.works[j], t.file, id in Rows(file), s.processes[j], id)
  {
    if id !in Rows(file) {
      PlannedByOne(fleet.works, id, j, k);
    }
    if s.processes[k].Running? && s.processes[k].next < |fleet.works[k]| {
      assert fleet.works[k][s.processes[k].next] in fleet.works[k];
    }
  }

  lemma {:induction false} ExecutionKeepsRow(
    fleet: Fleet, file: Option<seq<string>>, id: string, states: seq<State>, n: nat)
    requires IsExecutionFrom(fleet, file, states) && n < |states|
    requires multiset(Rows(file))[id] <= 1 && IsPlannedOnce(fleet, Rows(file), id)
    ensures RowInvariant(fleet, file, id, states[n])
  {
    if n > 0 {
      ExecutionKeepsRow(fleet, file, id, states, n - 1);
      assert SomeStep(fleet, states[n - 1], states[n]);
      var k: nat :| Step(fleet, k, states[n - 1], states[n]);
      StepKeepsRow(fleet, file, id, k, states[n - 1], states[n]);
    }
  }

  /* Processes on their own. */

  /** What is left of some work when what is recorded is skipped. */
  function Missing(work: seq<string>, completed: set<string>): seq<string> {
    if work == [] then []
    else
      Missing(work[..|work| - 1], completed)
      + (if work[|work| - 1] in completed then [] else [work[|work| - 1]])
  }

  /** The rows of a process that got through `done` of its work. */
  function RowsAfter(rows: seq<string>, done: seq<string>, completed: set<string>): seq<string> {
    rows + Missing(done, completed)
  }

  lemma {:induction false} MissingCounts(work: seq<string>, completed: set<string>, id: string)
    ensures multiset(Missing(work, completed))[id] == if id in completed then 0 else multiset(work)[id]
  {
    if work != [] {
      var init, last := work[..|work| - 1], work[|work| - 1];
      MissingCounts(init, completed, id);
      assert work == init + [last];
      CountsAdd(init, [last], id);
      CountsAdd(Missing(init, completed), if last in completed then [] else [last], id);
    }
  }

  lemma RowsAfterOne(rows: seq<string>, work: seq<string>, i: nat, completed: set<string>)
    requires i < |work|
    ensures RowsAfter(rows, work[..i + 1], completed) ==
            if work[i] in completed then RowsAfter(rows, work[..i], completed)
            else RowsAfter(rows, work[..i], completed) + [work[i]]
  {
    assert work[..i + 1][..i] == work[..i];
  }

  lemma Extend(fleet: Fleet, k: nat, states: seq<State>, t: State) returns (longer: seq<State>)
    requires IsExecution(fleet, states) && Step(fleet, k, states[|states| - 1], t)
    ensures longer == states + [t] && IsExecution(fleet, longer)
  {
    longer := states + [t];
    forall n | 0 < n < |longer|
      ensures SomeStep(fleet, longer[n - 1], longer[n])
    {
      if n < |states| {
        assert SomeStep(fleet, states[n - 1], states[n]);
      } else {
        assert Step(fleet, k, longer[n - 1], longer[n]);
      }
    }
  }

  function Advanced(fleet: Fleet, k: nat, s: State): State
    requires k < |fleet.works| == |s.processes|
  {
    var (file, process) := Proceed(fleet.works[k], s.file, s.processes[k]);
    State(file, s.processes[k := process])
  }

  function Started(k: nat, s: State): State
    requires k < |s.processes|
  {
    s.(processes := s.processes[k := Checking])
  }

  /** Process `k` of `s`, running at `next` with what was recorded at first, after `rows`. */
  ghost predicate IsRunningAt(s: State, t: State, k: nat, rows: seq<string>, next: nat, completed: set<string>) {
    && k < |s.processes|
    && t == State(Some(rows), s.processes[k := Running(next, completed)])
  }

  lemma StartAlone(fleet: Fleet, k: nat, states: seq<State>) returns (longer: seq<State>)
    requires IsExecution(fleet, states) && k < |fleet.works| == |states[|states| - 1].processes|
    requires fleet.starts[k] && states[|states| - 1].processes[k].Stopped?
    ensures IsExecution(fleet, longer) && longer[0] == states[0]
    ensures
      var s := states[|states| - 1];
      IsRunningAt(s, longer[|longer| - 1], k, Rows(s.file), 0, Recorded(s.file))
  {
    var s := states[|states| - 1];
    var asked := Advanced(fleet, k, Started(k, s));
    var running := Advanced(fleet, k, asked);
    longer := Extend(fleet, k, states, Started(k, s));
    longer := Extend(fleet, k, longer, asked);
    longer := Extend(fleet, k, longer, running);
    if s.file.None? {
      assert Recorded(s.file) == {};
    }
    assert running.processes == s.processes[k := running.processes[k]];
  }

  /** The process does all its work, and finishes, while nobody else acts. */
  lemma {:induction false} FinishAlone(
    fleet: Fleet, k: nat, s: State, states: seq<State>, rows: seq<string>, next: nat, completed: set<string>)
    returns (longer: seq<State>)
    requires IsExecution(fleet, states) && k < |fleet.works| == |s.processes| && next <= |fleet.works[k]|
    requires IsRunningAt(s, states[|states| - 1], k, RowsAfter(rows, fleet.works[k][..next], completed), next, completed)
    ensures IsExecution(fleet, longer) && longer[0] == states[0]
    ensures longer[|longer| - 1] == State(Some(RowsAfter(rows, fleet.works[k], completed)), s.processes[k := Finished])
    decreases |fleet.works[k]| - next
  {
    AdvanceAlone(fleet, k, s, states[|states| - 1], rows, next, completed);
    longer := Extend(fleet, k, states, Advanced(fleet, k, states[|states| - 1]));
    if next < |fleet.works[k]| {
      longer := FinishAlone(fleet, k, s, longer, rows, next + 1, completed);
    }
  }

  lemma AdvanceAlone(fleet: Fleet, k: nat, s: State, t: State, rows: seq<string>, next: nat, completed: set<string>)
    requires k < |fleet.works| == |s.processes| && next <= |fleet.works[k]|
    requires IsRunningAt(s, t, k, RowsAfter(rows, fleet.works[k][..next], completed), next, completed)
    ensures next < |fleet.works[k]| ==>
              IsRunningAt(
                s, Advanced(fleet, k, t), k, RowsAfter(rows, fleet.works[k][..next + 1], completed), next + 1, completed)
    ensures next == |fleet.works[k]| ==>
              Advanced(fleet, k, t) == State(Some(RowsAfter(rows, fleet.works[k], completed)), s.processes[k := Finished])
  {
    var work := fleet.works[k];
    UpdatedTwice(s.processes, k, Running(next, completed), Advanced(fleet, k, t).processes[k]);
    if next < |work| {
      RowsAfterOne(rows, work, next, completed);
    } else {
      assert work[..next] == work;
    }
  }

  lemma UpdatedTwice(processes: seq<Process>, k: nat, a: Process, b: Process)
    requires k < |processes|
    ensures processes[k := a][k := b] == processes[k := b] && processes[k := a][k] == a
  {
  }

  /** A shard whose plan has a run id twice that is not recorded records it twice, all on its own. */
  lemma OneShardRepeatsRow(fleet: Fleet, file: Option<seq<string>>, k: nat, id: string) returns (states: seq<State>)
    requires IsFleet(fleet) && k < |fleet.works|
    requires multiset(fleet.works[k])[id] > 1 && id !in Rows(file)
    ensures IsExecutionFrom(fleet, file, states) && RowCount(states[|states| - 1], id) > 1
  {
    var s, work, completed := Initial(fleet, file), fleet.works[k], Recorded(file);
    assert id in multiset(work);
    states := StartAlone(fleet, k, [s]);
    assert RowsAfter(Rows(file), work[..0], completed) == Rows(file);
    states := FinishAlone(fleet, k, s, states, Rows(file), 0, completed);
    MissingCounts(work, completed, id);
  }

  /** Two shards that plan it both start, and then finish one after the other. */
  lemma TwoShardsRepeatRow(fleet: Fleet, file: Option<seq<string>>, j: nat, k: nat, id: string)
    returns (states: seq<State>)
    requires IsFleet(fleet) && j < |fleet.works| && k < |fleet.works| && j != k
    requires id in fleet.works[j] && id in fleet.works[k] && id !in Rows(file)
    ensures IsExecutionFrom(fleet, file, states) && RowCount(states[|states| - 1], id) > 1
  {
    var rows, completed := Rows(file), Recorded(file);
    states := StartAlone(fleet, j, [Initial(fleet, file)]);
    var s := states[|states| - 1];
    states := StartAlone(fleet, k, states);
    assert RowsAfter(rows, fleet.works[k][..0], completed) == rows;
    states := FinishAlone(fleet, k, s, states, rows, 0, completed);
    var t := states[|states| - 1];
    var more := RowsAfter(rows, fleet.works[k], completed);
    assert RowsAfter(more, fleet.works[j][..0], completed) == more;
    assert t.processes[j := Running(0, completed)] == t.processes;
    states := FinishAlone(fleet, j, t, states, more, 0, completed);
    MissingCounts(fleet.works[j], completed, id);
    MissingCounts(fleet.works[k], completed, id);
    assert id in multiset(fleet.works[j]) && id in multiset(fleet.works[k]);
  }

  /** Shards that together plan a run id twice that is not recorded can record it twice. */
  lemma RepeatedPlanRepeatsRow(fleet: Fleet, file: Option<seq<string>>, id: string) returns (states: seq<State>)
    requires IsFleet(fleet) && multiset(Flatten(fleet.works))[id] > 1 && id !in Rows(file)
    ensures IsExecutionFrom(fleet, file, states) && RowCount(states[|states| - 1], id) > 1
  {
    if k: nat :| k < |fleet.works| && multiset(fleet.works[k])[id] > 1 {
      states := OneShardRepeatsRow(fleet, file, k, id);
    } else {
      FlattenRepeats(fleet.works, id);
      var j: nat, k: nat :| j < k < |fleet.works| && id in fleet.works[j] && id in fleet.works[k];
      states := TwoShardsRepeatRow(fleet, file, j, k, id);
    }
  }

  /**
   * Whatever the interleaving and however often processes are killed and resumed, a run id never
   * gets a second row exactly when it had at most one at first, and had one or is planned at most
   * once by all shards together.
   */
  lemma RowIsUniqueExactlyWhenPlannedOnce(fleet: Fleet, file: Option<seq<string>>, id: string)
    requires IsFleet(fleet)
    ensures (forall states: seq<State>, n: nat :: IsExecutionFrom(fleet, file, states) && n < |states| ==>
               RowCount(states[n], id) <= 1) <==>
            multiset(Rows(file))[id] <= 1 && IsPlannedOnce(fleet, Rows(file), id)
  {
    if multiset(Rows(file))[id] > 1 {
      var s := Initial(fleet, file);
      assert IsExecutionFrom(fleet, file, [s]) && RowCount([s][0], id) > 1;
    } else if !IsPlannedOnce(fleet, Rows(file), id) {
      var states := RepeatedPlanRepeatsRow(fleet, file, id);
      assert RowCount(states[|states| - 1], id) > 1;
    } else {
      forall states: seq<State>, n: nat | IsExecutionFrom(fleet, file, states) && n < |states|
        ensures RowCount(states[n], id) <= 1
      {
        ExecutionKeepsRow(fleet, file, id, states, n);
      }
    }
  }

  /* When no row is lost. */

  /** Every row of a shard whose process has finished is there. */
  ghost predicate NothingIsLost(fleet: Fleet, s: State) {
    && |s.processes| == |fleet.works|
    && forall k, id :: 0 <= k < |fleet.works| && s.processes[k].Finished? && id in fleet.works[k] ==> id in Rows(s.file)
  }

  /** No two shards start of which one has rows to lose. */
  ghost predicate HasNoRivals(fleet: Fleet)
    requires |fleet.starts| == |fleet.works|
  {
    !exists j, k :: IsRivalOf(fleet, j, k)
  }

  ghost predicate IsRivalOf(fleet: Fleet, j: nat, k: nat)
    requires |fleet.starts| == |fleet.works|
  {
    j < |fleet.works| && k < |fleet.works| && j != k && fleet.starts[j] && fleet.starts[k] && fleet.works[j] != []
  }

  ghost predicate ProcessInvariant(work: seq<string>, file: Option<seq<string>>, process: Process) {
    match process
    case Finished => forall id :: id in work ==> id in Rows(file)
    case Running(next, completed) =>
      && next <= |work|
      && (forall i :: 0 <= i < next ==> work[i] in Rows(file))
      && (forall id :: id in completed ==> id in Rows(file))
    case Truncating => Rows(file) == []
    case _ => true
  }

  ghost predicate Invariant(fleet: Fleet, s: State)
    requires |fleet.starts| == |fleet.works|
  {
    && |s.processes| == |fleet.works|
    && (forall k :: 0 <= k < |fleet.works| ==> ProcessInvariant(fleet.works[k], s.file, s.processes[k]))
    && (forall k :: 0 <= k < |fleet.works| && !fleet.starts[k] ==> s.processes[k].Stopped?)
    && (HasNoRivals(fleet) || (s.file.Some? && forall k :: 0 <= k < |fleet.works| ==> !s.processes[k].Truncating?))
  }

  lemma StepKeepsInvariant(fleet: Fleet, k: nat, s: State, t: State)
    requires IsFleet(fleet) && Step(fleet, k, s, t) && Invariant(fleet, s)
    ensures Invariant(fleet, t)
  {
    forall j | 0 <= j < |fleet.works|
      ensures ProcessInvariant(fleet.works[j], t.file, t.processes[j])
    {
      if j == k {
        OwnStep(fleet.works[k], s.file, s.processes[k], t.file, t.processes[k]);
      } else {
        OtherStep(fleet, j, k, s, t);
      }
    }
  }

  lemma OwnStep(work: seq<string>, file: Option<seq<string>>, process: Process, file': Option<seq<string>>, process': Process)
    requires ProcessInvariant(work, file, process)
    requires || (file' == file && (process' == Stopped || process' == Checking))
             || (file', process') == Proceed(work, file, process)
    ensures ProcessInvariant(work, file', process')
  {
  }

  lemma OtherStep(fleet: Fleet, j: nat, k: nat, s: State, t: State)
    requires IsFleet(fleet) && Step(fleet, k, s, t) && Invariant(fleet, s)
    requires j < |fleet.works| && j != k
    ensures ProcessInvariant(fleet.works[j], t.file, t.processes[j])
  {
    assert t.processes[j] == s.processes[j];
    if t.file != s.file && s.processes[k].Running? {
      var id := fleet.works[k][s.processes[k].next];
      assert Rows(t.file) == Rows(s.file) + [id];
      assert id in fleet.works[k];
      if s.processes[j].Truncating? {
        assert IsRivalOf(fleet, k, j);
      }
    }
  }

  lemma {:induction false} ExecutionKeepsInvariant(fleet: Fleet, file: Option<seq<string>>, states: seq<State>, n: nat)
    requires IsExecutionFrom(fleet, file, states) && n < |states|
    requires file.Some? || HasNoRivals(fleet)
    ensures Invariant(fleet, states[n]) && NothingIsLost(fleet, states[n])
  {
    if n > 0 {
      ExecutionKeepsInvariant(fleet, file, states, n - 1);
      assert SomeStep(fleet, states[n - 1], states[n]);
      var k: nat :| Step(fleet, k, states[n - 1], states[n]);
      StepKeepsInvariant(fleet, k, states[n - 1], states[n]);
    }
    forall k, id | 0 <= k < |fleet.works| && states[n].processes[k].Finished? && id in fleet.works[k]
      ensures id in Rows(states[n].file)
    {
      assert ProcessInvariant(fleet.works[k], states[n].file, states[n].processes[k]);
    }
  }

  /**
   * Two shards that both find no file: one creates it, records all its work and finishes, and then
   * the other creates it again.
   */
  lemma RivalLosesRows(fleet: Fleet, j: nat, k: nat) returns (states: seq<State>)
    requires IsFleet(fleet) && IsRivalOf(fleet, j, k)
    ensures IsExecutionFrom(fleet, None, states)
    ensures !NothingIsLost(fleet, states[|states| - 1])
  {
    var s0 := Initial(fleet, None);
    states := Extend(fleet, k, [s0], Started(k, s0));
    var s1 := Advanced(fleet, k, Started(k, s0));
    states := Extend(fleet, k, states, s1);
    states := StartAlone(fleet, j, states);
    assert RowsAfter([], fleet.works[j][..0], {}) == [];
    assert Recorded(s1.file) == {};
    states := FinishAlone(fleet, j, s1, states, [], 0, {});
    var s2 := states[|states| - 1];
    assert s2.processes[k] == Truncating;
    var s3 := Advanced(fleet, k, s2);
    states := Extend(fleet, k, states, s3);
    var id := fleet.works[j][0];
    assert s3.processes[j].Finished? && id in fleet.works[j] && id !in Rows(s3.file);
  }

  /**
   * No row of a finished shard is ever lost exactly when the file exists before the first process
   * starts, or no shard with work has another shard starting beside it.
   */
  lemma NothingIsLostExactlyWhenFileExists(fleet: Fleet, file: Option<seq<string>>)
    requires IsFleet(fleet)
    ensures (forall states: seq<State>, n: nat :: IsExecutionFrom(fleet, file, states) && n < |states| ==>
               NothingIsLost(fleet, states[n])) <==>
            (file.Some? || HasNoRivals(fleet))
  {
    if file.Some? || HasNoRivals(fleet) {
      forall states: seq<State>, n: nat | IsExecutionFrom(fleet, file, states) && n < |states|
        ensures NothingIsLost(fleet, states[n])
      {
        ExecutionKeepsInvariant(fleet, file, states, n);
      }
    } else {
      var j: nat, k: nat :| IsRivalOf(fleet, j, k);
      var states := RivalLosesRows(fleet, j, k);
      assert IsExecutionFrom(fleet, file, states);
    }
  }

  /** At most one row per run id, and every row of a shard whose process has finished. */
  ghost predicate Guarantee(fleet: Fleet, s: State) {
    IsDistinct(Rows(s.file)) && NothingIsLost(fleet, s)
  }

  ghost predicate IsAlwaysGuaranteed(fleet: Fleet, file: Option<seq<string>>) {
    forall states: seq<State>, n: nat :: IsExecutionFrom(fleet, file, states) && n < |states| ==> Guarantee(fleet, states[n])
  }

  ghost predicate IsNeverRepeated(fleet: Fleet, file: Option<seq<string>>) {
    forall states: seq<State>, n: nat :: IsExecutionFrom(fleet, file, states) && n < |states| ==>
      IsDistinct(Rows(states[n].file))
  }

  lemma RowsAreDistinct(s: State)
    ensures IsDistinct(Rows(s.file)) <==> forall id :: RowCount(s, id) <= 1
  {
    DistinctCounts(Rows(s.file));
    if forall id :: RowCount(s, id) <= 1 {
      forall id
        ensures multiset(Rows(s.file))[id] <= 1
      {
        assert RowCount(s, id) <= 1;
      }
    }
  }

  /** No row is ever repeated exactly when none was at first and no plan repeats an id without a row. */
  lemma NoRowRepeatsExactlyWhenNoPlanDoes(fleet: Fleet, file: Option<seq<string>>)
    requires IsFleet(fleet)
    ensures IsNeverRepeated(fleet, file) <==>
            IsDistinct(Rows(file)) && forall id :: IsPlannedOnce(fleet, Rows(file), id)
  {
    DistinctCounts(Rows(file));
    if IsDistinct(Rows(file)) && forall id :: IsPlannedOnce(fleet, Rows(file), id) {
      forall states: seq<State>, n: nat | IsExecutionFrom(fleet, file, states) && n < |states|
        ensures IsDistinct(Rows(states[n].file))
      {
        RowsAreDistinct(states[n]);
        forall id
          ensures RowCount(states[n], id) <= 1
        {
          assert multiset(Rows(file))[id] <= 1;
          assert IsPlannedOnce(fleet, Rows(file), id);
          ExecutionKeepsRow(fleet, file, id, states, n);
        }
      }
    }
    if IsNeverRepeated(fleet, file) {
      forall id
        ensures multiset(Rows(file))[id] <= 1 && IsPlannedOnce(fleet, Rows(file), id)
      {
        RowIsUniqueExactlyWhenPlannedOnce(fleet, file, id);
        forall states: seq<State>, n: nat | IsExecutionFrom(fleet, file, states) && n < |states|
          ensures RowCount(states[n], id) <= 1
        {
          RowsAreDistinct(states[n]);
        }
      }
    }
  }

  /** Resuming is safe exactly when the file was there or has no rivals, and no plan repeats a new row. */
  lemma ResumeIsSafeExactlyWhen(fleet: Fleet, file: Option<seq<string>>)
    requires IsFleet(fleet)
    ensures IsAlwaysGuaranteed(fleet, file) <==>
            && (file.Some? || HasNoRivals(fleet))
            && IsDistinct(Rows(file))
            && forall id :: IsPlannedOnce(fleet, Rows(file), id)
  {
    NothingIsLostExactlyWhenFileExists(fleet, file);
    NoRowRepeatsExactlyWhenNoPlanDoes(fleet, file);
    if IsAlwaysGuaranteed(fleet, file) {
      forall states: seq<State>, n: nat | IsExecutionFrom(fleet, file, states) && n < |states|
        ensures NothingIsLost(fleet, states[n]) && IsDistinct(Rows(states[n].file))
      {
        assert Guarantee(fleet, states[n]);
      }
    }
  }

  /* The fleet of an evaluation. */

  function FleetOf(v: Evaluation, n: nat): Fleet
    requires n >= 1
  {
    Fleet(ShardWorks(v, n), seq(n, k requires 0 <= k < n => ShardFamilies(v, n, k) != []))
  }

  /** The shards of every evaluation make a fleet, whatever its arms and its manifest repeat. */
  lemma EvaluationIsFleet(v: Evaluation, n: nat)
    requires n >= 1
    ensures IsFleet(FleetOf(v, n))
  {
    var fleet := FleetOf(v, n);
    forall k | 0 <= k < n
      ensures fleet.works[k] != [] ==> fleet.starts[k]
    {
      if ShardFamilies(v, n, k) == [] {
        NoFamiliesNoWork(v);
      }
    }
  }

  lemma NoFamiliesNoWork(v: Evaluation)
    ensures Work(v, []) == []
  {
    forall i | 0 <= i < |v.arms|
      ensures ArmWorks(v, [])[i] == []
    {
      assert FamilyWorks(v, v.arms[i], []) == [];
    }
    FlattenOfNothing(ArmWorks(v, []));
  }

  /** How often an evaluation runs an episode id with an arm: once for each time either is listed. */
  function Repeats(v: Evaluation, arm: Arm, episodeId: string): nat {
    multiset(v.arms)[arm] * Runs(v, arm, v.manifest, episodeId)
  }

  /**
   * For every evaluation, an arm of an episode id never has two rows exactly when it had at most one
   * at first, and had one or is run at most once: by an arm listed once, on one line of the manifest.
   */
  lemma OneRowExactlyWhenRunOnce(v: Evaluation, n: nat, file: Option<seq<string>>, arm: Arm, episodeId: string)
    requires n >= 1
    ensures
      var id := RunIdFor(v, arm, episodeId);
      (forall states: seq<State>, i: nat :: IsExecutionFrom(FleetOf(v, n), file, states) && i < |states| ==>
         RowCount(states[i], id) <= 1) <==>
      multiset(Rows(file))[id] <= 1 && (id in Rows(file) || Repeats(v, arm, episodeId) <= 1)
  {
    EvaluationIsFleet(v, n);
    ShardsPlanEveryRun(v, n, arm, episodeId);
    RowIsUniqueExactlyWhenPlannedOnce(FleetOf(v, n), file, RunIdFor(v, arm, episodeId));
  }

  lemma EveryPlanIsSingle(v: Evaluation, n: nat, rows: seq<string>, id: string)
    requires n >= 1
    requires forall arm, episodeId :: RunIdFor(v, arm, episodeId) in rows || Repeats(v, arm, episodeId) <= 1
    ensures IsPlannedOnce(FleetOf(v, n), rows, id)
  {
    assert id in Planned(v, n) <==> id in multiset(Planned(v, n));
    if id in Planned(v, n) {
      PlannedIsRunId(v, n, id);
      var arm, episodeId :| id == RunIdFor(v, arm, episodeId);
      ShardsPlanEveryRun(v, n, arm, episodeId);
      assert Repeats(v, arm, episodeId) <= 1 || id in rows;
    }
  }

  /**
   * No row of an evaluation is ever repeated exactly when none was at first and whatever it runs more
   * than once is recorded already.
   */
  lemma NoRowRepeatsExactlyWhenRepeatedRunsAreRecorded(v: Evaluation, n: nat, file: Option<seq<string>>)
    requires n >= 1
    ensures IsNeverRepeated(FleetOf(v, n), file) <==>
            && IsDistinct(Rows(file))
            && forall arm, episodeId :: RunIdFor(v, arm, episodeId) in Rows(file) || Repeats(v, arm, episodeId) <= 1
  {
    var fleet := FleetOf(v, n);
    EvaluationIsFleet(v, n);
    NoRowRepeatsExactlyWhenNoPlanDoes(fleet, file);
    if forall arm, episodeId :: RunIdFor(v, arm, episodeId) in Rows(file) || Repeats(v, arm, episodeId) <= 1 {
      forall id
        ensures IsPlannedOnce(fleet, Rows(file), id)
      {
        EveryPlanIsSingle(v, n, Rows(file), id);
      }
    }
    if forall id :: IsPlannedOnce(fleet, Rows(file), id) {
      forall arm, episodeId
        ensures RunIdFor(v, arm, episodeId) in Rows(file) || Repeats(v, arm, episodeId) <= 1
      {
        assert IsPlannedOnce(fleet, Rows(file), RunIdFor(v, arm, episodeId));
        ShardsPlanEveryRun(v, n, arm, episodeId);
      }
    }
  }

  /**
   * With the attempts file there before the shards start, or without rivals, an arm of an episode it
   * runs has a row as soon as every shard with families finished; and no more than that one.
   */
  lemma OneRowPerArmAndEpisode(
    v: Evaluation, n: nat, file: Option<seq<string>>, states: seq<State>, i: nat, arm: Arm, e: Episode)
    requires n >= 1 && (file.Some? || HasNoRivals(FleetOf(v, n)))
    requires IsExecutionFrom(FleetOf(v, n), file, states) && i < |states|
    requires e in v.manifest && IsPlanned(v, arm, e)
    ensures |states[i].processes| == n
    ensures
      var id := RunIdFor(v, arm, e.episodeId);
      var finished := forall k :: 0 <= k < n && FleetOf(v, n).starts[k] ==> states[i].processes[k].Finished?;
      var once := multiset(Rows(file))[id] <= 1 && (id in Rows(file) || Repeats(v, arm, e.episodeId) <= 1);
      && (finished ==> RowCount(states[i], id) >= 1)
      && (once ==> RowCount(states[i], id) <= 1)
  {
    var fleet, id := FleetOf(v, n), RunIdFor(v, arm, e.episodeId);
    EvaluationIsFleet(v, n);
    ShardsPlanEverything(v, n, arm, e);
    var k: nat :| k < n && id in ShardWork(v, n, k);
    ExecutionKeepsInvariant(fleet, file, states, i);
    assert id in fleet.works[k] && fleet.works[k] != [];
    assert id in Rows(states[i].file) <==> id in multiset(Rows(states[i].file));
    OneRowExactlyWhenRunOnce(v, n, file, arm, e.episodeId);
  }
}
