/**
 * The work of one evaluation process: the run ids of every arm and selected episode of its shard, in
 * the order they are run (benchmark/evolbench-collab/src/run.ts:37-44, 68-70, 267-296).
 */
module EvalWork {
  import opened Sequences
  import opened Sorting
  import opened EvalManifest

  /** What all processes of one evaluation share. */
  datatype Evaluation = Evaluation(
    evaluationId: string,
    seed: string,
    arms: seq<Arm>,
    families: seq<string>,  // empty: all of them
    compare: (string, string) -> int,
    manifest: seq<Episode>)

  function ArmName(arm: Arm): string {
    match arm
    case Warm => "warm"
    case Cold => "cold"
  }

  function RunIdFor(v: Evaluation, arm: Arm, episodeId: string): string {
    v.evaluationId + ":" + episodeId + ":" + v.seed + ":" + ArmName(arm)
  }

  lemma SameInTheMiddle(front: string, d: string, e: string, a: string, b: string)
    requires |a| == |b| && front + d + a == front + e + b
    ensures d == e && a == b
  {
    var r, s := front + d + a, front + e + b;
    assert r[..|front| + |d|] == front + d && s[..|front| + |e|] == front + e;
    assert r[|front| + |d|..] == a && s[|front| + |e|..] == b;
    assert (front + d)[|front|..] == d && (front + e)[|front|..] == e;
  }

  lemma ArmNamesDiffer(front: string, a: Arm, b: Arm)
    ensures |front + ArmName(a)| == |front + ArmName(b)|
    ensures front + ArmName(a) == front + ArmName(b) ==> a == b
  {
    assert (front + ArmName(a))[|front|] == ArmName(a)[0] && (front + ArmName(b))[|front|] == ArmName(b)[0];
    assert ArmName(Warm)[0] == 'w' && ArmName(Cold)[0] == 'c';
  }

  lemma RunIdInParts(v: Evaluation, arm: Arm, episodeId: string)
    ensures RunIdFor(v, arm, episodeId) == (v.evaluationId + ":") + episodeId + ((":" + v.seed + ":") + ArmName(arm))
  {
  }

  /** Within one evaluation a run id names one arm and one episode, whatever the ids contain. */
  lemma RunIdsAreInjective(v: Evaluation, a: Arm, b: Arm, d: string, e: string)
    requires RunIdFor(v, a, d) == RunIdFor(v, b, e)
    ensures a == b && d == e
  {
    RunIdInParts(v, a, d);
    RunIdInParts(v, b, e);
    ArmNamesDiffer(":" + v.seed + ":", a, b);
    SameInTheMiddle(v.evaluationId + ":", d, e, (":" + v.seed + ":") + ArmName(a), (":" + v.seed + ":") + ArmName(b));
  }

  function TestOnly(episodes: seq<Episode>): seq<Episode> {
    if episodes == [] then []
    else
      var init, last := episodes[..|episodes| - 1], episodes[|episodes| - 1];
      TestOnly(init) + (if last.split == Test then [last] else [])
  }

  /** Warm runs every episode of a family, cold only its test episodes. */
  function EpisodesForArm(family: Family, arm: Arm): seq<Episode> {
    if arm == Warm then family.episodes else TestOnly(family.episodes)
  }

  predicate IsSelected(v: Evaluation, familyId: string) {
    v.families == [] || familyId in v.families
  }

  function Selected(v: Evaluation, families: seq<Family>): seq<Family> {
    if families == [] then []
    else
      var init, last := families[..|families| - 1], families[|families| - 1];
      Selected(v, init) + (if IsSelected(v, last.familyId) then [last] else [])
  }

  function RunIds(v: Evaluation, arm: Arm, episodes: seq<Episode>): seq<string> {
    seq(|episodes|, i requires 0 <= i < |episodes| => RunIdFor(v, arm, episodes[i].episodeId))
  }

  function FamilyWork(v: Evaluation, arm: Arm, family: Family): seq<string> {
    RunIds(v, arm, EpisodesForArm(family, arm))
  }

  function FamilyWorks(v: Evaluation, arm: Arm, families: seq<Family>): seq<seq<string>> {
    seq(|families|, i requires 0 <= i < |families| => FamilyWork(v, arm, families[i]))
  }

  function ArmWork(v: Evaluation, arm: Arm, families: seq<Family>): seq<string> {
    Flatten(FamilyWorks(v, arm, families))
  }

  function ArmWorks(v: Evaluation, families: seq<Family>): seq<seq<string>> {
    seq(|v.arms|, i requires 0 <= i < |v.arms| => ArmWork(v, v.arms[i], families))
  }

  function Work(v: Evaluation, families: seq<Family>): seq<string> {
    Flatten(ArmWorks(v, families))
  }

  function ShardFamilies(v: Evaluation, n: nat, k: nat): seq<Family>
    requires n >= 1
  {
    Selected(v, Families(v.compare, Shard(v.manifest, n, k)))
  }

  function ShardWork(v: Evaluation, n: nat, k: nat): seq<string>
    requires n >= 1
  {
    Work(v, ShardFamilies(v, n, k))
  }

  function ShardWorks(v: Evaluation, n: nat): seq<seq<string>>
    requires n >= 1
  {
    seq(n, k requires 0 <= k < n => ShardWork(v, n, k))
  }

  /** What all shards plan, one after the other. */
  function Planned(v: Evaluation, n: nat): seq<string>
    requires n >= 1
  {
    Flatten(ShardWorks(v, n))
  }

  /* How often an arm runs an episode. */

  /** The arm runs the episode: its family is selected, and cold runs the test split alone. */
  predicate IsRun(v: Evaluation, arm: Arm, e: Episode) {
    IsSelected(v, e.familyId) && (arm == Warm || e.split == Test)
  }

  /** How many of these episodes have the id and are run by the arm. */
  function Runs(v: Evaluation, arm: Arm, episodes: seq<Episode>, episodeId: string): nat {
    if episodes == [] then 0
    else
      var init, last := episodes[..|episodes| - 1], episodes[|episodes| - 1];
      Runs(v, arm, init, episodeId) + (if last.episodeId == episodeId && IsRun(v, arm, last) then 1 else 0)
  }

  lemma RunsOfMore(v: Evaluation, arm: Arm, episodes: seq<Episode>, e: Episode, episodeId: string)
    ensures Runs(v, arm, episodes + [e], episodeId) ==
            Runs(v, arm, episodes, episodeId) + if e.episodeId == episodeId && IsRun(v, arm, e) then 1 else 0
  {
    assert (episodes + [e])[..|episodes|] == episodes;
  }

  lemma {:induction false} RunsConcat(v: Evaluation, arm: Arm, a: seq<Episode>, b: seq<Episode>, episodeId: string)
    ensures Runs(v, arm, a + b, episodeId) == Runs(v, arm, a, episodeId) + Runs(v, arm, b, episodeId)
  {
    if b == [] {
      assert a + b == a;
    } else {
      var init, last := b[..|b| - 1], b[|b| - 1];
      assert a + b == (a + init) + [last];
      RunsConcat(v, arm, a, init, episodeId);
      RunsOfMore(v, arm, a + init, last, episodeId);
    }
  }

  lemma TakeOut(xs: seq<Episode>, ys: seq<Episode>) returns (front: seq<Episode>, back: seq<Episode>)
    requires xs != [] && multiset(xs) == multiset(ys)
    ensures ys == front + [xs[|xs| - 1]] + back && multiset(xs[..|xs| - 1]) == multiset(front + back)
  {
    var init, last := xs[..|xs| - 1], xs[|xs| - 1];
    assert xs == init + [last];
    assert last in multiset(ys);
    var i :| 0 <= i < |ys| && ys[i] == last;
    front, back := ys[..i], ys[i + 1..];
    assert ys == front + [last] + back;
    assert multiset(front + back) == multiset(ys) - multiset{last};
  }

  /** The order of the episodes does not matter. */
  lemma {:induction false} RunsPermute(v: Evaluation, arm: Arm, xs: seq<Episode>, ys: seq<Episode>, episodeId: string)
    requires multiset(xs) == multiset(ys)
    ensures Runs(v, arm, xs, episodeId) == Runs(v, arm, ys, episodeId)
    decreases |xs|
  {
    if xs == [] {
      assert |multiset(ys)| == 0;
    } else {
      var front, back := TakeOut(xs, ys);
      RunsPermute(v, arm, xs[..|xs| - 1], front + back, episodeId);
      RunsConcat(v, arm, front, back, episodeId);
      RunsOfMore(v, arm, front, xs[|xs| - 1], episodeId);
      RunsConcat(v, arm, front + [xs[|xs| - 1]], back, episodeId);
    }
  }

  lemma {:induction false} RunsOfSome(v: Evaluation, arm: Arm, episodes: seq<Episode>, episodeId: string)
    ensures Runs(v, arm, episodes, episodeId) > 0 <==>
              exists e :: e in episodes && e.episodeId == episodeId && IsRun(v, arm, e)
  {
    if episodes != [] {
      RunsOfSome(v, arm, episodes[..|episodes| - 1], episodeId);
      assert episodes == episodes[..|episodes| - 1] + [episodes[|episodes| - 1]];
    }
  }

  /* One family. */

  lemma {:induction false} RunIdsCount(v: Evaluation, arm: Arm, episodes: seq<Episode>, episodeId: string)
    requires forall e :: e in episodes ==> IsRun(v, arm, e)
    ensures multiset(RunIds(v, arm, episodes))[RunIdFor(v, arm, episodeId)] == Runs(v, arm, episodes, episodeId)
  {
    if episodes != [] {
      var init, last := episodes[..|episodes| - 1], episodes[|episodes| - 1];
      RunIdsCount(v, arm, init, episodeId);
      assert RunIds(v, arm, episodes) == RunIds(v, arm, init) + [RunIdFor(v, arm, last.episodeId)];
      if RunIdFor(v, arm, last.episodeId) == RunIdFor(v, arm, episodeId) {
        RunIdsAreInjective(v, arm, arm, last.episodeId, episodeId);
      }
    }
  }

  lemma {:induction false} TestOnlyMembers(episodes: seq<Episode>)
    ensures forall e :: e in TestOnly(episodes) <==> e in episodes && e.split == Test
  {
    if episodes != [] {
      TestOnlyMembers(episodes[..|episodes| - 1]);
      assert episodes == episodes[..|episodes| - 1] + [episodes[|episodes| - 1]];
    }
  }

  lemma {:induction false} RunsOfTestOnly(v: Evaluation, episodes: seq<Episode>, episodeId: string)
    ensures Runs(v, Cold, TestOnly(episodes), episodeId) == Runs(v, Cold, episodes, episodeId)
  {
    if episodes != [] {
      var init, last := episodes[..|episodes| - 1], episodes[|episodes| - 1];
      RunsOfTestOnly(v, init, episodeId);
      if last.split == Test {
        RunsOfMore(v, Cold, TestOnly(init), last, episodeId);
      } else {
        assert TestOnly(episodes) == TestOnly(init) + [] == TestOnly(init);
      }
    }
  }

  /** The family has the episodes of one family id. */
  ghost predicate IsFamily(family: Family) {
    forall e :: e in family.episodes ==> e.familyId == family.familyId
  }

  lemma FamilyWorkCounts(v: Evaluation, arm: Arm, family: Family, episodeId: string)
    requires IsFamily(family) && IsSelected(v, family.familyId)
    ensures multiset(FamilyWork(v, arm, family))[RunIdFor(v, arm, episodeId)] == Runs(v, arm, family.episodes, episodeId)
  {
    if arm == Cold {
      TestOnlyMembers(family.episodes);
      RunsOfTestOnly(v, family.episodes, episodeId);
    }
    RunIdsCount(v, arm, EpisodesForArm(family, arm), episodeId);
  }

  lemma {:induction false} OtherFamily(v: Evaluation, arm: Arm, episodes: seq<Episode>, episodeId: string)
    requires forall e :: e in episodes ==> !IsSelected(v, e.familyId)
    ensures Runs(v, arm, episodes, episodeId) == 0
  {
    RunsOfSome(v, arm, episodes, episodeId);
  }

  /* The families of a shard. */

  lemma GroupsAreFamilies(compare: (string, string) -> int, episodes: seq<Episode>)
    ensures forall f :: f in Families(compare, episodes) ==> IsFamily(f)
  {
    var families := Families(compare, episodes);
    forall i, e | 0 <= i < |families| && e in families[i].episodes
      ensures e.familyId == families[i].familyId
    {
      CountInFamily(compare, episodes, i, e);
      assert e in multiset(EpisodesOf(families)[i]);
    }
  }

  lemma {:induction false} SelectedMembers(v: Evaluation, families: seq<Family>)
    ensures forall f :: f in Selected(v, families) <==> f in families && IsSelected(v, f.familyId)
  {
    if families != [] {
      SelectedMembers(v, families[..|families| - 1]);
      assert families == families[..|families| - 1] + [families[|families| - 1]];
    }
  }

  lemma RunsOfOneMore(v: Evaluation, arm: Arm, families: seq<Family>, family: Family, episodeId: string)
    ensures Runs(v, arm, Flatten(EpisodesOf(families + [family])), episodeId) ==
            Runs(v, arm, Flatten(EpisodesOf(families)), episodeId) + Runs(v, arm, family.episodes, episodeId)
  {
    assert EpisodesOf(families + [family]) == EpisodesOf(families) + [family.episodes];
    RunsConcat(v, arm, Flatten(EpisodesOf(families)), family.episodes, episodeId);
  }

  lemma {:induction false} RunsOfSelected(v: Evaluation, arm: Arm, families: seq<Family>, episodeId: string)
    requires forall f :: f in families ==> IsFamily(f)
    ensures Runs(v, arm, Flatten(EpisodesOf(Selected(v, families))), episodeId) ==
            Runs(v, arm, Flatten(EpisodesOf(families)), episodeId)
  {
    if families != [] {
      var init, last := families[..|families| - 1], families[|families| - 1];
      assert families == init + [last];
      RunsOfSelected(v, arm, init, episodeId);
      RunsOfOneMore(v, arm, init, last, episodeId);
      if IsSelected(v, last.familyId) {
        RunsOfOneMore(v, arm, Selected(v, init), last, episodeId);
      } else {
        assert last in families;
        OtherFamily(v, arm, last.episodes, episodeId);
        assert Selected(v, families) == Selected(v, init) + [] == Selected(v, init);
      }
    }
  }

  lemma {:induction false} ArmWorkCounts(v: Evaluation, arm: Arm, families: seq<Family>, episodeId: string)
    requires forall f :: f in families ==> IsFamily(f) && IsSelected(v, f.familyId)
    ensures multiset(ArmWork(v, arm, families))[RunIdFor(v, arm, episodeId)] ==
            Runs(v, arm, Flatten(EpisodesOf(families)), episodeId)
  {
    if families != [] {
      var init, last := families[..|families| - 1], families[|families| - 1];
      assert families == init + [last];
      ArmWorkCounts(v, arm, init, episodeId);
      FamilyWorkCounts(v, arm, last, episodeId);
      RunsOfOneMore(v, arm, init, last, episodeId);
      ArmWorkOfMore(v, arm, init, last);
      CountsAdd(ArmWork(v, arm, init), FamilyWork(v, arm, last), RunIdFor(v, arm, episodeId));
    }
  }

  lemma ArmWorkOfMore(v: Evaluation, arm: Arm, families: seq<Family>, family: Family)
    ensures ArmWork(v, arm, families + [family]) == ArmWork(v, arm, families) + FamilyWork(v, arm, family)
  {
    assert FamilyWorks(v, arm, families + [family]) == FamilyWorks(v, arm, families) + [FamilyWork(v, arm, family)];
  }

  /** Every planned run id is one of an arm and an episode id. */
  lemma ArmWorkMembers(v: Evaluation, arm: Arm, families: seq<Family>, id: string)
    requires id in ArmWork(v, arm, families)
    ensures exists episodeId :: id == RunIdFor(v, arm, episodeId)
  {
    FlattenMembers(FamilyWorks(v, arm, families), id);
    var i :| 0 <= i < |families| && id in FamilyWork(v, arm, families[i]);
    var j :| 0 <= j < |FamilyWork(v, arm, families[i])| && FamilyWork(v, arm, families[i])[j] == id;
    assert id == RunIdFor(v, arm, EpisodesForArm(families[i], arm)[j].episodeId);
  }

  /** An arm's run ids are in its own work alone. */
  lemma OtherArmsWork(v: Evaluation, other: Arm, arm: Arm, families: seq<Family>, episodeId: string)
    requires other != arm
    ensures multiset(ArmWork(v, other, families))[RunIdFor(v, arm, episodeId)] == 0
  {
    var id := RunIdFor(v, arm, episodeId);
    if id in ArmWork(v, other, families) {
      ArmWorkMembers(v, other, families, id);
      var d :| id == RunIdFor(v, other, d);
      RunIdsAreInjective(v, arm, other, episodeId, d);
    }
  }

  /** Each time `arm` is listed counts. */
  lemma {:induction false} ArmsCount(arms: seq<Arm>, arm: Arm, counts: seq<nat>, runs: nat)
    requires |arms| == |counts| && forall i :: 0 <= i < |arms| ==> counts[i] == if arms[i] == arm then runs else 0
    ensures Sum(counts) == multiset(arms)[arm] * runs
  {
    if arms != [] {
      var init, last := arms[..|arms| - 1], arms[|arms| - 1];
      ArmsCount(init, arm, counts[..|arms| - 1], runs);
      assert arms == init + [last];
      CountsAdd(init, [last], arm);
      OnceMore(multiset(init)[arm], runs);
    }
  }

  lemma OnceMore(c: nat, runs: nat)
    ensures (c + 1) * runs == c * runs + runs && (c + 0) * runs == c * runs
  {
  }

  /** A shard plans an arm's episode as often as its lines have it, for each time the arm is listed. */
  lemma ShardWorkCounts(v: Evaluation, n: nat, k: nat, arm: Arm, episodeId: string)
    requires n >= 1
    ensures multiset(ShardWork(v, n, k))[RunIdFor(v, arm, episodeId)] ==
            multiset(v.arms)[arm] * Runs(v, arm, Shard(v.manifest, n, k), episodeId)
  {
    var shard := Shard(v.manifest, n, k);
    var groups, families := Families(v.compare, shard), ShardFamilies(v, n, k);
    GroupsAreFamilies(v.compare, shard);
    GroupingPermutes(v.compare, shard);
    SelectedMembers(v, groups);
    RunsOfSelected(v, arm, groups, episodeId);
    RunsPermute(v, arm, Flatten(EpisodesOf(groups)), shard, episodeId);
    ArmWorkCounts(v, arm, families, episodeId);
    forall i | 0 <= i < |v.arms| && v.arms[i] != arm
      ensures multiset(ArmWork(v, v.arms[i], families))[RunIdFor(v, arm, episodeId)] == 0
    {
      OtherArmsWork(v, v.arms[i], arm, families, episodeId);
    }
    var runs := Runs(v, arm, shard, episodeId);
    var counts := seq(|v.arms|, i requires 0 <= i < |v.arms| => if v.arms[i] == arm then runs else 0);
    ArmsCount(v.arms, arm, counts, runs);
    FlattenSum(ArmWorks(v, families), RunIdFor(v, arm, episodeId), counts);
  }

  /* All shards. */

  function RunsIn(v: Evaluation, arm: Arm, parts: seq<seq<Episode>>, episodeId: string): seq<nat> {
    seq(|parts|, k requires 0 <= k < |parts| => Runs(v, arm, parts[k], episodeId))
  }

  lemma {:induction false} RunsOfParts(v: Evaluation, arm: Arm, parts: seq<seq<Episode>>, episodeId: string)
    ensures Runs(v, arm, Flatten(parts), episodeId) == Sum(RunsIn(v, arm, parts, episodeId))
  {
    if parts != [] {
      var init, last := parts[..|parts| - 1], parts[|parts| - 1];
      RunsOfParts(v, arm, init, episodeId);
      assert RunsIn(v, arm, parts, episodeId) == RunsIn(v, arm, init, episodeId) + [Runs(v, arm, last, episodeId)];
      SumOfMore(RunsIn(v, arm, init, episodeId), Runs(v, arm, last, episodeId));
      RunsConcat(v, arm, Flatten(init), last, episodeId);
    }
  }

  lemma {:induction false} SumOfTimes(c: nat, ns: seq<nat>, ms: seq<nat>)
    requires |ns| == |ms| && forall i :: 0 <= i < |ns| ==> ms[i] == c * ns[i]
    ensures Sum(ms) == c * Sum(ns)
  {
    if ns != [] {
      var last := |ns| - 1;
      SumOfTimes(c, ns[..last], ms[..last]);
      Distributes(c, Sum(ns[..last]), ns[last]);
    }
  }

  lemma Distributes(c: nat, a: nat, b: nat)
    ensures c * (a + b) == c * a + c * b
  {
  }

  lemma PlannedSum(v: Evaluation, n: nat, arm: Arm, episodeId: string)
    requires n >= 1
    ensures multiset(Planned(v, n))[RunIdFor(v, arm, episodeId)] ==
            multiset(v.arms)[arm] * Sum(RunsIn(v, arm, Shards(v.manifest, n), episodeId))
  {
    var works, id, c := ShardWorks(v, n), RunIdFor(v, arm, episodeId), multiset(v.arms)[arm];
    var runs := RunsIn(v, arm, Shards(v.manifest, n), episodeId);
    var counts := seq(n, k requires 0 <= k < n => multiset(works[k])[id]);
    forall k | 0 <= k < n
      ensures counts[k] == c * runs[k]
    {
      ShardWorkCounts(v, n, k, arm, episodeId);
    }
    FlattenSum(works, id, counts);
    SumOfTimes(c, runs, counts);
  }

  lemma RunsOfShards(v: Evaluation, n: nat, arm: Arm, episodeId: string)
    requires n >= 1
    ensures Sum(RunsIn(v, arm, Shards(v.manifest, n), episodeId)) == Runs(v, arm, v.manifest, episodeId)
  {
    RunsOfParts(v, arm, Shards(v.manifest, n), episodeId);
    ShardsPartition(v.manifest, n);
    RunsPermute(v, arm, Flatten(Shards(v.manifest, n)), v.manifest, episodeId);
  }

  /**
   * Whatever the manifest repeats, all shards together plan an arm's episode as often as the manifest
   * has it, for each time the arm is listed.
   */
  lemma ShardsPlanEveryRun(v: Evaluation, n: nat, arm: Arm, episodeId: string)
    requires n >= 1
    ensures multiset(Planned(v, n))[RunIdFor(v, arm, episodeId)] ==
            multiset(v.arms)[arm] * Runs(v, arm, v.manifest, episodeId)
  {
    PlannedSum(v, n, arm, episodeId);
    RunsOfShards(v, n, arm, episodeId);
  }

  /* Which run ids are planned. */

  /** The arm is listed, and runs the episode. */
  predicate IsPlanned(v: Evaluation, arm: Arm, e: Episode) {
    arm in v.arms && IsRun(v, arm, e)
  }

  lemma WorkIsOfRunIds(v: Evaluation, families: seq<Family>, id: string)
    requires id in Work(v, families)
    ensures exists arm, episodeId :: id == RunIdFor(v, arm, episodeId)
  {
    FlattenMembers(ArmWorks(v, families), id);
    var i :| 0 <= i < |v.arms| && id in ArmWork(v, v.arms[i], families);
    ArmWorkMembers(v, v.arms[i], families, id);
  }

  lemma TimesIsPositive(c: nat, runs: nat)
    ensures c * runs > 0 <==> c > 0 && runs > 0
  {
  }

  /** A shard plans exactly the listed arms of the episodes on its lines that they run. */
  lemma ShardWorkMembers(v: Evaluation, n: nat, k: nat, id: string)
    requires n >= 1
    ensures id in ShardWork(v, n, k) <==>
              exists arm, e :: IsPlanned(v, arm, e) && e in Shard(v.manifest, n, k) && id == RunIdFor(v, arm, e.episodeId)
  {
    var work, shard := ShardWork(v, n, k), Shard(v.manifest, n, k);
    if id in work {
      WorkIsOfRunIds(v, ShardFamilies(v, n, k), id);
      var arm, episodeId :| id == RunIdFor(v, arm, episodeId);
      PlannedInShard(v, n, k, arm, episodeId);
    }
    if arm, e :| IsPlanned(v, arm, e) && e in shard && id == RunIdFor(v, arm, e.episodeId) {
      PlannedInShard(v, n, k, arm, e.episodeId);
    }
  }

  lemma PlannedInShard(v: Evaluation, n: nat, k: nat, arm: Arm, episodeId: string)
    requires n >= 1
    ensures RunIdFor(v, arm, episodeId) in ShardWork(v, n, k) <==>
              exists e :: IsPlanned(v, arm, e) && e in Shard(v.manifest, n, k) && e.episodeId == episodeId
  {
    var work, shard := ShardWork(v, n, k), Shard(v.manifest, n, k);
    assert RunIdFor(v, arm, episodeId) in work <==> RunIdFor(v, arm, episodeId) in multiset(work);
    assert arm in v.arms <==> arm in multiset(v.arms);
    ShardWorkCounts(v, n, k, arm, episodeId);
    TimesIsPositive(multiset(v.arms)[arm], Runs(v, arm, shard, episodeId));
    RunsOfSome(v, arm, shard, episodeId);
  }

  /** Two shards plan the same run id only when the manifest has its episode twice. */
  lemma ShardsPlanApart(v: Evaluation, n: nat, j: nat, k: nat, arm: Arm, episodeId: string)
    requires n >= 1 && j < n && k < n && j != k
    requires RunIdFor(v, arm, episodeId) in ShardWork(v, n, j) && RunIdFor(v, arm, episodeId) in ShardWork(v, n, k)
    ensures Runs(v, arm, v.manifest, episodeId) > 1
  {
    PlannedInShard(v, n, j, arm, episodeId);
    PlannedInShard(v, n, k, arm, episodeId);
    RunsOfSome(v, arm, Shard(v.manifest, n, j), episodeId);
    RunsOfSome(v, arm, Shard(v.manifest, n, k), episodeId);
    SumOfTwo(RunsIn(v, arm, Shards(v.manifest, n), episodeId), j, k);
    RunsOfShards(v, n, arm, episodeId);
  }

  /** Together the shards plan every listed arm of every episode it runs. */
  lemma ShardsPlanEverything(v: Evaluation, n: nat, arm: Arm, e: Episode)
    requires n >= 1 && e in v.manifest && IsPlanned(v, arm, e)
    ensures exists k :: 0 <= k < n && RunIdFor(v, arm, e.episodeId) in ShardWork(v, n, k)
  {
    var i: nat :| i < |v.manifest| && v.manifest[i] == e;
    ShardMembers(v.manifest, n, i % n, e);
    PlannedInShard(v, n, i % n, arm, e.episodeId);
  }

  /** Nothing but run ids is planned. */
  lemma PlannedIsRunId(v: Evaluation, n: nat, id: string)
    requires n >= 1 && id in Planned(v, n)
    ensures exists arm, episodeId :: id == RunIdFor(v, arm, episodeId)
  {
    FlattenMembers(ShardWorks(v, n), id);
    var k: nat :| k < n && id in ShardWork(v, n, k);
    WorkIsOfRunIds(v, ShardFamilies(v, n, k), id);
  }
}
