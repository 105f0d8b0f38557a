/**
 * Sharding a manifest, grouping a shard into families, and the run ids of the work that leaves
 * (benchmark/evolbench-collab/src/manifest.ts:62-118, run.ts:68-70, 267-296).
 */
module EvalManifest {
  import opened Wrappers
  import opened Sequences
  import opened Sorting

  datatype Split = Train | Test

  datatype Arm = Warm | Cold

  /** The fields of a manifest line that decide what is run. */
  datatype Episode = Episode(benchmark: string, episodeId: string, familyId: string, split: Split, order: real)

  datatype Family = Family(familyId: string, benchmark: string, episodes: seq<Episode>)

  datatype ManifestError = NoEpisodes | BadEpisodeMod

  /* Shards. */

  /** The episodes at the positions that are dealt to `k`. */
  function Part(episodes: seq<Episode>, deal: nat -> nat, k: nat): seq<Episode> {
    if episodes == [] then []
    else
      var last := |episodes| - 1;
      Part(episodes[..last], deal, k) + (if deal(last) == k then [episodes[last]] else [])
  }

  function Modulo(n: nat): nat -> nat
    requires n >= 1
  {
    (i: nat) => i % n
  }

  /** The episodes whose position is `k` modulo `n`. */
  function Shard(episodes: seq<Episode>, n: nat, k: nat): seq<Episode>
    requires n >= 1
  {
    Part(episodes, Modulo(n), k)
  }

  /** The whole manifest, or the shard `N:k` of it. */
  function LoadManifest(episodes: seq<Episode>, episodeMod: Option<(nat, nat)>): Result<seq<Episode>, ManifestError> {
    if episodes == [] then Err(NoEpisodes)
    else
      match episodeMod
      case None => Ok(episodes)
      case Some((n, k)) => if n < 1 || k >= n then Err(BadEpisodeMod) else Ok(Shard(episodes, n, k))
  }

  lemma {:induction false} PartMembers(episodes: seq<Episode>, deal: nat -> nat, k: nat, e: Episode)
    ensures e in Part(episodes, deal, k) <==> exists i: nat :: i < |episodes| && episodes[i] == e && deal(i) == k
  {
    if episodes != [] {
      var last := |episodes| - 1;
      PartMembers(episodes[..last], deal, k, e);
      if i: nat :| i < last && episodes[i] == e && deal(i) == k {
        assert episodes[..last][i] == e;
      }
    }
  }

  lemma ShardMembers(episodes: seq<Episode>, n: nat, k: nat, e: Episode)
    requires n >= 1
    ensures e in Shard(episodes, n, k) <==> exists i: nat :: i < |episodes| && episodes[i] == e && i % n == k
  {
    PartMembers(episodes, Modulo(n), k, e);
    if i: nat :| i < |episodes| && episodes[i] == e && i % n == k {
      assert Modulo(n)(i) == k;
    }
    if i: nat :| i < |episodes| && episodes[i] == e && Modulo(n)(i) == k {
      assert i % n == k;
    }
  }

  function Parts(episodes: seq<Episode>, deal: nat -> nat, n: nat): seq<seq<Episode>> {
    seq(n, k requires 0 <= k < n => Part(episodes, deal, k))
  }

  /** All shards `N:0` to `N:N-1`. */
  function Shards(episodes: seq<Episode>, n: nat): seq<seq<Episode>>
    requires n >= 1
  {
    Parts(episodes, Modulo(n), n)
  }

  function CountsIn(parts: seq<seq<Episode>>, e: Episode): seq<nat> {
    seq(|parts|, k requires 0 <= k < |parts| => multiset(parts[k])[e])
  }

  lemma OneMoreInPart(before: seq<seq<Episode>>, r: nat, more: Episode, e: Episode)
    requires r < |before|
    ensures multiset(Flatten(before[r := before[r] + [more]]))[e] ==
            multiset(Flatten(before))[e] + if more == e then 1 else 0
  {
    var parts, counts, d := before[r := before[r] + [more]], CountsIn(before, e), if more == e then 1 else 0;
    CountsAdd(before[r], [more], e);
    FlattenSum(parts, e, counts[r := counts[r] + d]);
    FlattenSum(before, e, counts);
    SumOfLarger(counts, r, d);
  }

  lemma OneMoreDealt(episodes: seq<Episode>, deal: nat -> nat, n: nat)
    requires episodes != [] && deal(|episodes| - 1) < n
    ensures
      var last := |episodes| - 1;
      var before := Parts(episodes[..last], deal, n);
      Parts(episodes, deal, n) == before[deal(last) := before[deal(last)] + [episodes[last]]]
  {
    var last := |episodes| - 1;
    var before := Parts(episodes[..last], deal, n);
    var after := before[deal(last) := before[deal(last)] + [episodes[last]]];
    forall k | 0 <= k < n
      ensures Parts(episodes, deal, n)[k] == after[k]
    {
    }
  }

  lemma {:induction false} PartsCount(episodes: seq<Episode>, deal: nat -> nat, n: nat, e: Episode)
    requires forall i: nat :: deal(i) < n
    ensures multiset(Flatten(Parts(episodes, deal, n)))[e] == multiset(episodes)[e]
  {
    if episodes == [] {
      FlattenMembers(Parts(episodes, deal, n), e);
    } else {
      var last := |episodes| - 1;
      PartsCount(episodes[..last], deal, n, e);
      OneMoreDealt(episodes, deal, n);
      OneMoreInPart(Parts(episodes[..last], deal, n), deal(last), episodes[last], e);
      assert episodes[..|episodes|] == episodes;
      PrefixCounts(episodes, last, e);
    }
  }

  lemma InTwoPlaces(episodes: seq<Episode>, i: nat, j: nat)
    requires i < j < |episodes| && episodes[i] == episodes[j]
    ensures multiset(episodes)[episodes[i]] > 1
  {
    var e := episodes[i];
    assert episodes == episodes[..j] + episodes[j..];
    assert episodes[..j][i] == e && episodes[j..][0] == e;
    CountsAdd(episodes[..j], episodes[j..], e);
  }

  /** The shards `N:0` to `N:N-1` partition the lines of the manifest. */
  lemma ShardsPartition(episodes: seq<Episode>, n: nat)
    requires n >= 1
    ensures multiset(Flatten(Shards(episodes, n))) == multiset(episodes)
    ensures forall j, k, e :: 0 <= j < k < n && e in Shard(episodes, n, j) && e in Shard(episodes, n, k) ==>
              multiset(episodes)[e] > 1
  {
    forall e
      ensures multiset(Flatten(Shards(episodes, n)))[e] == multiset(episodes)[e]
    {
      PartsCount(episodes, Modulo(n), n, e);
    }
    forall j, k, e | 0 <= j < k < n && e in Shard(episodes, n, j) && e in Shard(episodes, n, k)
      ensures multiset(episodes)[e] > 1
    {
      InTwoParts(episodes, Modulo(n), j, k, e);
    }
  }

  lemma InTwoParts(episodes: seq<Episode>, deal: nat -> nat, j: nat, k: nat, e: Episode)
    requires j != k && e in Part(episodes, deal, j) && e in Part(episodes, deal, k)
    ensures multiset(episodes)[e] > 1
  {
    PartMembers(episodes, deal, j, e);
    PartMembers(episodes, deal, k, e);
    var a: nat :| a < |episodes| && episodes[a] == e && deal(a) == j;
    var b: nat :| b < |episodes| && episodes[b] == e && deal(b) == k;
    InTwoPlaces(episodes, if a < b then a else b, if a < b then b else a);
  }

  /* Families. */

  function Members(episodes: seq<Episode>, familyId: string): seq<Episode> {
    if episodes == [] then []
    else
      var init, last := episodes[..|episodes| - 1], episodes[|episodes| - 1];
      Members(init, familyId) + (if last.familyId == familyId then [last] else [])
  }

  /** Family ids in the order they first appear. */
  function FamilyIds(episodes: seq<Episode>): seq<string> {
    if episodes == [] then []
    else
      var ids, last := FamilyIds(episodes[..|episodes| - 1]), episodes[|episodes| - 1];
      if last.familyId in ids then ids else ids + [last.familyId]
  }

  /** By order, then by id as `compare` orders strings. */
  predicate EpisodeLe(compare: (string, string) -> int, a: Episode, b: Episode) {
    if a.order != b.order then a.order < b.order else compare(a.episodeId, b.episodeId) <= 0
  }

  function EpisodeOrder(compare: (string, string) -> int): (Episode, Episode) -> bool {
    (a, b) => EpisodeLe(compare, a, b)
  }

  ghost predicate IsComparator(compare: (string, string) -> int) {
    && (forall x, y :: compare(x, y) <= 0 || compare(y, x) <= 0)
    && (forall x, y, z :: compare(x, y) <= 0 && compare(y, z) <= 0 ==> compare(x, z) <= 0)
  }

  function SortEpisodes(compare: (string, string) -> int, episodes: seq<Episode>): seq<Episode> {
    StableSort(EpisodeOrder(compare), episodes)
  }

  /** The family a grouping makes of the episodes with one family id. */
  function FamilyOf(compare: (string, string) -> int, episodes: seq<Episode>, familyId: string): Family {
    var members := Members(episodes, familyId);
    Family(familyId, if members == [] then "" else members[0].benchmark, SortEpisodes(compare, members))
  }

  /** The map has the family of these episodes with this id, if they have one. */
  ghost predicate IsGroup(groups: map<string, Family>, episodes: seq<Episode>, id: string) {
    var members := Members(episodes, id);
    && (id in groups <==> members != [])
    && (id in groups ==> groups[id] == Family(id, members[0].benchmark, members))
  }

  /** One more episode joins its family, or starts one. */
  function Joined(groups: map<string, Family>, e: Episode): Family {
    var family := if e.familyId in groups then groups[e.familyId] else Family(e.familyId, e.benchmark, []);
    family.(episodes := family.episodes + [e])
  }

  lemma MembersOfMore(episodes: seq<Episode>, e: Episode, id: string)
    ensures Members(episodes + [e], id) == Members(episodes, id) + if e.familyId == id then [e] else []
  {
    assert (episodes + [e])[..|episodes|] == episodes;
  }

  lemma FamilyIdsOfMore(episodes: seq<Episode>, e: Episode)
    ensures FamilyIds(episodes + [e]) ==
            if Members(episodes, e.familyId) != [] then FamilyIds(episodes) else FamilyIds(episodes) + [e.familyId]
  {
    assert (episodes + [e])[..|episodes|] == episodes;
    NotAFamilyYet(episodes, e.familyId);
  }

  lemma OneMoreEpisode(groups: map<string, Family>, episodes: seq<Episode>, e: Episode, id: string)
    requires IsGroup(groups, episodes, id)
    ensures IsGroup(groups[e.familyId := Joined(groups, e)], episodes + [e], id)
  {
    MembersOfMore(episodes, e, id);
  }

  method GroupFamilies(compare: (string, string) -> int, episodes: seq<Episode>) returns (families: seq<Family>)
    ensures families == Families(compare, episodes)
  {
    var order: seq<string> := [];  // the order a `Map` keeps
    var groups: map<string, Family> := map[];
    for i := 0 to |episodes|
      invariant order == FamilyIds(episodes[..i])
      invariant forall id :: IsGroup(groups, episodes[..i], id)
    {
      assert episodes[..i + 1] == episodes[..i] + [episodes[i]];
      order, groups := Join(order, groups, episodes[..i], episodes[i]);
    }
    assert episodes[..|episodes|] == episodes;
    families := SortFamilies(compare, episodes, order, groups);
  }

  /** One episode joins its family. */
  method Join(order: seq<string>, groups: map<string, Family>, ghost before: seq<Episode>, episode: Episode)
    returns (longer: seq<string>, larger: map<string, Family>)
    requires order == FamilyIds(before) && forall id :: IsGroup(groups, before, id)
    ensures longer == FamilyIds(before + [episode])
    ensures forall id :: IsGroup(larger, before + [episode], id)
  {
    assert IsGroup(groups, before, episode.familyId);
    FamilyIdsOfMore(before, episode);
    longer, larger := order, groups;
    if episode.familyId !in groups {
      longer := order + [episode.familyId];
      larger := larger[episode.familyId := Family(episode.familyId, episode.benchmark, [])];
    }
    var family := larger[episode.familyId];
    larger := larger[episode.familyId := family.(episodes := family.episodes + [episode])];
    assert larger == groups[episode.familyId := Joined(groups, episode)];
    ghost var more := before + [episode];
    forall id
      ensures IsGroup(larger, more, id)
    {
      OneMoreEpisode(groups, before, episode, id);
    }
  }

  lemma SortedGroup(compare: (string, string) -> int, groups: map<string, Family>, episodes: seq<Episode>, i: nat)
    requires i < |FamilyIds(episodes)| && IsGroup(groups, episodes, FamilyIds(episodes)[i])
    ensures
      var id := FamilyIds(episodes)[i];
      && id in groups
      && groups[id].(episodes := SortEpisodes(compare, groups[id].episodes)) == FamilyOf(compare, episodes, id)
  {
    NotAFamilyYet(episodes, FamilyIds(episodes)[i]);
  }

  method SortFamilies(
    compare: (string, string) -> int, ghost episodes: seq<Episode>, order: seq<string>, groups: map<string, Family>)
    returns (families: seq<Family>)
    requires order == FamilyIds(episodes) && forall id :: IsGroup(groups, episodes, id)
    ensures families == Families(compare, episodes)
  {
    families := [];
    for i := 0 to |order|
      invariant |families| == i
      invariant forall j :: 0 <= j < i ==> families[j] == FamilyOf(compare, episodes, order[j])
    {
      SortedGroup(compare, groups, episodes, i);
      var family := groups[order[i]];
      families := families + [family.(episodes := SortEpisodes(compare, family.episodes))];
    }
    FamiliesByIndex(compare, episodes, families);
  }

  lemma FamiliesByIndex(compare: (string, string) -> int, episodes: seq<Episode>, families: seq<Family>)
    requires |families| == |FamilyIds(episodes)|
    requires forall j :: 0 <= j < |families| ==> families[j] == FamilyOf(compare, episodes, FamilyIds(episodes)[j])
    ensures families == Families(compare, episodes)
  {
  }

  lemma {:induction false} NotAFamilyYet(episodes: seq<Episode>, familyId: string)
    ensures familyId in FamilyIds(episodes) <==> Members(episodes, familyId) != []
  {
    if episodes != [] {
      NotAFamilyYet(episodes[..|episodes| - 1], familyId);
    }
  }

  lemma EpisodeLeIsTotalPreorder(compare: (string, string) -> int)
    requires IsComparator(compare)
    ensures IsTotalPreorder(EpisodeOrder(compare))
  {
    var le := EpisodeOrder(compare);
    forall a, b
      ensures le(a, b) || le(b, a)
    {
      assert compare(a.episodeId, b.episodeId) <= 0 || compare(b.episodeId, a.episodeId) <= 0;
    }
    forall a, b, c | le(a, b) && le(b, c)
      ensures le(a, c)
    {
      if a.order == b.order == c.order {
        assert compare(a.episodeId, b.episodeId) <= 0 && compare(b.episodeId, c.episodeId) <= 0;
      }
    }
  }

  lemma {:induction false} MembersAre(episodes: seq<Episode>, familyId: string, e: Episode)
    ensures multiset(Members(episodes, familyId))[e] == if e.familyId == familyId then multiset(episodes)[e] else 0
  {
    if episodes != [] {
      var init, last := episodes[..|episodes| - 1], episodes[|episodes| - 1];
      MembersAre(init, familyId, e);
      assert episodes == init + [last];
      CountsAdd(init, [last], e);
      CountsAdd(Members(init, familyId), if last.familyId == familyId then [last] else [], e);
    }
  }

  lemma {:induction false} FamilyIdsAreDistinct(episodes: seq<Episode>)
    ensures IsDistinct(FamilyIds(episodes))
    ensures forall id :: id in FamilyIds(episodes) <==> exists e :: e in episodes && e.familyId == id
  {
    if episodes != [] {
      FamilyIdsAreDistinct(episodes[..|episodes| - 1]);
      assert episodes == episodes[..|episodes| - 1] + [episodes[|episodes| - 1]];
    }
  }

  function Families(compare: (string, string) -> int, episodes: seq<Episode>): seq<Family> {
    seq(|FamilyIds(episodes)|, i requires 0 <= i < |FamilyIds(episodes)| =>
          FamilyOf(compare, episodes, FamilyIds(episodes)[i]))
  }

  function EpisodesOf(families: seq<Family>): seq<seq<Episode>> {
    seq(|families|, i requires 0 <= i < |families| => families[i].episodes)
  }

  /** Grouping keeps every episode, as often as it was there. */
  lemma GroupingPermutes(compare: (string, string) -> int, episodes: seq<Episode>)
    ensures multiset(Flatten(EpisodesOf(Families(compare, episodes)))) == multiset(episodes)
  {
    var parts := EpisodesOf(Families(compare, episodes));
    FamilyIdsAreDistinct(episodes);
    var ids := FamilyIds(episodes);
    forall e
      ensures multiset(Flatten(parts))[e] == multiset(episodes)[e]
    {
      forall i | 0 <= i < |parts|
        ensures multiset(parts[i])[e] == if e.familyId == ids[i] then multiset(episodes)[e] else 0
      {
        CountInFamily(compare, episodes, i, e);
      }
      var counts := CountsIn(parts, e);
      FlattenSum(parts, e, counts);
      SumOfOne(ids, counts, e.familyId, multiset(episodes)[e]);
      assert e in episodes <==> e in multiset(episodes);
    }
  }

  /** A family holds the episodes with its id, by order and then by episode id. */
  lemma FamilyHoldsItsEpisodes(compare: (string, string) -> int, episodes: seq<Episode>, i: nat)
    requires IsComparator(compare) && i < |Families(compare, episodes)|
    ensures
      var family := Families(compare, episodes)[i];
      && IsSorted(EpisodeOrder(compare), family.episodes)
      && (forall e :: e in family.episodes <==> e in episodes && e.familyId == family.familyId)
  {
    var id := FamilyIds(episodes)[i];
    var members := Members(episodes, id);
    EpisodeLeIsTotalPreorder(compare);
    SortSorts(EpisodeOrder(compare), members);
    SortKeepsElements(EpisodeOrder(compare), members);
    forall e
      ensures e in members <==> e in episodes && e.familyId == id
    {
      MembersAre(episodes, id, e);
      assert e in members <==> e in multiset(members);
      assert e in episodes <==> e in multiset(episodes);
    }
  }

  lemma CountInFamily(compare: (string, string) -> int, episodes: seq<Episode>, i: nat, e: Episode)
    requires i < |FamilyIds(episodes)|
    ensures multiset(EpisodesOf(Families(compare, episodes))[i])[e] ==
            if e.familyId == FamilyIds(episodes)[i] then multiset(episodes)[e] else 0
  {
    SortPermutes(EpisodeOrder(compare), Members(episodes, FamilyIds(episodes)[i]));
    MembersAre(episodes, FamilyIds(episodes)[i], e);
  }

  /** Of parts with different ids, only the one with its own id counts. */
  lemma {:induction false} SumOfOne(ids: seq<string>, counts: seq<nat>, id: string, count: nat)
    requires |ids| == |counts| && IsDistinct(ids)
    requires forall i :: 0 <= i < |ids| ==> counts[i] == if ids[i] == id then count else 0
    ensures Sum(counts) == if id in ids then count else 0
  {
    if ids != [] {
      var init, last := ids[..|ids| - 1], ids[|ids| - 1];
      SumOfOne(init, counts[..|ids| - 1], id, count);
      assert ids == init + [last] && last !in init;
    }
  }
}
