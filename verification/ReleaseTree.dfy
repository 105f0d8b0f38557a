/** Building the tree of a release version (scripts/release/build-release.ts). */
module ReleaseTree {
  import opened Wrappers
  import opened ReleaseVersion
  import opened ReleaseFeed
  import opened Publication
  import opened SplitPublication
  import opened Sequences
  import opened Sorting

  datatype ReleaseInputs = ReleaseInputs(
    version: string,
    commit: string,
    buildDate: string,
    photonWasm: Bytes,
    artifacts: map<string, Bytes>)

  datatype Identity = Identity(size: nat, checksum: Bytes)

  datatype Platform = Platform(computer: Identity, gzip: Identity)

  datatype Manifest = Manifest(
    version: string,
    commit: string,
    buildDate: string,
    platforms: map<string, Platform>,
    photonWasm: Identity)

  /** Compression, hashing and JSON text, which the build calls into. */
  datatype Tools = Tools(gzip: Bytes -> Bytes, sha256Hex: Bytes -> Bytes, render: Manifest -> Bytes) {
    function IdentityOf(bytes: Bytes): Identity {
      Identity(|bytes|, sha256Hex(bytes))
    }

    function PlatformOf(computer: Bytes): Platform {
      Platform(IdentityOf(computer), IdentityOf(gzip(computer)))
    }
  }

  predicate IsTargetChar(c: char) {
    'A' <= c <= 'Z' || 'a' <= c <= 'z' || '0' <= c <= '9' || c == '-'
  }

  predicate IsValidReleaseTarget(target: string) {
    && target != ""
    && target[0] != '-'
    && forall i :: 0 <= i < |target| ==> IsTargetChar(target[i])
  }

  predicate AreValidTargets(targets: seq<string>) {
    forall t :: t in targets ==> IsValidReleaseTarget(t)
  }

  function GzipKey(version: string, target: string): Key {
    version + "/" + target + "/coforge-computer.gz"
  }

  function ChecksumKey(version: string, target: string): Key {
    version + "/" + target + "/coforge-computer.sha256"
  }

  function PhotonKey(version: string): Key {
    version + "/photon_rs_bg.wasm"
  }

  datatype BuildError = InvalidVersion | NoTarget | InvalidTarget

  /** What a manifest says of the artifacts it was built from. */
  ghost predicate Describes(manifest: Manifest, inputs: ReleaseInputs, tools: Tools) {
    && manifest.version == inputs.version
    && manifest.commit == inputs.commit
    && manifest.buildDate == inputs.buildDate
    && manifest.platforms.Keys == inputs.artifacts.Keys
    && (forall t :: t in inputs.artifacts ==> manifest.platforms[t] == tools.PlatformOf(inputs.artifacts[t]))
    && manifest.photonWasm == tools.IdentityOf(inputs.photonWasm)
  }

  ghost predicate ListsOnce(files: seq<Key>) {
    forall k :: multiset(files)[k] <= 1
  }

  /** The objects of one target, as written below the version's directory. */
  ghost predicate HoldsTarget(written: map<Key, Bytes>, inputs: ReleaseInputs, tools: Tools, target: string)
    requires target in inputs.artifacts
  {
    && GzipKey(inputs.version, target) in written
    && written[GzipKey(inputs.version, target)] == tools.gzip(inputs.artifacts[target])
    && ChecksumKey(inputs.version, target) in written
    && written[ChecksumKey(inputs.version, target)] == tools.sha256Hex(inputs.artifacts[target]) + [10]
  }

  /** Every key of a version's tree, whatever order the targets come in. */
  ghost predicate IsTreeKey(key: Key, version: string, targets: set<string>) {
    || key == ManifestKey(version)
    || key == PhotonKey(version)
    || exists t :: t in targets && (key == GzipKey(version, t) || key == ChecksumKey(version, t))
  }

  /** `tree` and `written` are what a build of `inputs` leaves. */
  ghost predicate IsBuilt(inputs: ReleaseInputs, tools: Tools, tree: Tree, written: map<Key, Bytes>) {
    && tree.version == inputs.version
    && IsReady(tree, written)
    && IsSorted(StringLe, tree.files)
    && ListsOnce(tree.files)
    && (forall k :: k in tree.files <==> IsTreeKey(k, inputs.version, inputs.artifacts.Keys))
    && (forall t :: t in inputs.artifacts ==> HoldsTarget(written, inputs, tools, t))
    && PhotonKey(inputs.version) in written && written[PhotonKey(inputs.version)] == inputs.photonWasm
    && ManifestKey(inputs.version) in written
    && exists manifest :: Describes(manifest, inputs, tools) && written[ManifestKey(inputs.version)] == tools.render(manifest)
  }

  /* Keys. */

  lemma KeysAreUnder(version: string, target: string)
    ensures IsUnder(GzipKey(version, target), version)
    ensures IsUnder(ChecksumKey(version, target), version)
    ensures IsUnder(PhotonKey(version), version)
    ensures IsUnder(ManifestKey(version), version)
  {
  }

  /** The last character tells the four kinds of key apart. */
  lemma KeyKinds(version: string, target: string)
    ensures var k := GzipKey(version, target); k[|k| - 1] == 'z'
    ensures var k := ChecksumKey(version, target); k[|k| - 1] == '6'
    ensures var k := PhotonKey(version); k[|k| - 1] == 'm'
    ensures var k := ManifestKey(version); k[|k| - 1] == 'n'
  {
  }

  lemma TargetKeysAreInjective(version: string, t: string, u: string)
    ensures GzipKey(version, t) == GzipKey(version, u) ==> t == u
    ensures ChecksumKey(version, t) == ChecksumKey(version, u) ==> t == u
  {
    var n := |version| + 1;
    if GzipKey(version, t) == GzipKey(version, u) {
      assert t == GzipKey(version, t)[n..n + |t|];
      assert u == GzipKey(version, u)[n..n + |u|];
    }
    if ChecksumKey(version, t) == ChecksumKey(version, u) {
      assert t == ChecksumKey(version, t)[n..n + |t|];
      assert u == ChecksumKey(version, u)[n..n + |u|];
    }
  }

  /* The build. */

  /** Ok, or the first check that fails; only then is anything written. */
  function CheckInputs(inputs: ReleaseInputs, targets: seq<string>): Result<(), BuildError> {
    if !IsValidReleaseVersion(inputs.version) then Err(InvalidVersion)
    else if targets == [] then Err(NoTarget)
    else if !AreValidTargets(targets) then Err(InvalidTarget)
    else Ok(())
  }

  method BuildReleaseTree(inputs: ReleaseInputs, targets: seq<string>, tools: Tools)
    returns (result: Result<Tree, BuildError>, written: map<Key, Bytes>)
    requires IsDistinct(targets) && forall t :: t in targets <==> t in inputs.artifacts
    ensures match CheckInputs(inputs, targets)
            case Err(error) => result == Err(error) && written == map[]
            case Ok(_) => result.Ok? && IsBuilt(inputs, tools, result.value, written)
  {
    var version := inputs.version;
    written := map[];
    if !IsValidReleaseVersion(version) {
      return Err(InvalidVersion), written;
    }
    if targets == [] {
      return Err(NoTarget), written;
    }
    if !AreValidTargets(targets) {
      return Err(InvalidTarget), written;
    }

    var tree;
    tree, written := WriteTree(inputs, targets, tools);
    result := Ok(tree);
  }

  lemma SortedTargets(targets: seq<string>)
    requires IsDistinct(targets)
    ensures IsDistinct(StableSort(StringLe, targets)) && forall t :: t in StableSort(StringLe, targets) <==> t in targets
  {
    SortPermutes(StringLe, targets);
    PermutationIsDistinct(targets, StableSort(StringLe, targets));
    SortKeepsElements(StringLe, targets);
  }

  method WriteTree(inputs: ReleaseInputs, targets: seq<string>, tools: Tools)
    returns (tree: Tree, written: map<Key, Bytes>)
    requires IsDistinct(targets) && forall t :: t in targets <==> t in inputs.artifacts
    requires IsValidReleaseVersion(inputs.version)
    ensures IsBuilt(inputs, tools, tree, written)
  {
    var sorted := StableSort(StringLe, targets);
    SortedTargets(targets);
    var files, platforms;
    files, written, platforms := WriteTargets(inputs, sorted, tools);
    ghost var targetFiles, targetObjects := files, written;

    var photon, marker := PhotonKey(inputs.version), ManifestKey(inputs.version);
    written := written[photon := inputs.photonWasm];
    files := files + [photon];
    var manifest := Manifest(inputs.version, inputs.commit, inputs.buildDate, platforms, tools.IdentityOf(inputs.photonWasm));
    written := written[marker := tools.render(manifest)];
    files := files + [marker];
    FinishTree(inputs, tools, sorted, targetFiles, files, targetObjects, manifest);
    tree := Tree(inputs.version, StableSort(StringLe, files));
  }

  method WriteTargets(inputs: ReleaseInputs, sorted: seq<string>, tools: Tools)
    returns (files: seq<Key>, written: map<Key, Bytes>, platforms: map<string, Platform>)
    requires IsDistinct(sorted) && forall t :: t in sorted ==> t in inputs.artifacts
    ensures TargetsBuilt(inputs, tools, sorted, files, written, platforms)
  {
    files, written, platforms := [], map[], map[];
    for i := 0 to |sorted|
      invariant TargetsBuilt(inputs, tools, sorted[..i], files, written, platforms)
    {
      assert sorted[..i + 1] == sorted[..i] + [sorted[i]];
      files, written, platforms := WriteTarget(inputs, sorted[..i], sorted[i], tools, files, written, platforms);
    }
    assert sorted[..|sorted|] == sorted;
  }

  method WriteTarget(
    inputs: ReleaseInputs, ghost done: seq<string>, target: string, tools: Tools,
    files: seq<Key>, written: map<Key, Bytes>, platforms: map<string, Platform>)
    returns (more: seq<Key>, after: map<Key, Bytes>, later: map<string, Platform>)
    requires TargetsBuilt(inputs, tools, done, files, written, platforms)
    requires target !in done && target in inputs.artifacts
    ensures TargetsBuilt(inputs, tools, done + [target], more, after, later)
  {
    var computer := inputs.artifacts[target];
    var identity := tools.IdentityOf(computer);
    var compressed := tools.gzip(computer);
    later := platforms[target := Platform(identity, tools.IdentityOf(compressed))];
    after := written[GzipKey(inputs.version, target) := compressed];
    after := after[ChecksumKey(inputs.version, target) := identity.checksum + [10]];
    more := files + [GzipKey(inputs.version, target), ChecksumKey(inputs.version, target)];
    BuildOneMore(inputs, tools, done, target, files, more, written, after, platforms, later);
  }

  /** The state of the build after the targets `done`. */
  ghost predicate TargetsBuilt(
    inputs: ReleaseInputs, tools: Tools, done: seq<string>,
    files: seq<Key>, written: map<Key, Bytes>, platforms: map<string, Platform>)
  {
    && ListsTargets(inputs.version, done, files)
    && written.Keys == (set k | k in files)
    && HoldsTargets(inputs, tools, done, written)
    && DescribesTargets(inputs, tools, done, platforms)
  }

  ghost predicate ListsTargets(version: string, done: seq<string>, files: seq<Key>) {
    ListsOnce(files) && forall k :: k in files <==> IsTargetKey(k, version, done)
  }

  ghost predicate HoldsTargets(inputs: ReleaseInputs, tools: Tools, done: seq<string>, written: map<Key, Bytes>) {
    forall t :: t in done ==> t in inputs.artifacts && HoldsTarget(written, inputs, tools, t)
  }

  ghost predicate DescribesTargets(inputs: ReleaseInputs, tools: Tools, done: seq<string>, platforms: map<string, Platform>) {
    && platforms.Keys == (set t | t in done)
    && forall t :: t in done ==> t in inputs.artifacts && platforms[t] == tools.PlatformOf(inputs.artifacts[t])
  }

  lemma OneMoreTargetFiles(version: string, done: seq<string>, target: string, files: seq<Key>, more: seq<Key>)
    requires ListsTargets(version, done, files) && target !in done
    requires more == files + [GzipKey(version, target), ChecksumKey(version, target)]
    ensures ListsTargets(version, done + [target], more)
  {
    NewTargetKeys(version, done, target);
    assert files + [GzipKey(version, target)] + [ChecksumKey(version, target)] == more;
  }

  lemma OneMoreTargetKeys(
    files: seq<Key>, more: seq<Key>, gzip: Key, checksum: Key, written: map<Key, Bytes>, after: map<Key, Bytes>)
    requires more == files + [gzip, checksum] && written.Keys == (set k | k in files)
    requires after.Keys == written.Keys + {gzip, checksum}
    ensures after.Keys == (set k | k in more)
  {
    forall k
      ensures k in more <==> k in files || k == gzip || k == checksum
    {
    }
  }

  /** `after` is `written` with the objects of `target` added. */
  ghost predicate AddsTarget(
    inputs: ReleaseInputs, tools: Tools, target: string, written: map<Key, Bytes>, after: map<Key, Bytes>)
    requires target in inputs.artifacts
  {
    after == written[GzipKey(inputs.version, target) := tools.gzip(inputs.artifacts[target])]
                    [ChecksumKey(inputs.version, target) := tools.sha256Hex(inputs.artifacts[target]) + [10]]
  }

  lemma OneMoreTargetObjects(
    inputs: ReleaseInputs, tools: Tools, done: seq<string>, target: string, written: map<Key, Bytes>, after: map<Key, Bytes>)
    requires HoldsTargets(inputs, tools, done, written) && target !in done
    requires target in inputs.artifacts && AddsTarget(inputs, tools, target, written, after)
    ensures HoldsTargets(inputs, tools, done + [target], after)
  {
    KeyKinds(inputs.version, target);
    forall t | t in done
      ensures HoldsTarget(after, inputs, tools, t)
    {
      KeyKinds(inputs.version, t);
      TargetKeysAreInjective(inputs.version, t, target);
    }
  }

  lemma OneMorePlatform(
    inputs: ReleaseInputs, tools: Tools, done: seq<string>, target: string, platforms: map<string, Platform>, later: map<string, Platform>)
    requires DescribesTargets(inputs, tools, done, platforms)
    requires target in inputs.artifacts && later == platforms[target := tools.PlatformOf(inputs.artifacts[target])]
    ensures DescribesTargets(inputs, tools, done + [target], later)
  {
  }

  lemma BuildOneMore(
    inputs: ReleaseInputs, tools: Tools, done: seq<string>, target: string, files: seq<Key>, more: seq<Key>,
    written: map<Key, Bytes>, after: map<Key, Bytes>, platforms: map<string, Platform>, later: map<string, Platform>)
    requires TargetsBuilt(inputs, tools, done, files, written, platforms)
    requires target !in done && target in inputs.artifacts
    requires more == files + [GzipKey(inputs.version, target), ChecksumKey(inputs.version, target)]
    requires AddsTarget(inputs, tools, target, written, after)
    requires later == platforms[target := tools.PlatformOf(inputs.artifacts[target])]
    ensures TargetsBuilt(inputs, tools, done + [target], more, after, later)
  {
    OneMoreTargetFiles(inputs.version, done, target, files, more);
    OneMoreTargetKeys(files, more, GzipKey(inputs.version, target), ChecksumKey(inputs.version, target), written, after);
    OneMoreTargetObjects(inputs, tools, done, target, written, after);
    OneMorePlatform(inputs, tools, done, target, platforms, later);
  }

  lemma FinishFiles(version: string, targets: seq<string>, artifacts: set<string>, files: seq<Key>)
    requires forall k :: k in files <==> IsTargetKey(k, version, targets)
    requires ListsOnce(files) && forall t :: t in targets <==> t in artifacts
    ensures
      var all := files + [PhotonKey(version), ManifestKey(version)];
      ListsOnce(all) && forall k :: k in all <==> IsTreeKey(k, version, artifacts)
  {
    TargetKeysAreOther(version, targets);
    var all := files + [PhotonKey(version), ManifestKey(version)];
    assert files + [PhotonKey(version)] + [ManifestKey(version)] == all;
    forall k
      ensures IsTargetKey(k, version, targets) <==>
        exists t :: t in artifacts && (k == GzipKey(version, t) || k == ChecksumKey(version, t))
    {
    }
  }

  lemma TreeKeyIsUnder(key: Key, version: string, targets: set<string>)
    requires IsTreeKey(key, version, targets)
    ensures IsUnder(key, version)
  {
    forall t {
      KeysAreUnder(version, t);
    }
    KeysAreUnder(version, "");
  }

  lemma FinishObjects(
    inputs: ReleaseInputs, tools: Tools, targets: seq<string>, written: map<Key, Bytes>, text: Bytes, t: string)
    requires t in targets && t in inputs.artifacts && HoldsTarget(written, inputs, tools, t)
    ensures HoldsTarget(
              written[PhotonKey(inputs.version) := inputs.photonWasm][ManifestKey(inputs.version) := text],
              inputs, tools, t)
  {
    KeyKinds(inputs.version, t);
  }

  lemma SortedFiles(version: string, artifacts: set<string>, all: seq<Key>)
    requires ListsOnce(all) && forall k :: k in all <==> IsTreeKey(k, version, artifacts)
    ensures
      var sorted := StableSort(StringLe, all);
      && IsSorted(StringLe, sorted) && ListsOnce(sorted)
      && (forall k :: k in sorted <==> k in all)
      && (forall k :: k in sorted ==> IsTreeKey(k, version, artifacts) && IsUnder(k, version))
  {
    SortPermutes(StringLe, all);
    SortKeepsElements(StringLe, all);
    StringLeIsTotalPreorder();
    SortSorts(StringLe, all);
    forall k | k in all
      ensures IsUnder(k, version)
    {
      TreeKeyIsUnder(k, version, artifacts);
    }
  }

  lemma FinishedIsReady(
    version: string, all: seq<Key>, sorted: seq<Key>, files: seq<Key>, written: map<Key, Bytes>, objects: map<Key, Bytes>)
    requires IsValidReleaseVersion(version)
    requires all == files + [PhotonKey(version), ManifestKey(version)]
    requires written.Keys == (set k | k in files)
    requires objects.Keys == written.Keys + {PhotonKey(version), ManifestKey(version)}
    requires forall k :: k in sorted <==> k in all
    requires forall k :: k in sorted ==> IsUnder(k, version)
    ensures IsReady(Tree(version, sorted), objects)
  {
    forall k
      ensures k in objects <==> k in sorted
    {
      assert k in objects <==> k in files || k == PhotonKey(version) || k == ManifestKey(version);
    }
  }

  lemma FinishTree(
    inputs: ReleaseInputs, tools: Tools, targets: seq<string>,
    files: seq<Key>, all: seq<Key>, written: map<Key, Bytes>, manifest: Manifest)
    requires IsValidReleaseVersion(inputs.version) && forall t :: t in targets <==> t in inputs.artifacts
    requires TargetsBuilt(inputs, tools, targets, files, written, manifest.platforms)
    requires Describes(manifest, inputs, tools)
    requires all == files + [PhotonKey(inputs.version), ManifestKey(inputs.version)]
    ensures
      var version := inputs.version;
      IsBuilt(
        inputs, tools,
        Tree(version, StableSort(StringLe, all)),
        written[PhotonKey(version) := inputs.photonWasm][ManifestKey(version) := tools.render(manifest)])
  {
    var version := inputs.version;
    FinishedListing(version, targets, inputs.artifacts.Keys, files, all, written,
      written[PhotonKey(version) := inputs.photonWasm][ManifestKey(version) := tools.render(manifest)]);
    FinishedObjects(inputs, tools, targets, written, tools.render(manifest));
  }

  /** The sorted list is ready to be published. */
  lemma FinishedListing(
    version: string, targets: seq<string>, artifacts: set<string>, files: seq<Key>, all: seq<Key>,
    written: map<Key, Bytes>, objects: map<Key, Bytes>)
    requires IsValidReleaseVersion(version) && forall t :: t in targets <==> t in artifacts
    requires ListsTargets(version, targets, files) && written.Keys == (set k | k in files)
    requires all == files + [PhotonKey(version), ManifestKey(version)]
    requires objects.Keys == written.Keys + {PhotonKey(version), ManifestKey(version)}
    ensures
      var sorted := StableSort(StringLe, all);
      && IsReady(Tree(version, sorted), objects)
      && IsSorted(StringLe, sorted) && ListsOnce(sorted)
      && forall k :: k in sorted <==> IsTreeKey(k, version, artifacts)
  {
    FinishFiles(version, targets, artifacts, files);
    SortedFiles(version, artifacts, all);
    FinishedIsReady(version, all, StableSort(StringLe, all), files, written, objects);
  }

  /** And the objects are there. */
  lemma FinishedObjects(inputs: ReleaseInputs, tools: Tools, targets: seq<string>, written: map<Key, Bytes>, text: Bytes)
    requires HoldsTargets(inputs, tools, targets, written) && forall t :: t in targets <==> t in inputs.artifacts
    ensures
      var objects := written[PhotonKey(inputs.version) := inputs.photonWasm][ManifestKey(inputs.version) := text];
      && (forall t :: t in inputs.artifacts ==> HoldsTarget(objects, inputs, tools, t))
      && objects[PhotonKey(inputs.version)] == inputs.photonWasm
      && objects[ManifestKey(inputs.version)] == text
  {
    TargetKeysAreOther(inputs.version, targets);
    forall t | t in inputs.artifacts
      ensures HoldsTarget(
                written[PhotonKey(inputs.version) := inputs.photonWasm][ManifestKey(inputs.version) := text],
                inputs, tools, t)
    {
      FinishObjects(inputs, tools, targets, written, text, t);
    }
  }

  lemma TargetKeysAreOther(version: string, targets: seq<string>)
    ensures !IsTargetKey(PhotonKey(version), version, targets)
    ensures !IsTargetKey(ManifestKey(version), version, targets)
    ensures PhotonKey(version) != ManifestKey(version)
  {
    KeyKinds(version, "");
    forall t {
      KeyKinds(version, t);
    }
  }

  ghost predicate IsTargetKey(key: Key, version: string, targets: seq<string>) {
    exists t :: t in targets && (key == GzipKey(version, t) || key == ChecksumKey(version, t))
  }

  lemma NewTargetKeys(version: string, targets: seq<string>, target: string)
    requires target !in targets
    ensures !IsTargetKey(GzipKey(version, target), version, targets)
    ensures !IsTargetKey(ChecksumKey(version, target), version, targets)
    ensures GzipKey(version, target) != ChecksumKey(version, target)
    ensures forall k :: IsTargetKey(k, version, targets + [target]) <==>
              IsTargetKey(k, version, targets) || k == GzipKey(version, target) || k == ChecksumKey(version, target)
  {
    KeyKinds(version, target);
    forall t | t in targets
      ensures GzipKey(version, t) != GzipKey(version, target) && ChecksumKey(version, t) != ChecksumKey(version, target)
      ensures GzipKey(version, t) != ChecksumKey(version, target) && ChecksumKey(version, t) != GzipKey(version, target)
    {
      KeyKinds(version, t);
      TargetKeysAreInjective(version, t, target);
    }
  }

  /* What publications rely on. */

  /** A built tree lists its manifest exactly once, so it always has a plan and a well-formed job. */
  lemma BuiltTreeHasPlan(inputs: ReleaseInputs, tools: Tools, tree: Tree, written: map<Key, Bytes>, options: Options)
    requires IsBuilt(inputs, tools, tree, written)
    ensures multiset(tree.files)[ManifestKey(tree.version)] == 1
    ensures PlanUpload(tree, options).Some?
    ensures WellFormed(Job(tree.version, PlanUpload(tree, options).value, written))
  {
    assert IsTreeKey(ManifestKey(inputs.version), inputs.version, inputs.artifacts.Keys);
    PlanCoversTree(tree, options);
    PlannedJobIsWellFormed(tree, options, written);
  }

  /** Two builds of one version agree on every artifact they share. */
  ghost predicate SharesArtifacts(a: ReleaseInputs, b: ReleaseInputs) {
    && a.version == b.version
    && a.photonWasm == b.photonWasm
    && forall t :: t in a.artifacts && t in b.artifacts ==> a.artifacts[t] == b.artifacts[t]
  }

  /** Then they write the same bytes to every object they share, except the manifest. */
  lemma SharedObjectsAreEqual(
    a: ReleaseInputs, b: ReleaseInputs, tools: Tools,
    treeA: Tree, treeB: Tree, writtenA: map<Key, Bytes>, writtenB: map<Key, Bytes>, key: Key)
    requires IsBuilt(a, tools, treeA, writtenA) && IsBuilt(b, tools, treeB, writtenB) && SharesArtifacts(a, b)
    requires key in writtenA && key in writtenB && key != ManifestKey(a.version)
    ensures writtenA[key] == writtenB[key]
  {
    var version := a.version;
    assert key in treeA.files && IsTreeKey(key, version, a.artifacts.Keys);
    assert key in treeB.files && IsTreeKey(key, version, b.artifacts.Keys);
    KeyKinds(version, "");
    if key != PhotonKey(version) {
      var t :| t in a.artifacts && (key == GzipKey(version, t) || key == ChecksumKey(version, t));
      var u :| u in b.artifacts && (key == GzipKey(version, u) || key == ChecksumKey(version, u));
      SameTarget(version, t, u, key);
      SharedTargetObject(a, b, tools, writtenA, writtenB, t, key);
    }
  }

  lemma SameTarget(version: string, t: string, u: string, key: Key)
    requires key == GzipKey(version, t) || key == ChecksumKey(version, t)
    requires key == GzipKey(version, u) || key == ChecksumKey(version, u)
    ensures t == u
  {
    KeyKinds(version, t);
    KeyKinds(version, u);
    TargetKeysAreInjective(version, t, u);
  }

  lemma SharedTargetObject(
    a: ReleaseInputs, b: ReleaseInputs, tools: Tools, writtenA: map<Key, Bytes>, writtenB: map<Key, Bytes>, t: string, key: Key)
    requires SharesArtifacts(a, b) && t in a.artifacts && t in b.artifacts
    requires HoldsTarget(writtenA, a, tools, t) && HoldsTarget(writtenB, b, tools, t)
    requires key == GzipKey(a.version, t) || key == ChecksumKey(a.version, t)
    ensures writtenA[key] == writtenB[key]
  {
  }

  datatype Build = Build(inputs: ReleaseInputs, tree: Tree, written: map<Key, Bytes>)

  function JobOf(build: Build, finalize: bool): Job
    requires PlanUpload(build.tree, Options(finalize, finalize)).Some?
  {
    Job(build.tree.version, PlanUpload(build.tree, Options(finalize, finalize)).value, build.written)
  }

  /**
   * The jobs of a split publication meet what its safety rests on: each job builds its own targets,
   * the finalize pass is the only one that activates and the only one that tolerates what is up.
   */
  lemma BuiltJobsAreSplit(builds: seq<Build>, tools: Tools, finalize: nat, jobs: seq<Job>)
    requires finalize < |builds| == |jobs|
    requires forall w :: 0 <= w < |builds| ==>
               && IsBuilt(builds[w].inputs, tools, builds[w].tree, builds[w].written)
               && SharesArtifacts(builds[w].inputs, builds[finalize].inputs)
               && PlanUpload(builds[w].tree, Options(w == finalize, w == finalize)).Some?
               && jobs[w] == JobOf(builds[w], w == finalize)
    ensures IsSplit(jobs, finalize)
  {
    forall w | 0 <= w < |jobs|
      ensures WellFormed(jobs[w]) && jobs[w].version == jobs[finalize].version
      ensures jobs[w].plan.objectsOnly == (w != finalize) && jobs[w].plan.allowExisting == (w == finalize)
      ensures SameBytes(jobs[w], jobs[finalize])
    {
      var a, b := builds[w], builds[finalize];
      assert IsBuilt(b.inputs, tools, b.tree, b.written);
      BuiltTreeHasPlan(a.inputs, tools, a.tree, a.written, Options(w == finalize, w == finalize));
      PlanCoversTree(a.tree, Options(w == finalize, w == finalize));
      forall k | k in a.written && k in b.written && k != ManifestKey(a.inputs.version)
        ensures a.written[k] == b.written[k]
      {
        SharedObjectsAreEqual(a.inputs, b.inputs, tools, a.tree, b.tree, a.written, b.written, k);
      }
    }
  }
}
