/** What every activation keeps at every call, and where a completed one ends. */
module ActivationSafety {
  import opened Wrappers
  import opened ActiveState
  import opened Activation

  /* What a disk says. */

  ghost predicate HoldsState(node: Node) {
    node.File? && node.data.State? && ReadDocument(node.data.document).Ok?
  }

  /** The version `active.json` names. */
  ghost function FileVersion(disk: Disk): Option<string> {
    if ActiveFile in disk && HoldsState(disk[ActiveFile]) then
      Some(ReadDocument(disk[ActiveFile].data.document).value.current)
    else None
  }

  ghost function NamedVersion(target: Target): Option<string> {
    match target
    case RelativeVersion(version) => Some(version)
    case AbsoluteVersion(_, version) => Some(version)
    case _ => None
  }

  /** The version `active` names. */
  ghost function LinkVersion(disk: Disk): Option<string> {
    if ActiveLink in disk && IsLinkNode(disk[ActiveLink]) then NamedVersion(disk[ActiveLink].target) else None
  }

  /* What every call keeps, whatever disk the activation starts from. */

  /** The run's temporary holds what the phase is about to rename. */
  ghost predicate TemporaryIsReady(config: Config, s: Snapshot) {
    var temporary := TemporaryOf(config, s.phase);
    match s.phase
    case Replacing(_, Writing) => temporary in s.disk && s.disk[temporary].File?
    case Replacing(file, Syncing) => temporary in s.disk && s.disk[temporary] == File(DataOf(config, file), false)
    case Replacing(file, Renaming) => temporary in s.disk && s.disk[temporary] == File(DataOf(config, file), true)
    case Switching(link, RenamingLink) => temporary in s.disk && s.disk[temporary] == Symlink(LinkTarget(config, link), false)
    case MakingJunction => temporary in s.disk && s.disk[temporary].Directory?
    case Inspecting(OldJunction) => temporary in s.disk && s.disk[temporary] == Junction(VersionTarget(config))
    case Removing(OldJunction, _) => temporary in s.disk && s.disk[temporary] == Junction(VersionTarget(config))
    case RenamingJunction => temporary in s.disk && s.disk[temporary] == Junction(VersionTarget(config))
    case _ => true
  }

  /** `active.json` has been replaced by this run. */
  ghost predicate StateWritten(phase: Phase) {
    match phase
    case MakingRoot => false
    case Replacing(StateFile, _) => false
    case Ended(outcome) => outcome.Activated?
    case _ => true
  }

  /** Nothing has been renamed over `active.json` yet. */
  ghost predicate StateUntouched(phase: Phase) {
    phase.MakingRoot? || (phase.Replacing? && phase.file.StateFile?) || phase == Ended(InvalidState)
  }

  /** `active` has been switched by this run. */
  ghost predicate LinkSwitched(phase: Phase) {
    || (phase.Switching? && phase.link.ShimSymlink?)
    || phase == Ended(Activated)
  }

  /** The old junction is gone and the new one is not there yet, now or for good. */
  ghost predicate MayMissLink(phase: Phase) {
    || phase.RenamingJunction?
    || phase == Inspecting(UnusedJunction)
    || (phase.Removing? && phase.removal.UnusedJunction?)
    || phase == Ended(IoFailed)
  }

  /** What a completed activation leaves at a place. */
  ghost function NewNode(config: Config, place: Place): Node {
    match place
    case ActiveFile => File(State(Serialize(config.state)), true)
    case ActiveLink => if config.windows then Junction(VersionTarget(config)) else Symlink(VersionTarget(config), false)
    case PosixShim => Symlink(ActiveExecutable(config.root), false)
    case WindowsShim => File(Launcher(config.root), true)
    case _ => Directory
  }

  ghost predicate IsNew(config: Config, disk: Disk, place: Place) {
    place in disk && disk[place] == NewNode(config, place)
  }

  ghost predicate IsOld(before: Disk, disk: Disk, place: Place) {
    (place in before <==> place in disk) && (place in before ==> before[place] == disk[place])
  }

  ghost predicate Agrees(config: Config, disk: Disk) {
    IsNew(config, disk, ActiveFile) && IsNew(config, disk, ActiveLink) && IsNew(config, disk, ShimPlace(config))
  }

  function ShimPlace(config: Config): Place {
    if config.windows then WindowsShim else PosixShim
  }

  ghost predicate PlatformPhase(config: Config, phase: Phase) {
    match phase
    case Replacing(LauncherFile, _) => config.windows && config.rootIsUnicode
    case Switching(_, _) => !config.windows
    case MakingEmpty | MakingJunction | Inspecting(_) | Removing(_, _) | RenamingJunction =>
      config.windows && config.rootIsUnicode
    case Ended(Activated) => config.windows ==> config.rootIsUnicode
    case _ => true
  }

  /** What the phase rests on: the platform, a valid state, and the temporary. */
  ghost predicate IsPrepared(config: Config, s: Snapshot) {
    && PlatformPhase(config, s.phase)
    && TemporaryIsReady(config, s)
    && (IsValidState(config.state) || s.phase == Ended(InvalidState))
  }

  ghost predicate FileInvariant(config: Config, before: Disk, s: Snapshot) {
    && (StateUntouched(s.phase) ==> IsOld(before, s.disk, ActiveFile))
    && (StateWritten(s.phase) ==> IsNew(config, s.disk, ActiveFile))
    && (IsOld(before, s.disk, ActiveFile) || IsNew(config, s.disk, ActiveFile))
  }

  ghost predicate LinkInvariant(config: Config, before: Disk, s: Snapshot) {
    && (LinkSwitched(s.phase) ==> IsNew(config, s.disk, ActiveLink))
    && (s.phase.RenamingJunction? ==> ActiveLink !in s.disk)
    && (|| IsOld(before, s.disk, ActiveLink)
        || (IsNew(config, s.disk, ActiveLink) && IsNew(config, s.disk, ActiveFile))
        || (ActiveLink !in s.disk && config.windows && MayMissLink(s.phase)))
  }

  ghost predicate LauncherInvariant(config: Config, before: Disk, s: Snapshot) {
    && (config.windows && (PastLauncher(s.phase) || s.phase == Ended(Activated)) ==> IsNew(config, s.disk, WindowsShim))
    && (IsOld(before, s.disk, WindowsShim) || IsNew(config, s.disk, WindowsShim))
  }

  ghost predicate ShimInvariant(config: Config, before: Disk, s: Snapshot) {
    && (!config.windows && s.phase == Ended(Activated) ==> IsNew(config, s.disk, PosixShim))
    && (IsOld(before, s.disk, PosixShim) || IsNew(config, s.disk, PosixShim))
  }

  ghost predicate Invariant(config: Config, before: Disk, s: Snapshot) {
    && IsPrepared(config, s)
    && FileInvariant(config, before, s)
    && LinkInvariant(config, before, s)
    && LauncherInvariant(config, before, s)
    && ShimInvariant(config, before, s)
    && (s.phase == Ended(InvalidState) ==> s.disk == before)
  }

  ghost predicate PastLauncher(phase: Phase) {
    phase.MakingEmpty? || phase.MakingJunction? || phase.Inspecting? || phase.Removing? || phase.RenamingJunction?
  }

  lemma StepKeepsPrepared(config: Config, s: Snapshot, reply: Reply, t: Snapshot)
    requires StepBy(config, s, reply, t) && IsPrepared(config, s)
    ensures IsPrepared(config, t)
  {
    StepKeepsTemporary(config, s, reply, t);
  }

  lemma StepKeepsTemporary(config: Config, s: Snapshot, reply: Reply, t: Snapshot)
    requires StepBy(config, s, reply, t) && TemporaryIsReady(config, s)
    ensures TemporaryIsReady(config, t)
  {
  }

  lemma StepKeepsFile(config: Config, before: Disk, s: Snapshot, reply: Reply, t: Snapshot)
    requires StepBy(config, s, reply, t) && IsPrepared(config, s) && FileInvariant(config, before, s)
    ensures FileInvariant(config, before, t)
  {
  }

  lemma StepKeepsLink(config: Config, before: Disk, s: Snapshot, reply: Reply, t: Snapshot)
    requires StepBy(config, s, reply, t) && IsPrepared(config, s)
    requires FileInvariant(config, before, s) && FileInvariant(config, before, t)
    requires LinkInvariant(config, before, s)
    ensures LinkInvariant(config, before, t)
  {
    if s.phase.Inspecting? || s.phase.Removing? {
      RemovalKeepsLink(config, before, s, reply, t);
    } else if config.windows {
      StepKeepsJunction(config, before, s, reply, t);
    }
  }

  lemma RemovalKeepsLink(config: Config, before: Disk, s: Snapshot, reply: Reply, t: Snapshot)
    requires StepBy(config, s, reply, t) && IsPrepared(config, s) && (s.phase.Inspecting? || s.phase.Removing?)
    requires FileInvariant(config, before, s) && LinkInvariant(config, before, s)
    ensures LinkInvariant(config, before, t)
  {
  }

  lemma StepKeepsJunction(config: Config, before: Disk, s: Snapshot, reply: Reply, t: Snapshot)
    requires StepBy(config, s, reply, t) && IsPrepared(config, s) && config.windows
    requires !s.phase.Inspecting? && !s.phase.Removing?
    requires FileInvariant(config, before, s) && FileInvariant(config, before, t)
    requires LinkInvariant(config, before, s)
    ensures LinkInvariant(config, before, t)
  {
  }

  lemma StepKeepsLauncher(config: Config, before: Disk, s: Snapshot, reply: Reply, t: Snapshot)
    requires StepBy(config, s, reply, t) && IsPrepared(config, s) && LauncherInvariant(config, before, s)
    ensures LauncherInvariant(config, before, t)
  {
  }

  lemma StepKeepsShim(config: Config, before: Disk, s: Snapshot, reply: Reply, t: Snapshot)
    requires StepBy(config, s, reply, t) && IsPrepared(config, s) && ShimInvariant(config, before, s)
    ensures ShimInvariant(config, before, t)
  {
  }

  lemma StepKeepsInvariant(config: Config, before: Disk, s: Snapshot, t: Snapshot)
    requires Step(config, s, t) && Invariant(config, before, s)
    ensures Invariant(config, before, t)
  {
    var reply :| StepBy(config, s, reply, t);
    StepKeepsPrepared(config, s, reply, t);
    StepKeepsFile(config, before, s, reply, t);
    StepKeepsLink(config, before, s, reply, t);
    StepKeepsLauncher(config, before, s, reply, t);
    StepKeepsShim(config, before, s, reply, t);
    assert t.phase != Ended(InvalidState);
  }

  lemma NewPlacesNameVersion(config: Config, disk: Disk)
    requires IsValidState(config.state)
    ensures IsNew(config, disk, ActiveFile) ==> FileVersion(disk) == Some(config.state.current)
    ensures IsNew(config, disk, ActiveLink) ==> LinkVersion(disk) == Some(config.state.current)
  {
    WrittenStateReadsBack(config.state);
  }

  /** From any snapshot of a run on, with that snapshot as the one of before. */
  lemma {:induction false} RunKeepsInvariant(config: Config, run: seq<Snapshot>, j: nat, i: nat)
    requires IsRun(config, run) && j <= i < |run|
    ensures Invariant(config, run[j].disk, run[i])
    decreases i, j
  {
    if j < i {
      RunKeepsInvariant(config, run, j, i - 1);
      StepKeepsInvariant(config, run[j].disk, run[i - 1], run[i]);
    } else if j > 0 {
      RunKeepsInvariant(config, run, 0, i);
    }
  }

  /** Only a valid state is activated, and on Windows only below a root the launcher can name. */
  ghost predicate CanActivate(config: Config) {
    IsValidState(config.state) && (config.windows ==> config.rootIsUnicode)
  }

  /**
   * A completed activation leaves the file, the link and the shim naming its version, whatever disk
   * it started from.
   */
  lemma CompletedActivationAgrees(config: Config, run: seq<Snapshot>)
    requires IsRun(config, run)
    requires run[|run| - 1].phase == Ended(Activated)
    ensures Agrees(config, run[|run| - 1].disk) && CanActivate(config)
    ensures FileVersion(run[|run| - 1].disk) == LinkVersion(run[|run| - 1].disk) == Some(config.state.current)
  {
    RunKeepsInvariant(config, run, 0, |run| - 1);
    NewPlacesNameVersion(config, run[|run| - 1].disk);
  }

  /* What a failed or killed activation leaves. */

  /**
   * At every call each place is as before or as a completed activation leaves it, the link apart,
   * which on Windows may be missing in between.
   */
  lemma EveryPlaceIsOldOrNew(config: Config, run: seq<Snapshot>, i: nat)
    requires IsRun(config, run) && i < |run|
    ensures IsOld(run[0].disk, run[i].disk, ActiveFile) || IsNew(config, run[i].disk, ActiveFile)
    ensures IsOld(run[0].disk, run[i].disk, PosixShim) || IsNew(config, run[i].disk, PosixShim)
    ensures IsOld(run[0].disk, run[i].disk, WindowsShim) || IsNew(config, run[i].disk, WindowsShim)
    ensures
      || IsOld(run[0].disk, run[i].disk, ActiveLink)
      || IsNew(config, run[i].disk, ActiveLink)
      || (config.windows && ActiveLink !in run[i].disk && MayMissLink(run[i].phase))
  {
    RunKeepsInvariant(config, run, 0, i);
  }

  /** The three names the run takes for its temporaries are free. */
  ghost predicate HasFreeNames(config: Config, disk: Disk) {
    forall count: nat :: count < 3 ==> Temporary(config.run, count) !in disk
  }

  /** The temporary of the phase may exist. */
  ghost predicate HoldsTemporary(phase: Phase) {
    || (phase.Replacing? && !phase.step.Creating?)
    || (phase.Switching? && !phase.linkStep.Linking?)
    || phase.MakingJunction? || phase.Inspecting? || phase.Removing? || phase.RenamingJunction?
  }

  ghost predicate HasNoOtherTemporary(config: Config, s: Snapshot) {
    forall count: nat :: count < 3 && Temporary(config.run, count) in s.disk ==>
      HoldsTemporary(s.phase) && Temporary(config.run, count) == TemporaryOf(config, s.phase)
  }

  ghost predicate IsCleanup(phase: Phase) {
    || (phase.Replacing? && phase.step.Dropping?)
    || (phase.Switching? && phase.linkStep.DroppingLink?)
    || (phase.Inspecting? && !phase.removal.OldJunction?)
    || (phase.Removing? && !phase.removal.OldJunction?)
  }

  /** A call of the cleaning up failed, or a directory of our own was taken for somebody else's. */
  ghost predicate LeavesBehind(phase: Phase, reply: Reply) {
    reply.Fault? && (IsCleanup(phase) || (phase.MakingJunction? && reply.occupied))
  }

  ghost predicate CleansUp(config: Config, s: Snapshot, t: Snapshot) {
    exists reply :: StepBy(config, s, reply, t) && !LeavesBehind(s.phase, reply)
  }

  lemma StepCleansUp(config: Config, s: Snapshot, t: Snapshot)
    requires CleansUp(config, s, t) && HasNoOtherTemporary(config, s)
    ensures HasNoOtherTemporary(config, t)
  {
    var reply :| StepBy(config, s, reply, t) && !LeavesBehind(s.phase, reply);
  }

  lemma {:induction false} RunCleansUp(config: Config, run: seq<Snapshot>, i: nat)
    requires |run| > 0 && run[0].phase == Start(config) && HasFreeNames(config, run[0].disk)
    requires forall n :: 0 < n < |run| ==> CleansUp(config, run[n - 1], run[n])
    requires i < |run|
    ensures HasNoOtherTemporary(config, run[i])
  {
    if i > 0 {
      RunCleansUp(config, run, i - 1);
      StepCleansUp(config, run[i - 1], run[i]);
    }
  }

  /** An activation that ends leaves no temporary, unless a call of its cleaning up failed. */
  lemma NothingIsLeftBehind(config: Config, run: seq<Snapshot>)
    requires |run| > 0 && run[0].phase == Start(config) && HasFreeNames(config, run[0].disk)
    requires forall n :: 0 < n < |run| ==> CleansUp(config, run[n - 1], run[n])
    requires run[|run| - 1].phase.Ended?
    ensures HasFreeNames(config, run[|run| - 1].disk)
  {
    RunCleansUp(config, run, |run| - 1);
  }
}
