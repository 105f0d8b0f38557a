/**
 * Activating an installed version, one file-system call at a time (crates/installer/src/active.rs).
 *
 * Any call may fail, and the process may be killed between any two. The state file and the POSIX
 * links are replaced by a rename; on Windows, which cannot rename over a junction, the old one is
 * removed first.
 */
module Activation {
  import opened ActiveState

  /* The disk. */

  /** `Temporary(run, count)` is the unique name that run's `count`-th temporary gets. */
  datatype Place =
    | InstallRoot
    | BinaryDirectory
    | ActiveFile
    | ActiveLink
    | PosixShim
    | WindowsShim
    | Temporary(run: nat, count: nat)

  datatype Target =
    | RelativeVersion(version: string)
    | AbsoluteVersion(root: string, version: string)
    | ActiveExecutable(root: string)
    | Elsewhere(path: string)

  /** `Partial` is any contents but a whole state or launcher. */
  datatype Data = Partial | State(document: Document) | Launcher(root: string)

  /**
   * A file that is not flushed may lose its data with the power. Windows has two kinds of symlink, to
   * directories and to files; elsewhere there is one, and `directory` means nothing.
   */
  datatype Node =
    | Directory
    | File(data: Data, flushed: bool)
    | Symlink(target: Target, directory: bool)
    | Junction(target: Target)

  type Disk = map<Place, Node>

  /** One call, which is atomic unless said otherwise. */
  datatype Operation =
    | MakeDirectories(place: Place)
    | CreateFile(place: Place)
    | WriteAll(place: Place, data: Data)
    | Sync(place: Place)
    | Rename(from: Place, to: Place)
    | MakeSymlink(place: Place, target: Target)
    | MakeDirectory(place: Place)
    | MakeJunction(place: Place, target: Target)
    | Inspect(place: Place)
    | RemoveLink(place: Place)
    | RemoveTree(place: Place)
    | RemoveFile(place: Place)

  datatype Reply = Succeeded | Found(node: Node) | Missing | Fault(occupied: bool)

  predicate IsLinkNode(node: Node) {
    node.Symlink? || node.Junction?
  }

  /** A rename may put a file or a symlink there; Windows refuses over what is a link to a directory. */
  predicate IsOverwritable(windows: bool, node: Node) {
    node.File? || (node.Symlink? && !(windows && node.directory))
  }

  /** Links are removed like files, on Windows like directories, which a symlink to a file is not. */
  predicate IsRemovableLink(windows: bool, node: Node) {
    node.Junction? || (node.Symlink? && (windows ==> node.directory))
  }

  predicate CanSucceed(windows: bool, operation: Operation, disk: Disk) {
    match operation
    case MakeDirectories(place) => place !in disk || disk[place].Directory?
    case CreateFile(place) => place !in disk
    case WriteAll(place, _) => place in disk && disk[place].File?
    case Sync(place) => place in disk && disk[place].File?
    case Rename(from, to) =>
      && from in disk
      && from != to
      && (to in disk ==> IsOverwritable(windows, disk[from]) && IsOverwritable(windows, disk[to]))
    case MakeSymlink(place, _) => place !in disk
    case MakeDirectory(place) => place !in disk
    case MakeJunction(place, _) => place in disk && disk[place].Directory?
    case Inspect(place) => true
    case RemoveLink(place) => place in disk && IsRemovableLink(windows, disk[place])
    case RemoveTree(place) => place in disk && disk[place].Directory?
    case RemoveFile(place) => place in disk && disk[place].File?
  }

  function Effect(windows: bool, operation: Operation, disk: Disk): Disk
    requires CanSucceed(windows, operation, disk)
  {
    match operation
    case MakeDirectories(place) => disk[place := Directory]
    case CreateFile(place) => disk[place := File(Partial, false)]
    case WriteAll(place, data) => disk[place := File(data, false)]
    case Sync(place) => disk[place := File(disk[place].data, true)]
    case Rename(from, to) => (disk - {from})[to := disk[from]]
    case MakeSymlink(place, target) => disk[place := Symlink(target, false)]
    case MakeDirectory(place) => disk[place := Directory]
    case MakeJunction(place, target) => disk[place := Junction(target)]
    case Inspect(_) => disk
    case RemoveLink(place) => disk - {place}
    case RemoveTree(place) => disk - {place}
    case RemoveFile(place) => disk - {place}
  }

  function SuccessReply(operation: Operation, disk: Disk): Reply {
    match operation
    case Inspect(place) => if place in disk then Found(disk[place]) else Missing
    case _ => Succeeded
  }

  /** A failed call changes nothing, except that a failed write may leave part of the data. */
  ghost predicate Performs(windows: bool, operation: Operation, reply: Reply, before: Disk, after: Disk) {
    || (&& CanSucceed(windows, operation, before)
        && reply == SuccessReply(operation, before)
        && after == Effect(windows, operation, before))
    || (reply.Fault? && after == before)
    || (&& reply.Fault? && operation.WriteAll? && CanSucceed(windows, operation, before)
        && after == before[operation.place := File(Partial, false)])
  }

  /** A place after a loss of power is as it was, but for the data of a file that was not flushed. */
  ghost predicate SurvivesAt(before: Disk, after: Disk, place: Place) {
    && (place in after <==> place in before)
    && (place in before ==>
          after[place] == before[place] || (IsUnflushed(before[place]) && after[place] == File(Partial, false)))
  }

  /** What a disk may hold after the process was killed, or the power failed, when renames are on disk. */
  ghost predicate Survives(before: Disk, after: Disk) {
    forall place :: SurvivesAt(before, after, place)
  }

  predicate IsUnflushed(node: Node) {
    node.File? && !node.flushed
  }

  /* The protocol. */

  /** One activation. `root` is None when the install root is not valid Unicode. */
  datatype Config = Config(run: nat, windows: bool, root: string, rootIsUnicode: bool, state: ActiveState)

  datatype Replaced = StateFile | LauncherFile

  datatype Link = ActiveSymlink | ShimSymlink

  datatype FileStep = Creating | Writing | Syncing | Renaming | Dropping

  datatype LinkStep = Linking | RenamingLink | DroppingLink

  /** Why something is removed: the junction being replaced, or one that came to nothing. */
  datatype Removal = OldJunction | FailedJunction | UnusedJunction

  datatype Outcome = Activated | InvalidState | IoFailed

  datatype Phase =
    | MakingRoot
    | Replacing(file: Replaced, step: FileStep)
    | MakingBinaries
    | Switching(link: Link, linkStep: LinkStep)
    | MakingEmpty      // the crate makes a directory first,
    | MakingJunction   // and then makes it a junction
    | Inspecting(removal: Removal)
    | Removing(removal: Removal, node: Node)
    | RenamingJunction
    | Ended(outcome: Outcome)

  function Start(config: Config): Phase {
    if IsValidState(config.state) then MakingRoot else Ended(InvalidState)
  }

  /** After `active.json` and the shim directory. */
  function StartSwitch(config: Config): Phase {
    if !config.windows then Switching(ActiveSymlink, Linking)
    else if config.rootIsUnicode then Replacing(LauncherFile, Creating)
    else Ended(IoFailed)
  }

  function TemporaryOf(config: Config, phase: Phase): Place {
    match phase
    case Replacing(StateFile, _) => Temporary(config.run, 0)
    case Replacing(LauncherFile, _) => Temporary(config.run, 1)
    case Switching(ActiveSymlink, _) => Temporary(config.run, 1)
    case _ => Temporary(config.run, 2)
  }

  function DataOf(config: Config, file: Replaced): Data {
    match file
    case StateFile => State(Serialize(config.state))
    case LauncherFile => Launcher(config.root)
  }

  function PlaceOf(file: Replaced): Place {
    match file
    case StateFile => ActiveFile
    case LauncherFile => WindowsShim
  }

  function VersionTarget(config: Config): Target {
    if config.windows then AbsoluteVersion(config.root, config.state.current)
    else RelativeVersion(config.state.current)
  }

  function LinkTarget(config: Config, link: Link): Target {
    match link
    case ActiveSymlink => VersionTarget(config)
    case ShimSymlink => ActiveExecutable(config.root)
  }

  function LinkPlace(link: Link): Place {
    match link
    case ActiveSymlink => ActiveLink
    case ShimSymlink => PosixShim
  }

  function RemovalPlace(config: Config, removal: Removal): Place {
    if removal.OldJunction? then ActiveLink else Temporary(config.run, 2)
  }

  function OperationOf(config: Config, phase: Phase): Operation
    requires !phase.Ended?
  {
    var temporary := TemporaryOf(config, phase);
    match phase
    case MakingRoot => MakeDirectories(InstallRoot)
    case Replacing(file, step) =>
      (match step
       case Creating => CreateFile(temporary)
       case Writing => WriteAll(temporary, DataOf(config, file))
       case Syncing => Sync(temporary)
       case Renaming => Rename(temporary, PlaceOf(file))
       case Dropping => RemoveFile(temporary))
    case MakingBinaries => MakeDirectories(BinaryDirectory)
    case Switching(link, step) =>
      (match step
       case Linking => MakeSymlink(temporary, LinkTarget(config, link))
       case RenamingLink => Rename(temporary, LinkPlace(link))
       case DroppingLink => RemoveLink(temporary))
    case MakingEmpty => MakeDirectory(temporary)
    case MakingJunction => MakeJunction(temporary, VersionTarget(config))
    case Inspecting(removal) => Inspect(RemovalPlace(config, removal))
    case Removing(removal, node) =>
      var place := RemovalPlace(config, removal);
      if IsLinkNode(node) then RemoveLink(place) else if node.Directory? then RemoveTree(place) else RemoveFile(place)
    case RenamingJunction => Rename(temporary, ActiveLink)
  }

  function AfterRemoval(removal: Removal, removed: bool): Phase {
    if removal != OldJunction then Ended(IoFailed)
    else if removed then RenamingJunction
    else Inspecting(UnusedJunction)
  }

  function Advance(config: Config, phase: Phase, reply: Reply): Phase
    requires !phase.Ended?
  {
    var ok := !reply.Fault?;
    match phase
    case MakingRoot => if ok then Replacing(StateFile, Creating) else Ended(IoFailed)
    case Replacing(file, step) =>
      (match step
       case Creating => if ok then Replacing(file, Writing) else Ended(IoFailed)
       case Writing => Replacing(file, if ok then Syncing else Dropping)
       case Syncing => Replacing(file, if ok then Renaming else Dropping)
       case Renaming =>
         if !ok then Replacing(file, Dropping)
         else if file.StateFile? then MakingBinaries
         else MakingEmpty
       case Dropping => Ended(IoFailed))
    case MakingBinaries => if ok then StartSwitch(config) else Ended(IoFailed)
    case Switching(link, step) =>
      (match step
       case Linking => if ok then Switching(link, RenamingLink) else Ended(IoFailed)
       case RenamingLink =>
         if !ok then Switching(link, DroppingLink)
         else if link.ActiveSymlink? then Switching(ShimSymlink, Linking)
         else Ended(Activated)
       case DroppingLink => Ended(IoFailed))
    case MakingEmpty =>
      if ok then MakingJunction
      else if reply.occupied then Ended(IoFailed)
      else Inspecting(FailedJunction)
    case MakingJunction =>
      if ok then Inspecting(OldJunction)
      else if reply.occupied then Ended(IoFailed)
      else Inspecting(FailedJunction)
    case Inspecting(removal) =>
      if reply.Found? then Removing(removal, reply.node) else AfterRemoval(removal, reply.Missing?)
    case Removing(removal, _) => AfterRemoval(removal, ok)
    case RenamingJunction => if ok then Ended(Activated) else Inspecting(UnusedJunction)
  }

  /* Runs. */

  datatype Snapshot = Snapshot(phase: Phase, disk: Disk)

  ghost predicate StepBy(config: Config, s: Snapshot, reply: Reply, t: Snapshot) {
    && !s.phase.Ended?
    && Performs(config.windows, OperationOf(config, s.phase), reply, s.disk, t.disk)
    && t.phase == Advance(config, s.phase, reply)
  }

  ghost predicate Step(config: Config, s: Snapshot, t: Snapshot) {
    exists reply :: StepBy(config, s, reply, t)
  }

  /** One activation, up to any call. */
  ghost predicate IsRun(config: Config, run: seq<Snapshot>) {
    && |run| > 0
    && run[0].phase == Start(config)
    && forall i :: 0 < i < |run| ==> Step(config, run[i - 1], run[i])
  }
}
