/**
 * The installer's activation code, call by call, against a file system that may fail any of them
 * (crates/installer/src/active.rs:93-277, crates/installer/src/private_fs.rs:97-168).
 *
 * An `Installation` records the snapshots of the activation in progress. Its only way to change the
 * disk is `Perform`, which may be called only with the call the protocol makes next.
 */
module Installer {
  import opened Wrappers
  import opened ActiveState
  import opened Activation
  import opened ActivationSafety

  class Installation {
    var disk: Disk
    var windows: bool  // the platform of the activation in progress

    ghost var config: Config
    ghost var phase: Phase
    ghost var run: seq<Snapshot>

    constructor (disk: Disk)
      ensures this.disk == disk
    {
      this.disk := disk;
    }

    ghost predicate Valid()
      reads this
    {
      IsRun(config, run) && run[|run| - 1] == Snapshot(phase, disk) && config.windows == windows
    }

    /** The activation in progress is at `phase`, and its snapshots extend those of `since`. */
    ghost predicate At(since: seq<Snapshot>, config: Config, phase: Phase)
      reads this
    {
      Valid() && this.config == config && this.phase == phase && since <= run
    }

    /** One file-system call. Everything the environment may do happens here. */
    method Perform(operation: Operation) returns (reply: Reply)
      requires Valid() && !phase.Ended? && operation == OperationOf(config, phase)
      modifies this
      ensures Performs(old(windows), operation, reply, old(disk), disk)
      ensures !old(phase).Ended? && At(old(run), old(config), Advance(old(config), old(phase), reply))
    {
      ghost var s := Snapshot(phase, disk);
      var fault := *;
      if fault || !CanSucceed(windows, operation, disk) {
        var occupied := *;
        reply := Fault(occupied);
        var partial := *;
        if partial && operation.WriteAll? && CanSucceed(windows, operation, disk) {
          disk := disk[operation.place := File(Partial, false)];
        }
      } else {
        reply := SuccessReply(operation, disk);
        disk := Effect(windows, operation, disk);
      }
      phase := Advance(config, phase, reply);
      assert StepBy(config, s, reply, Snapshot(phase, disk));
      run := run + [Snapshot(phase, disk)];
    }

    /** Reading never changes the disk. A file that cannot be read is an I/O failure. */
    method ReadActive() returns (result: Result<Option<ActiveState>, ActiveError>)
      ensures ActiveFile !in disk ==> result == Ok(None) || result == Err(Io)
      ensures ActiveFile in disk && disk[ActiveFile].File? && disk[ActiveFile].data.State? ==>
                match ReadDocument(disk[ActiveFile].data.document)
                case Ok(state) => result == Ok(Some(state)) || result == Err(Io)
                case Err(error) => result == Err(error) || result == Err(Io)
      ensures result.Ok? && result.value.Some? ==> IsValidState(result.value.value)
    {
      var fault := *;
      if fault {
        return Err(Io);
      }
      if ActiveFile !in disk {
        return Ok(None);
      }
      var node := disk[ActiveFile];
      if !node.File? {
        return Err(Io);
      }
      if !node.data.State? {
        return Err(Invalid);
      }
      match ReadDocument(node.data.document) {
        case Ok(state) =>
          ReadStateIsWritable(node.data.document);
          return Ok(Some(state));
        case Err(error) =>
          return Err(error);
      }
    }

    /** Flushes the new file and renames it over its destination. */
    method Commit(context: Config, file: Replaced) returns (ok: bool)
      requires Valid() && context == config && phase == Replacing(file, Syncing)
      modifies this
      ensures At(old(run), context, if ok then AfterReplacing(file) else Replacing(file, Dropping))
    {
      var temporary := TemporaryOf(context, Replacing(file, Syncing));
      var reply := Perform(Sync(temporary));
      if reply.Fault? {
        return false;
      }
      reply := Perform(Rename(temporary, PlaceOf(file)));
      ok := !reply.Fault?;
    }

    /** A new file beside the destination, renamed over it, or dropped when that fails. */
    method ReplaceFile(context: Config, file: Replaced) returns (ok: bool)
      requires Valid() && context == config && phase == Replacing(file, Creating)
      modifies this
      ensures At(old(run), context, if ok then AfterReplacing(file) else Ended(IoFailed))
    {
      var temporary := TemporaryOf(context, Replacing(file, Creating));
      var reply := Perform(CreateFile(temporary));
      if reply.Fault? {
        return false;
      }
      reply := Perform(WriteAll(temporary, DataOf(context, file)));
      ok := !reply.Fault?;
      if ok {
        ok := Commit(context, file);
      }
      if !ok {
        var _ := Perform(RemoveFile(temporary));
      }
    }

    method WriteActiveState(context: Config) returns (result: Result<(), ActiveError>)
      requires Valid() && context == config && phase == Start(config)
      modifies this
      ensures At(old(run), context,
                 match result
                 case Ok(_) => MakingBinaries
                 case Err(Invalid) => Ended(InvalidState)
                 case Err(Io) => Ended(IoFailed))
      ensures result == Err(Invalid) <==> !IsValidState(context.state)
    {
      if !IsValidState(context.state) {
        return Err(Invalid);
      }
      var reply := Perform(MakeDirectories(InstallRoot));
      if reply.Fault? {
        return Err(Io);
      }
      var ok := ReplaceFile(context, StateFile);
      return if ok then Ok(()) else Err(Io);
    }

    /** A symlink beside the link, renamed over it. */
    method ReplaceSymlink(context: Config, link: Link) returns (ok: bool)
      requires Valid() && context == config && phase == Switching(link, Linking)
      modifies this
      ensures At(old(run), context,
                 if !ok then Ended(IoFailed)
                 else if link.ActiveSymlink? then Switching(ShimSymlink, Linking)
                 else Ended(Activated))
    {
      var temporary := TemporaryOf(context, Switching(link, Linking));
      var reply := Perform(MakeSymlink(temporary, LinkTarget(context, link)));
      if reply.Fault? {
        return false;
      }
      reply := Perform(Rename(temporary, LinkPlace(link)));
      if reply.Fault? {
        var _ := Perform(RemoveLink(temporary));
        return false;
      }
      ok := true;
    }

    method SwitchPosixLinks(context: Config) returns (ok: bool)
      requires Valid() && context == config && phase == Switching(ActiveSymlink, Linking)
      modifies this
      ensures At(old(run), context, Ended(if ok then Activated else IoFailed))
    {
      ok := ReplaceSymlink(context, ActiveSymlink);
      if ok {
        ok := ReplaceSymlink(context, ShimSymlink);
      }
    }

    /** Removes whatever is at a place without following it; nothing there is fine. */
    method RemoveExisting(context: Config, removal: Removal) returns (ok: bool)
      requires Valid() && context == config && phase == Inspecting(removal)
      modifies this
      ensures At(old(run), context, AfterRemoval(removal, ok))
    {
      var place := RemovalPlace(context, removal);
      var reply := Perform(Inspect(place));
      match reply {
        case Found(node) =>
          if IsLinkNode(node) {
            reply := Perform(RemoveLink(place));
          } else if node.Directory? {
            reply := Perform(RemoveTree(place));
          } else {
            reply := Perform(RemoveFile(place));
          }
          ok := !reply.Fault?;
        case _ =>
          ok := reply.Missing?;
      }
    }

    /** Cleans up behind a failed creation, unless the place was taken before. */
    method RemoveWhatCreationLeft(context: Config, error: Reply)
      requires Valid() && context == config && error.Fault?
      requires phase == if error.occupied then Ended(IoFailed) else Inspecting(FailedJunction)
      modifies this
      ensures At(old(run), context, Ended(IoFailed))
    {
      if !error.occupied {
        var _ := RemoveExisting(context, FailedJunction);
      }
    }

    method SwitchJunction(context: Config) returns (ok: bool)
      requires Valid() && context == config && phase == MakingEmpty
      modifies this
      ensures At(old(run), context, Ended(if ok then Activated else IoFailed))
    {
      var temporary := TemporaryOf(context, MakingEmpty);
      var reply := Perform(MakeDirectory(temporary));
      if !reply.Fault? {
        reply := Perform(MakeJunction(temporary, VersionTarget(context)));
      }
      if reply.Fault? {
        RemoveWhatCreationLeft(context, reply);
        return false;
      }
      ok := InstallJunction(context);
    }

    /** The new junction in the place of the old one, which is removed first. */
    method InstallJunction(context: Config) returns (ok: bool)
      requires Valid() && context == config && phase == Inspecting(OldJunction)
      modifies this
      ensures At(old(run), context, Ended(if ok then Activated else IoFailed))
    {
      var temporary := TemporaryOf(context, Inspecting(OldJunction));
      ok := RemoveExisting(context, OldJunction);
      if ok {
        var reply := Perform(Rename(temporary, ActiveLink));
        ok := !reply.Fault?;
      }
      if !ok {
        var _ := RemoveExisting(context, UnusedJunction);
      }
    }

    /**
     * Makes the state's version the active one. The snapshots it leaves are a run of the protocol
     * that ended as it reports, and a success leaves file, link and shim naming that version.
     */
    method Activate(context: Config) returns (result: Result<(), ActiveError>)
      modifies this
      ensures Valid() && config == context && run[0].disk == old(disk)
      ensures phase == Ended(match result case Ok(_) => Activated case Err(Invalid) => InvalidState case Err(Io) => IoFailed)
      ensures result == Err(Invalid) <==> !IsValidState(context.state)
      ensures result == Err(Invalid) ==> disk == old(disk)
      ensures result.Ok? ==> Agrees(context, disk)
    {
      windows := context.windows;
      config := context;
      phase := Start(context);
      run := [Snapshot(phase, disk)];
      result := RunActivation(context);
      RunKeepsInvariant(config, run, 0, |run| - 1);
    }

    method RunActivation(context: Config) returns (result: Result<(), ActiveError>)
      requires Valid() && context == config && phase == Start(config)
      modifies this
      ensures At(old(run), context,
                 Ended(match result case Ok(_) => Activated case Err(Invalid) => InvalidState case Err(Io) => IoFailed))
      ensures result == Err(Invalid) <==> !IsValidState(context.state)
    {
      result := WriteActiveState(context);
      if result.Err? {
        return;
      }
      var reply := Perform(MakeDirectories(BinaryDirectory));
      if reply.Fault? {
        return Err(Io);
      }
      var ok;
      if context.windows {
        if !context.rootIsUnicode {
          return Err(Io);
        }
        ok := ReplaceFile(context, LauncherFile);
        if ok {
          ok := SwitchJunction(context);
        }
      } else {
        ok := SwitchPosixLinks(context);
      }
      return if ok then Ok(()) else Err(Io);
    }
  }

  function AfterReplacing(file: Replaced): Phase {
    if file.StateFile? then MakingBinaries else MakingEmpty
  }
}
