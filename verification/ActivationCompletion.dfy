/** From which disks an activation completes when no call of it fails (crates/installer/src/active.rs:119-277). */
module ActivationCompletion {
  import opened Activation
  import opened ActivationSafety

  ghost function Success(config: Config, s: Snapshot): Snapshot
    requires !s.phase.Ended? && CanSucceed(config.windows, OperationOf(config, s.phase), s.disk)
  {
    var operation := OperationOf(config, s.phase);
    Snapshot(Advance(config, s.phase, SuccessReply(operation, s.disk)), Effect(config.windows, operation, s.disk))
  }

  ghost predicate SucceedsTo(config: Config, s: Snapshot, t: Snapshot) {
    && !s.phase.Ended?
    && CanSucceed(config.windows, OperationOf(config, s.phase), s.disk)
    && t == Success(config, s)
  }

  /** Every call of the run succeeds, until it completes. */
  ghost predicate Completes(config: Config, s: Snapshot, run: seq<Snapshot>) {
    && |run| > 0
    && run[0] == s
    && run[|run| - 1].phase == Ended(Activated)
    && forall i :: 0 < i < |run| ==> SucceedsTo(config, run[i - 1], run[i])
  }

  lemma CompletingRunIsRun(config: Config, disk: Disk, run: seq<Snapshot>)
    requires Completes(config, Snapshot(Start(config), disk), run)
    ensures IsRun(config, run)
  {
    forall i | 0 < i < |run|
      ensures Step(config, run[i - 1], run[i])
    {
      var s := run[i - 1];
      assert SucceedsTo(config, s, run[i]);
      assert StepBy(config, s, SuccessReply(OperationOf(config, s.phase), s.disk), run[i]);
    }
  }

  /* The condition. */

  predicate IsDirectoryOrFree(disk: Disk, place: Place) {
    place in disk ==> disk[place].Directory?
  }

  /** A file or a symlink may be renamed there. */
  predicate IsReplaceable(windows: bool, disk: Disk, place: Place) {
    place in disk ==> IsOverwritable(windows, disk[place])
  }

  /** Whatever is there can be removed; on Windows it may be anything but a symlink to a file. */
  predicate IsRemovable(windows: bool, disk: Disk, place: Place) {
    place in disk && IsLinkNode(disk[place]) ==> IsRemovableLink(windows, disk[place])
  }

  /**
   * Directories where directories go, none where a file or a link does, and on Windows nothing that
   * links to one; only a Windows `active` may be anything but a symlink to a file.
   */
  predicate IsUnblocked(windows: bool, disk: Disk) {
    && IsDirectoryOrFree(disk, InstallRoot) && IsDirectoryOrFree(disk, BinaryDirectory)
    && IsReplaceable(windows, disk, ActiveFile)
    && (if windows then IsReplaceable(windows, disk, WindowsShim) && IsRemovable(windows, disk, ActiveLink)
        else IsReplaceable(windows, disk, ActiveLink) && IsReplaceable(windows, disk, PosixShim))
  }

  /* The same condition for what is left of a run, phase by phase. */

  ghost predicate IsFree(config: Config, disk: Disk, count: nat) {
    Temporary(config.run, count) !in disk
  }

  ghost predicate CanStartSwitch(config: Config, disk: Disk) {
    && IsFree(config, disk, 1) && IsFree(config, disk, 2)
    && (if config.windows then
          config.rootIsUnicode && IsReplaceable(true, disk, WindowsShim) && IsRemovable(true, disk, ActiveLink)
        else IsReplaceable(false, disk, ActiveLink) && IsReplaceable(false, disk, PosixShim))
  }

  ghost predicate CanGoOn(config: Config, file: Replaced, disk: Disk) {
    if file.StateFile? then IsDirectoryOrFree(disk, BinaryDirectory) && CanStartSwitch(config, disk)
    else CanSwitchJunction(config, disk)
  }

  ghost predicate CanSwitchJunction(config: Config, disk: Disk) {
    IsFree(config, disk, 2) && IsRemovable(config.windows, disk, ActiveLink)
  }

  ghost predicate CanFinish(config: Config, s: Snapshot) {
    match s.phase
    case MakingRoot =>
      && IsDirectoryOrFree(s.disk, InstallRoot)
      && IsFree(config, s.disk, 0) && IsReplaceable(config.windows, s.disk, ActiveFile)
      && CanGoOn(config, StateFile, s.disk)
    case Replacing(file, step) =>
      && !step.Dropping?
      && CanSucceed(config.windows, OperationOf(config, s.phase), s.disk)
      && (!step.Renaming? ==> IsReplaceable(config.windows, s.disk, PlaceOf(file)))
      && CanGoOn(config, file, s.disk)
    case MakingBinaries => IsDirectoryOrFree(s.disk, BinaryDirectory) && CanStartSwitch(config, s.disk)
    case Switching(link, step) =>
      && !step.DroppingLink?
      && CanSucceed(config.windows, OperationOf(config, s.phase), s.disk)
      && (step.Linking? ==> IsReplaceable(config.windows, s.disk, LinkPlace(link)))
      && (link.ActiveSymlink? ==> IsFree(config, s.disk, 2) && IsReplaceable(config.windows, s.disk, PosixShim))
    case MakingEmpty => CanSwitchJunction(config, s.disk)
    case MakingJunction =>
      CanSucceed(config.windows, OperationOf(config, s.phase), s.disk) && IsRemovable(config.windows, s.disk, ActiveLink)
    case Inspecting(removal) => removal.OldJunction? && !IsFree(config, s.disk, 2) && IsRemovable(config.windows, s.disk, ActiveLink)
    case Removing(removal, _) =>
      && removal.OldJunction?
      && CanSucceed(config.windows, OperationOf(config, s.phase), s.disk)
      && !IsFree(config, s.disk, 2)
    case RenamingJunction => CanSucceed(config.windows, OperationOf(config, s.phase), s.disk)
    case Ended(outcome) => outcome.Activated?
  }

  /** The condition before a call is that the call can succeed, and the condition after it. */
  lemma FinishingGoesOn(config: Config, s: Snapshot)
    requires !s.phase.Ended?
    ensures CanFinish(config, s) ==> CanSucceed(config.windows, OperationOf(config, s.phase), s.disk)
    ensures CanSucceed(config.windows, OperationOf(config, s.phase), s.disk) ==>
              (CanFinish(config, s) <==> CanFinish(config, Success(config, s)))
  {
    if s.phase.Replacing? {
      FinishingGoesOnWhileReplacing(config, s);
    } else if s.phase.Switching? {
      FinishingGoesOnWhileSwitching(config, s);
    } else if s.phase.Inspecting? || s.phase.Removing? {
      FinishingGoesOnWhileRemoving(config, s);
    }
  }

  lemma FinishingGoesOnWhileSwitching(config: Config, s: Snapshot)
    requires s.phase.Switching?
    ensures CanFinish(config, s) ==> CanSucceed(config.windows, OperationOf(config, s.phase), s.disk)
    ensures CanSucceed(config.windows, OperationOf(config, s.phase), s.disk) ==>
              (CanFinish(config, s) <==> CanFinish(config, Success(config, s)))
  {
  }

  lemma FinishingGoesOnWhileRemoving(config: Config, s: Snapshot)
    requires s.phase.Inspecting? || s.phase.Removing?
    ensures CanFinish(config, s) ==> CanSucceed(config.windows, OperationOf(config, s.phase), s.disk)
    ensures CanSucceed(config.windows, OperationOf(config, s.phase), s.disk) ==>
              (CanFinish(config, s) <==> CanFinish(config, Success(config, s)))
  {
  }

  lemma FinishingGoesOnWhileReplacing(config: Config, s: Snapshot)
    requires s.phase.Replacing?
    ensures CanFinish(config, s) ==> CanSucceed(config.windows, OperationOf(config, s.phase), s.disk)
    ensures CanSucceed(config.windows, OperationOf(config, s.phase), s.disk) ==>
              (CanFinish(config, s) <==> CanFinish(config, Success(config, s)))
  {
  }

  /** How many calls are left when none fails. */
  ghost function Remaining(config: Config, phase: Phase): nat {
    var switch := if config.windows then 9 else 4;
    match phase
    case MakingRoot => switch + 6
    case Replacing(file, step) =>
      (if file.StateFile? then switch + 1 else switch - 4)
      + (match step case Creating => 4 case Writing => 3 case Syncing => 2 case Renaming => 1 case Dropping => 0)
    case MakingBinaries => switch + 1
    case Switching(link, step) => (if link.ActiveSymlink? then 2 else 0) + (if step.Linking? then 2 else 1)
    case MakingEmpty => 5
    case MakingJunction => 4
    case Inspecting(_) => 3
    case Removing(_, _) => 2
    case RenamingJunction => 1
    case Ended(_) => 0
  }

  lemma FewerCallsRemain(config: Config, s: Snapshot)
    requires !s.phase.Ended? && PlatformPhase(config, s.phase)
    requires CanFinish(config, s) && CanSucceed(config.windows, OperationOf(config, s.phase), s.disk)
    ensures Remaining(config, Success(config, s).phase) < Remaining(config, s.phase)
    ensures PlatformPhase(config, Success(config, s).phase)
  {
  }

  lemma {:induction false} FinishRun(config: Config, s: Snapshot) returns (run: seq<Snapshot>)
    requires CanFinish(config, s) && PlatformPhase(config, s.phase)
    ensures Completes(config, s, run)
    decreases Remaining(config, s.phase)
  {
    if s.phase.Ended? {
      run := [s];
    } else {
      FinishingGoesOn(config, s);
      FewerCallsRemain(config, s);
      var rest := FinishRun(config, Success(config, s));
      run := [s] + rest;
      assert forall i :: 0 < i < |run| ==> run[i] == rest[i - 1];
    }
  }

  lemma {:induction false} CompletingRunCanFinish(config: Config, s: Snapshot, run: seq<Snapshot>)
    requires Completes(config, s, run)
    ensures CanFinish(config, s)
    decreases |run|
  {
    if |run| > 1 {
      assert SucceedsTo(config, run[1 - 1], run[1]);
      var rest := run[1..];
      forall i | 0 < i < |rest|
        ensures SucceedsTo(config, rest[i - 1], rest[i])
      {
        assert SucceedsTo(config, run[i + 1 - 1], run[i + 1]);
      }
      CompletingRunCanFinish(config, run[1], rest);
      FinishingGoesOn(config, s);
    }
  }

  lemma StartCanFinish(config: Config, disk: Disk)
    ensures CanFinish(config, Snapshot(Start(config), disk)) <==>
              CanActivate(config) && IsUnblocked(config.windows, disk) && HasFreeNames(config, disk)
  {
    assert HasFreeNames(config, disk) <==> IsFree(config, disk, 0) && IsFree(config, disk, 1) && IsFree(config, disk, 2);
  }

  /**
   * A run in which no call fails completes exactly for a state and root that can be activated, on an
   * unblocked disk with the run's names free.
   */
  lemma CompletesExactlyWhenUnblocked(config: Config, disk: Disk)
    ensures (exists run :: Completes(config, Snapshot(Start(config), disk), run)) <==>
            CanActivate(config) && IsUnblocked(config.windows, disk) && HasFreeNames(config, disk)
  {
    var s := Snapshot(Start(config), disk);
    StartCanFinish(config, disk);
    if run :| Completes(config, s, run) {
      CompletingRunCanFinish(config, s, run);
    }
    if CanFinish(config, s) {
      var _ := FinishRun(config, s);
    }
  }
}
