/**
 * Activations one after the other, each completed, failed, or cut off at any call by a kill or a
 * power failure (crates/installer/src/active.rs:119-277).
 */
module ActivationHistory {
  import opened Wrappers
  import opened ActiveState
  import opened Activation
  import opened ActivationSafety
  import opened ActivationCompletion

  /** The place is as it was at call `j` of activation `m`, but for lost data. */
  ghost predicate ComesFrom(runs: seq<seq<Snapshot>>, n: nat, after: Disk, place: Place, m: nat, j: nat)
    requires n <= |runs|
  {
    m < n && j < |runs[m]| && SurvivesAt(runs[m][j].disk, after, place)
  }

  ghost predicate ComesFromEarlier(runs: seq<seq<Snapshot>>, n: nat, after: Disk, place: Place)
    requires n <= |runs|
  {
    exists m: nat, j: nat :: ComesFrom(runs, n, after, place, m, j)
  }

  /**
   * What a disk may hold after a kill or a power failure. Renames that were not flushed may be undone, so
   * each place may go back to what it was at another earlier call, and files that were not may lose data.
   */
  ghost predicate Outlasts(runs: seq<seq<Snapshot>>, n: nat, after: Disk)
    requires n <= |runs|
  {
    forall place :: ComesFromEarlier(runs, n, after, place)
  }

  /** A kill, and a power failure that undoes nothing, are the case of the last call for every place. */
  lemma GoingOnOutlasts(runs: seq<seq<Snapshot>>, n: nat, after: Disk)
    requires 0 < n <= |runs| && |runs[n - 1]| > 0
    requires Survives(runs[n - 1][|runs[n - 1]| - 1].disk, after)
    ensures Outlasts(runs, n, after)
  {
    forall place
      ensures ComesFromEarlier(runs, n, after, place)
    {
      assert ComesFrom(runs, n, after, place, n - 1, |runs[n - 1]| - 1);
    }
  }

  /** Activations on one machine, one at a time, from any disk. */
  ghost predicate IsHistory(windows: bool, configs: seq<Config>, runs: seq<seq<Snapshot>>) {
    && |configs| == |runs|
    && (forall n :: 0 <= n < |runs| ==> IsRun(configs[n], runs[n]) && configs[n].windows == windows)
    && (forall n: nat :: 0 < n < |runs| ==> Outlasts(runs, n, runs[n][0].disk))
  }

  /** Between activations `m` and `n` nothing was undone: they went on with what the one before left. */
  ghost predicate IsSteady(runs: seq<seq<Snapshot>>, m: nat, n: nat)
    requires n < |runs| && forall k :: 0 <= k < |runs| ==> |runs[k]| > 0
  {
    forall k: nat :: m < k <= n ==> GoesOn(runs, k)
  }

  ghost predicate GoesOn(runs: seq<seq<Snapshot>>, k: nat)
    requires 0 < k < |runs| && |runs[k - 1]| > 0 && |runs[k]| > 0
  {
    Survives(runs[k - 1][|runs[k - 1]| - 1].disk, runs[k][0].disk)
  }

  /** Call `j` of activation `m` is not after call `i` of activation `n`. */
  predicate NotAfter(m: nat, j: nat, n: nat, i: nat) {
    m < n || (m == n && j <= i)
  }

  /* The state file. */

  /** `active.json` is absent, or a whole valid state that is flushed. */
  ghost predicate IsWhole(disk: Disk) {
    ActiveFile in disk ==> HoldsState(disk[ActiveFile]) && disk[ActiveFile].flushed
  }

  /** Only a file that was never flushed can lose its data with the power. */
  lemma SurvivesWhole(before: Disk, after: Disk)
    ensures SurvivesAt(before, after, ActiveFile) && IsWhole(before) ==> IsWhole(after) && IsOld(before, after, ActiveFile)
    ensures SurvivesAt(before, after, ActiveLink) ==> LinkVersion(before) == LinkVersion(after)
  {
    assert ActiveFile in before && IsWhole(before) ==> !IsUnflushed(before[ActiveFile]);
  }

  lemma SurvivingIsThere(before: Disk, after: Disk)
    requires Survives(before, after)
    ensures SurvivesAt(before, after, ActiveFile) && SurvivesAt(before, after, ActiveLink)
  {
  }

  /**
   * At every call of every history, whatever is undone, `active.json` is a whole valid state or absent, if
   * it was so at first; if it was there at first it never disappears, and on POSIX neither does `active`.
   */
  lemma {:induction false} StateIsWhole(windows: bool, configs: seq<Config>, runs: seq<seq<Snapshot>>, n: nat, i: nat)
    requires IsHistory(windows, configs, runs) && n < |runs| && i < |runs[n]|
    ensures IsWhole(runs[0][0].disk) ==> IsWhole(runs[n][i].disk)
    ensures ActiveFile in runs[0][0].disk ==> ActiveFile in runs[n][i].disk
    ensures !windows && ActiveLink in runs[0][0].disk ==> ActiveLink in runs[n][i].disk
    decreases n
  {
    if n > 0 {
      assert ComesFromEarlier(runs, n, runs[n][0].disk, ActiveFile);
      var m: nat, j: nat :| ComesFrom(runs, n, runs[n][0].disk, ActiveFile, m, j);
      StateIsWhole(windows, configs, runs, m, j);
      SurvivesWhole(runs[m][j].disk, runs[n][0].disk);
      assert ComesFromEarlier(runs, n, runs[n][0].disk, ActiveLink);
      var a: nat, b: nat :| ComesFrom(runs, n, runs[n][0].disk, ActiveLink, a, b);
      StateIsWhole(windows, configs, runs, a, b);
    }
    RunKeepsInvariant(configs[n], runs[n], 0, i);
    InvariantKeepsWhole(configs[n], runs[n][0].disk, runs[n][i]);
  }

  /**
   * From any call on, as long as nothing is undone, a whole state stays one, a state file once there is
   * never absent, and on POSIX neither is `active`.
   */
  lemma {:induction false} StateIsWholeAndStays(
    windows: bool, configs: seq<Config>, runs: seq<seq<Snapshot>>, m: nat, j: nat, n: nat, i: nat)
    requires IsHistory(windows, configs, runs) && n < |runs| && i < |runs[n]|
    requires NotAfter(m, j, n, i) && j < |runs[m]| && IsSteady(runs, m, n)
    ensures IsWhole(runs[m][j].disk) ==> IsWhole(runs[n][i].disk)
    ensures ActiveFile in runs[m][j].disk ==> ActiveFile in runs[n][i].disk
    ensures !windows && ActiveLink in runs[m][j].disk ==> ActiveLink in runs[n][i].disk
    decreases n
  {
    if m == n {
      RunKeepsInvariant(configs[n], runs[n], j, i);
      InvariantKeepsWhole(configs[n], runs[n][j].disk, runs[n][i]);
    } else {
      var last := |runs[n - 1]| - 1;
      StateIsWholeAndStays(windows, configs, runs, m, j, n - 1, last);
      assert GoesOn(runs, n);
      SurvivingIsThere(runs[n - 1][last].disk, runs[n][0].disk);
      SurvivesWhole(runs[n - 1][last].disk, runs[n][0].disk);
      RunKeepsInvariant(configs[n], runs[n], 0, i);
      InvariantKeepsWhole(configs[n], runs[n][0].disk, runs[n][i]);
    }
  }

  lemma InvariantKeepsWhole(config: Config, before: Disk, s: Snapshot)
    requires Invariant(config, before, s)
    ensures IsWhole(before) ==> IsWhole(s.disk)
  {
    if IsValidState(config.state) {
      WrittenStateReadsBack(config.state);
    }
  }

  /* The link. */

  /** `active.json` names `version` at this call or named it at an earlier one. */
  ghost predicate WasNamed(runs: seq<seq<Snapshot>>, n: nat, i: nat, version: string)
    requires n < |runs|
  {
    exists m: nat, j: nat :: NotAfter(m, j, n, i) && j < |runs[m]| && FileVersion(runs[m][j].disk) == Some(version)
  }

  lemma LinkAgreesOrIsOld(config: Config, before: Disk, s: Snapshot)
    requires Invariant(config, before, s) && LinkVersion(s.disk).Some?
    ensures LinkVersion(s.disk) == FileVersion(s.disk) || LinkVersion(s.disk) == LinkVersion(before)
  {
    if IsValidState(config.state) {
      NewPlacesNameVersion(config, s.disk);
    }
  }

  lemma NamedBefore(runs: seq<seq<Snapshot>>, m: nat, j: nat, n: nat, i: nat, version: string)
    requires m < |runs| && n < |runs| && NotAfter(m, j, n, i) && WasNamed(runs, m, j, version)
    ensures WasNamed(runs, n, i, version)
  {
    var a: nat, b: nat :| NotAfter(a, b, m, j) && b < |runs[a]| && FileVersion(runs[a][b].disk) == Some(version);
    assert NotAfter(a, b, n, i);
  }

  /** The link is never ahead of the file, whatever is undone, from any disk on which it is not. */
  lemma {:induction false} LinkIsNeverAhead(
    windows: bool, configs: seq<Config>, runs: seq<seq<Snapshot>>, n: nat, i: nat)
    requires IsHistory(windows, configs, runs) && n < |runs| && i < |runs[n]|
    requires LinkVersion(runs[0][0].disk).Some? ==> FileVersion(runs[0][0].disk) == LinkVersion(runs[0][0].disk)
    ensures LinkVersion(runs[n][i].disk).Some? ==> WasNamed(runs, n, i, LinkVersion(runs[n][i].disk).value)
    decreases n
  {
    if LinkVersion(runs[n][i].disk).Some? {
      var version := LinkVersion(runs[n][i].disk).value;
      RunKeepsInvariant(configs[n], runs[n], 0, i);
      LinkAgreesOrIsOld(configs[n], runs[n][0].disk, runs[n][i]);
      if FileVersion(runs[n][i].disk) == Some(version) {
        assert NotAfter(n, i, n, i);
      } else if n == 0 {
        assert NotAfter(0, 0, n, i);
      } else {
        assert ComesFromEarlier(runs, n, runs[n][0].disk, ActiveLink);
        var m: nat, j: nat :| ComesFrom(runs, n, runs[n][0].disk, ActiveLink, m, j);
        SurvivesWhole(runs[m][j].disk, runs[n][0].disk);
        LinkIsNeverAhead(windows, configs, runs, m, j);
        NamedBefore(runs, m, j, n, i, version);
      }
    }
  }

  /* Windows: when the link is missing. */

  ghost predicate RemovesOldJunction(s: Snapshot, t: Snapshot) {
    && s.phase.Removing? && s.phase.removal.OldJunction?
    && ActiveLink in s.disk && ActiveLink !in t.disk
    && t.phase.RenamingJunction?
  }

  lemma OnlyRemovalLosesLink(config: Config, s: Snapshot, t: Snapshot)
    requires Step(config, s, t) && ActiveLink in s.disk && ActiveLink !in t.disk
    ensures RemovesOldJunction(s, t)
  {
    var reply :| StepBy(config, s, reply, t);
  }

  /** From call `l + 1` of activation `q` up to call `i` of activation `n` nothing is in the link's place. */
  ghost predicate IsMissingSince(runs: seq<seq<Snapshot>>, q: nat, l: nat, n: nat, i: nat) {
    forall a: nat, b: nat :: NotAfter(q, l + 1, a, b) && NotAfter(a, b, n, i) && a < |runs| && b < |runs[a]| ==>
      ActiveLink !in runs[a][b].disk
  }

  /** Call `l` of activation `q`, not before call `j` of `m`, removed the old junction; nothing came after. */
  ghost predicate WasRemovedAt(runs: seq<seq<Snapshot>>, m: nat, j: nat, q: nat, l: nat, n: nat, i: nat) {
    && NotAfter(m, j, q, l) && NotAfter(q, l + 1, n, i)
    && q < |runs| && l + 1 < |runs[q]|
    && RemovesOldJunction(runs[q][l], runs[q][l + 1])
    && IsMissingSince(runs, q, l, n, i)
  }

  /**
   * As long as nothing is undone, a link that was there is missing only on Windows, since a call that
   * removed the old junction, by an activation that was then cut off, failed, or has not yet renamed the
   * new one into its place; so a junction that could not be created leaves the old one alone.
   */
  lemma {:induction false} LinkIsMissingOnlyBetween(
    windows: bool, configs: seq<Config>, runs: seq<seq<Snapshot>>, m: nat, j: nat, n: nat, i: nat)
    requires IsHistory(windows, configs, runs) && n < |runs| && i < |runs[n]|
    requires NotAfter(m, j, n, i) && j < |runs[m]| && IsSteady(runs, m, n)
    requires ActiveLink in runs[m][j].disk && ActiveLink !in runs[n][i].disk
    ensures windows
    ensures exists q: nat, l: nat :: WasRemovedAt(runs, m, j, q, l, n, i)
    decreases n, i
  {
    var a, b := Before(runs, n, i);
    if a == n {
      assert Step(configs[n], runs[n][i - 1], runs[n][i]);
    } else {
      assert GoesOn(runs, n);
      SurvivingIsThere(runs[n - 1][b].disk, runs[n][0].disk);
    }
    if ActiveLink in runs[a][b].disk {
      OnlyRemovalLosesLink(configs[n], runs[n][i - 1], runs[n][i]);
      RunKeepsInvariant(configs[n], runs[n], 0, i - 1);
      assert WasRemovedAt(runs, m, j, n, i - 1, n, i);
    } else {
      LinkIsMissingOnlyBetween(windows, configs, runs, m, j, a, b);
      var q: nat, l: nat :| WasRemovedAt(runs, m, j, q, l, a, b);
      assert WasRemovedAt(runs, m, j, q, l, n, i);
    }
  }

  /** The call before call `i` of activation `n`. */
  lemma Before(runs: seq<seq<Snapshot>>, n: nat, i: nat) returns (a: nat, b: nat)
    requires n < |runs| && i < |runs[n]| && (n > 0 || i > 0)
    requires n > 0 ==> |runs[n - 1]| > 0
    ensures a < |runs| && b < |runs[a]|
    ensures (a == n && b == i - 1) || (i == 0 && a == n - 1 && b == |runs[a]| - 1)
    ensures forall c: nat, d: nat :: c < |runs| && d < |runs[c]| && NotAfter(c, d, n, i) ==>
              (c == n && d == i) || NotAfter(c, d, a, b)
  {
    if i > 0 {
      a, b := n, i - 1;
    } else {
      a, b := n - 1, |runs[n - 1]| - 1;
    }
  }

  /* Windows: a symlink to a file in the link's place. */

  ghost predicate HasFileSymlink(disk: Disk) {
    ActiveLink in disk && disk[ActiveLink].Symlink? && !disk[ActiveLink].directory
  }

  /** A run that never comes to rename its junction. */
  ghost predicate IsStuck(s: Snapshot) {
    && HasFileSymlink(s.disk)
    && !s.phase.RenamingJunction? && s.phase != Ended(Activated)
    && (s.phase.Removing? && s.phase.removal.OldJunction? ==> IsLinkNode(s.phase.node))
  }

  lemma StepStaysStuck(config: Config, s: Snapshot, t: Snapshot)
    requires config.windows && Step(config, s, t) && PlatformPhase(config, s.phase) && IsStuck(s)
    ensures IsStuck(t) && t.disk[ActiveLink] == s.disk[ActiveLink]
  {
    var reply :| StepBy(config, s, reply, t);
  }

  lemma {:induction false} RunStaysStuck(config: Config, run: seq<Snapshot>, i: nat)
    requires config.windows && IsRun(config, run) && i < |run| && HasFileSymlink(run[0].disk)
    ensures IsStuck(run[i]) && run[i].disk[ActiveLink] == run[0].disk[ActiveLink]
  {
    if i > 0 {
      RunStaysStuck(config, run, i - 1);
      RunKeepsInvariant(config, run, 0, i - 1);
      StepStaysStuck(config, run[i - 1], run[i]);
    }
  }

  /** No activation of any history on Windows removes a symlink to a file from the link's place, or completes. */
  lemma {:induction false} FileSymlinkIsNeverReplaced(
    configs: seq<Config>, runs: seq<seq<Snapshot>>, n: nat, i: nat)
    requires IsHistory(true, configs, runs) && n < |runs| && i < |runs[n]|
    requires HasFileSymlink(runs[0][0].disk)
    ensures HasFileSymlink(runs[n][i].disk) && runs[n][i].disk[ActiveLink] == runs[0][0].disk[ActiveLink]
    ensures runs[n][i].phase != Ended(Activated)
    decreases n
  {
    if n > 0 {
      assert ComesFromEarlier(runs, n, runs[n][0].disk, ActiveLink);
      var m: nat, j: nat :| ComesFrom(runs, n, runs[n][0].disk, ActiveLink, m, j);
      FileSymlinkIsNeverReplaced(configs, runs, m, j);
    }
    RunStaysStuck(configs[n], runs[n], i);
  }

  /* Running it again. */

  lemma StepKeepsDirectory(config: Config, s: Snapshot, t: Snapshot, place: Place)
    requires Step(config, s, t) && IsDirectoryOrFree(s.disk, place)
    requires place == InstallRoot || place == BinaryDirectory
    ensures IsDirectoryOrFree(t.disk, place)
  {
    var reply :| StepBy(config, s, reply, t);
  }

  lemma {:induction false} RunKeepsDirectory(config: Config, run: seq<Snapshot>, i: nat, place: Place)
    requires IsRun(config, run) && i < |run| && IsDirectoryOrFree(run[0].disk, place)
    requires place == InstallRoot || place == BinaryDirectory
    ensures IsDirectoryOrFree(run[i].disk, place)
  {
    if i > 0 {
      RunKeepsDirectory(config, run, i - 1, place);
      StepKeepsDirectory(config, run[i - 1], run[i], place);
    }
  }

  /** An activation blocks no other. */
  lemma RunKeepsUnblocked(config: Config, run: seq<Snapshot>, i: nat)
    requires IsRun(config, run) && i < |run| && IsUnblocked(config.windows, run[0].disk)
    ensures IsUnblocked(config.windows, run[i].disk)
  {
    RunKeepsDirectory(config, run, i, InstallRoot);
    RunKeepsDirectory(config, run, i, BinaryDirectory);
    EveryPlaceIsOldOrNew(config, run, i);
  }

  /** Being unblocked is a matter of each place on its own. */
  ghost predicate IsUnblockedAt(windows: bool, disk: Disk, place: Place) {
    match place
    case InstallRoot => IsDirectoryOrFree(disk, place)
    case BinaryDirectory => IsDirectoryOrFree(disk, place)
    case ActiveFile => IsReplaceable(windows, disk, place)
    case ActiveLink => if windows then IsRemovable(windows, disk, place) else IsReplaceable(windows, disk, place)
    case WindowsShim => windows ==> IsReplaceable(windows, disk, place)
    case PosixShim => !windows ==> IsReplaceable(windows, disk, place)
    case Temporary(_, _) => true
  }

  lemma UnblockedEverywhere(windows: bool, disk: Disk)
    ensures IsUnblocked(windows, disk) <==> forall place :: IsUnblockedAt(windows, disk, place)
  {
    if forall place :: IsUnblockedAt(windows, disk, place) {
      assert IsUnblockedAt(windows, disk, InstallRoot) && IsUnblockedAt(windows, disk, BinaryDirectory);
      assert IsUnblockedAt(windows, disk, ActiveFile) && IsUnblockedAt(windows, disk, ActiveLink);
      assert IsUnblockedAt(windows, disk, WindowsShim) && IsUnblockedAt(windows, disk, PosixShim);
    }
  }

  lemma UnblockedOutlasts(windows: bool, runs: seq<seq<Snapshot>>, n: nat, after: Disk)
    requires n <= |runs| && Outlasts(runs, n, after)
    requires forall m: nat, j: nat :: m < n && j < |runs[m]| ==> IsUnblocked(windows, runs[m][j].disk)
    ensures IsUnblocked(windows, after)
  {
    forall place
      ensures IsUnblockedAt(windows, after, place)
    {
      assert ComesFromEarlier(runs, n, after, place);
      var m: nat, j: nat :| ComesFrom(runs, n, after, place, m, j);
      UnblockedEverywhere(windows, runs[m][j].disk);
      assert IsUnblockedAt(windows, runs[m][j].disk, place);
    }
    UnblockedEverywhere(windows, after);
  }

  lemma {:induction false} HistoryKeepsUnblocked(
    windows: bool, configs: seq<Config>, runs: seq<seq<Snapshot>>, n: nat, i: nat)
    requires IsHistory(windows, configs, runs) && n < |runs| && i < |runs[n]|
    requires IsUnblocked(windows, runs[0][0].disk)
    ensures IsUnblocked(windows, runs[n][i].disk)
    decreases n
  {
    if n > 0 {
      forall m: nat, j: nat | m < n && j < |runs[m]|
        ensures IsUnblocked(windows, runs[m][j].disk)
      {
        HistoryKeepsUnblocked(windows, configs, runs, m, j);
      }
      UnblockedOutlasts(windows, runs, n, runs[n][0].disk);
    }
    RunKeepsUnblocked(configs[n], runs[n], i);
  }

  /**
   * From whatever completed, failed or cut-off activations left of an unblocked disk, on either
   * platform, running `activate` again reaches the same file, link and shim as an uninterrupted run:
   * a run in which no call fails completes, and every completed run agrees.
   */
  lemma ActivationCanBeRunAgain(
    windows: bool, configs: seq<Config>, runs: seq<seq<Snapshot>>, n: nat, i: nat, config: Config)
    requires IsHistory(windows, configs, runs) && n < |runs| && i < |runs[n]|
    requires IsUnblocked(windows, runs[0][0].disk)
    requires config.windows == windows && CanActivate(config) && HasFreeNames(config, runs[n][i].disk)
    ensures exists again :: Completes(config, Snapshot(Start(config), runs[n][i].disk), again) && IsRun(config, again)
    ensures forall again: seq<Snapshot> ::
              IsRun(config, again) && again[0].disk == runs[n][i].disk && again[|again| - 1].phase == Ended(Activated) ==>
                Agrees(config, again[|again| - 1].disk)
  {
    HistoryKeepsUnblocked(windows, configs, runs, n, i);
    CompletesExactlyWhenUnblocked(config, runs[n][i].disk);
    var completing :| Completes(config, Snapshot(Start(config), runs[n][i].disk), completing);
    CompletingRunIsRun(config, runs[n][i].disk, completing);
    forall again: seq<Snapshot> |
      IsRun(config, again) && again[0].disk == runs[n][i].disk && again[|again| - 1].phase == Ended(Activated)
      ensures Agrees(config, again[|again| - 1].disk)
    {
      CompletedActivationAgrees(config, again);
    }
  }
}
