/** Upgrade receipts: an outcome as flat fields (crates/installer/src/contract.rs:216-597). */
module Receipts {
  import opened Wrappers
  import opened RequestId

  const RECEIPT_SCHEMA_VERSION := 1
  const INSTALLER_RECEIPT_PROTOCOL := "coforge-installer/v1"
  const EXIT_SUCCEEDED := 0
  const EXIT_FAILED := 1
  const EXIT_HELD := 2
  const EXIT_UNRESOLVED := 3
  const ERROR_CODE_ROLLED_BACK := "UPGRADE_ROLLED_BACK"
  const ERROR_CODE_ROLLBACK_FAILED := "UPGRADE_ROLLBACK_FAILED"

  datatype Status = StatusSucceeded | StatusFailed | StatusHeld

  datatype Outcome =
    | Succeeded(version: string)
    | Failed(error: string, errorCode: Option<string>)
    | RolledBack(error: string, restoredVersion: string)
    | Held(error: string, errorCode: Option<string>)
    | Unresolved(error: string, rollbackFailed: bool)

  datatype DeadProcess = DeadProcess(pid: nat, startedAt: string, executable: string) {
    predicate IsIdentified() {
      pid > 0 && startedAt != "" && executable != ""
    }
  }

  datatype Runtime = Runtime(bindingId: string, running: bool)

  datatype Fields = Fields(
    schemaVersion: nat,
    requestId: string,
    operation: string,
    status: Status,
    version: Option<string>,
    restoredVersion: Option<string>,
    error: Option<string>,
    errorCode: Option<string>,
    supervisorRunning: Option<bool>,
    runtimes: Option<seq<Runtime>>,
    deadProcesses: Option<seq<DeadProcess>>,
    protocol: string,
    exitCode: nat,
    installerVersion: string)

  predicate IsErrorCode(value: string) {
    && 3 <= |value| <= 64
    && 'A' <= value[0] <= 'Z'
    && forall i :: 1 <= i < |value| ==> 'A' <= value[i] <= 'Z' || '0' <= value[i] <= '9' || value[i] == '_'
  }

  predicate IsRollbackCode(code: Option<string>) {
    code == Some(ERROR_CODE_ROLLED_BACK) || code == Some(ERROR_CODE_ROLLBACK_FAILED)
  }

  /** The fields an outcome fixes: status, exit code, version, restored version, error, error code. */
  datatype Encoding = Encoding(
    status: Status,
    exitCode: nat,
    version: Option<string>,
    restoredVersion: Option<string>,
    error: Option<string>,
    errorCode: Option<string>)

  function Encode(outcome: Outcome): Encoding {
    match outcome
    case Succeeded(version) => Encoding(StatusSucceeded, EXIT_SUCCEEDED, Some(version), None, None, None)
    case Failed(error, errorCode) => Encoding(StatusFailed, EXIT_FAILED, None, None, Some(error), errorCode)
    case RolledBack(error, restoredVersion) =>
      Encoding(StatusFailed, EXIT_FAILED, None, Some(restoredVersion), Some(error), Some(ERROR_CODE_ROLLED_BACK))
    case Held(error, errorCode) => Encoding(StatusHeld, EXIT_HELD, None, None, Some(error), errorCode)
    case Unresolved(error, rollbackFailed) =>
      Encoding(
        StatusFailed, EXIT_UNRESOLVED, None, None, Some(error),
        if rollbackFailed then Some(ERROR_CODE_ROLLBACK_FAILED) else None)
  }

  /** The fields of the receipt an installer of `installerVersion` builds. */
  function Build(requestId: string, outcome: Outcome, dead: seq<DeadProcess>, installerVersion: string): Fields {
    var e := Encode(outcome);
    Fields(
      RECEIPT_SCHEMA_VERSION, requestId, "upgrade", e.status, e.version, e.restoredVersion, e.error, e.errorCode,
      None, None, if dead == [] then None else Some(dead), INSTALLER_RECEIPT_PROTOCOL, e.exitCode, installerVersion)
  }

  datatype Invalid =
    | WrongSchemaVersion
    | WrongOperation
    | WrongProtocol
    | NotAUuid
    | NotACode
    | WrongExitCode
    | WrongPairing
    | UnidentifiedProcess

  /** None when the pair of status and exit code is not one the table has. */
  function Paired(fields: Fields): Option<bool> {
    var code, restored := fields.errorCode, fields.restoredVersion;
    var hasReason := fields.error.Some? && fields.error.value != "";
    match fields.status
    case StatusSucceeded =>
      if fields.exitCode == EXIT_SUCCEEDED then Some(code.None? && restored.None?) else None
    case StatusHeld =>
      if fields.exitCode == EXIT_HELD then Some(hasReason && !IsRollbackCode(code) && restored.None?) else None
    case StatusFailed =>
      if fields.exitCode == EXIT_FAILED then
        if code == Some(ERROR_CODE_ROLLED_BACK) then Some(hasReason && restored.Some? && restored.value != "")
        else Some(hasReason && !IsRollbackCode(code) && restored.None?)
      else if fields.exitCode == EXIT_UNRESOLVED then
        Some(hasReason && (code.None? || code == Some(ERROR_CODE_ROLLBACK_FAILED)) && restored.None?)
      else None
  }

  /** The first rule a record breaks, in the order they are checked. */
  function Validate(fields: Fields): Option<Invalid> {
    if fields.schemaVersion != RECEIPT_SCHEMA_VERSION then Some(WrongSchemaVersion)
    else if fields.operation != "upgrade" then Some(WrongOperation)
    else if fields.protocol != INSTALLER_RECEIPT_PROTOCOL then Some(WrongProtocol)
    else if !IsRequestId(fields.requestId) then Some(NotAUuid)
    else if fields.errorCode.Some? && !IsErrorCode(fields.errorCode.value) then Some(NotACode)
    else if Paired(fields).None? then Some(WrongExitCode)
    else if !Paired(fields).value then Some(WrongPairing)
    else if fields.deadProcesses.Some? &&
            (fields.deadProcesses.value == []
             || exists p :: p in fields.deadProcesses.value && !p.IsIdentified()) then Some(UnidentifiedProcess)
    else None
  }

  function New(requestId: string, outcome: Outcome, dead: seq<DeadProcess>, installerVersion: string)
    : Result<Fields, Invalid>
  {
    var fields := Build(requestId, outcome, dead, installerVersion);
    var invalid := Validate(fields);
    if invalid.Some? then Err(invalid.value) else Ok(fields)
  }

  function WithRuntimes(receipt: Fields, supervisorRunning: bool, runtimes: seq<Runtime>): Fields {
    receipt.(supervisorRunning := Some(supervisorRunning), runtimes := Some(runtimes))
  }

  /* Reading an outcome back. */

  function Decode(fields: Fields): Option<Outcome> {
    match fields.status
    case StatusSucceeded => if fields.version.Some? then Some(Succeeded(fields.version.value)) else None
    case StatusHeld => if fields.error.Some? then Some(Held(fields.error.value, fields.errorCode)) else None
    case StatusFailed =>
      if fields.error.None? then None
      else if fields.exitCode == EXIT_UNRESOLVED then Some(Unresolved(fields.error.value, fields.errorCode.Some?))
      else if fields.restoredVersion.Some? then Some(RolledBack(fields.error.value, fields.restoredVersion.value))
      else Some(Failed(fields.error.value, fields.errorCode))
  }

  function DeadOf(fields: Fields): seq<DeadProcess> {
    if fields.deadProcesses.Some? then fields.deadProcesses.value else []
  }

  /** The outcome and the dead processes can be read back from every receipt, with or without runtimes. */
  lemma NewHasLeftInverse(
    requestId: string, outcome: Outcome, dead: seq<DeadProcess>, installerVersion: string,
    supervisorRunning: bool, runtimes: seq<Runtime>)
    requires New(requestId, outcome, dead, installerVersion).Ok?
    ensures
      var receipt := New(requestId, outcome, dead, installerVersion).value;
      var extended := WithRuntimes(receipt, supervisorRunning, runtimes);
      && receipt.requestId == requestId
      && Decode(receipt) == Decode(extended) == Some(outcome)
      && DeadOf(receipt) == DeadOf(extended) == dead
      && Validate(extended) == None
  {
  }

  /* Which inputs make a receipt. */

  /** A reason that is not empty, a code of the right shape that is not a rollback's. */
  ghost predicate IsWellFormed(outcome: Outcome) {
    match outcome
    case Succeeded(_) => true
    case Failed(error, code) => error != "" && IsPlainCode(code)
    case Held(error, code) => error != "" && IsPlainCode(code)
    case RolledBack(error, restoredVersion) => error != "" && restoredVersion != ""
    case Unresolved(error, _) => error != ""
  }

  ghost predicate IsPlainCode(code: Option<string>) {
    code.Some? ==> IsErrorCode(code.value) && !IsRollbackCode(code)
  }

  lemma RollbackCodesAreCodes()
    ensures IsErrorCode(ERROR_CODE_ROLLED_BACK) && IsErrorCode(ERROR_CODE_ROLLBACK_FAILED)
    ensures ERROR_CODE_ROLLED_BACK != ERROR_CODE_ROLLBACK_FAILED
  {
    assert ERROR_CODE_ROLLED_BACK[13] != ERROR_CODE_ROLLBACK_FAILED[13];
  }

  /** A receipt is made exactly of a UUID, a well-formed outcome and identified processes. */
  lemma NewAcceptsWellFormed(requestId: string, outcome: Outcome, dead: seq<DeadProcess>, installerVersion: string)
    ensures New(requestId, outcome, dead, installerVersion).Ok? <==>
              && IsUuid(requestId)
              && IsWellFormed(outcome)
              && forall p :: p in dead ==> p.IsIdentified()
  {
    RollbackCodesAreCodes();
    RequestIdsAreUuids(requestId);
  }

  /* Which records are receipts of an outcome. */

  /** The record without what `Validate` leaves free on a failed or held one. */
  function Core(fields: Fields, installerVersion: string): Fields {
    fields.(version := None, supervisorRunning := None, runtimes := None, installerVersion := installerVersion)
  }

  ghost predicate IsReceiptOf(fields: Fields, outcome: Outcome, installerVersion: string) {
    New(fields.requestId, outcome, DeadOf(fields), installerVersion) == Ok(Core(fields, installerVersion))
  }

  /** Every failed or held record that is accepted is the receipt of exactly one outcome. */
  lemma AcceptedRecordHasOneOutcome(fields: Fields, installerVersion: string)
    requires Validate(fields) == None && !fields.status.StatusSucceeded?
    ensures Decode(fields).Some? && IsReceiptOf(fields, Decode(fields).value, installerVersion)
    ensures forall outcome :: IsReceiptOf(fields, outcome, installerVersion) <==> Some(outcome) == Decode(fields)
  {
    RollbackCodesAreCodes();
    forall outcome | IsReceiptOf(fields, outcome, installerVersion)
      ensures Some(outcome) == Decode(fields)
    {
      NewHasLeftInverse(fields.requestId, outcome, DeadOf(fields), installerVersion, false, []);
      assert Decode(Core(fields, installerVersion)) == Decode(fields);
    }
  }

  /** An accepted succeeded record need not name a version and may carry an error. */
  lemma SucceededRecordOfNoOutcome(fields: Fields, installerVersion: string)
    requires Validate(fields) == None && fields.status.StatusSucceeded?
    ensures
      var bare := fields.(supervisorRunning := None, runtimes := None, installerVersion := installerVersion);
      (exists outcome :: New(fields.requestId, outcome, DeadOf(fields), installerVersion) == Ok(bare)) <==>
      fields.version.Some? && fields.error.None?
  {
    var bare := fields.(supervisorRunning := None, runtimes := None, installerVersion := installerVersion);
    if fields.version.Some? && fields.error.None? {
      assert New(fields.requestId, Succeeded(fields.version.value), DeadOf(fields), installerVersion) == Ok(bare);
    }
  }

  /** Such a record: accepted with an error and without a version, and the receipt of no outcome. */
  lemma SucceededWithoutVersion(requestId: string, installerVersion: string) returns (fields: Fields)
    requires IsUuid(requestId)
    ensures Validate(fields) == None && fields.status.StatusSucceeded?
    ensures fields.version == None && fields.error == Some("disk full")
    ensures forall outcome :: New(requestId, outcome, [], installerVersion) != Ok(fields)
  {
    fields := Fields(
      RECEIPT_SCHEMA_VERSION, requestId, "upgrade", StatusSucceeded, None, None, Some("disk full"), None,
      None, None, None, INSTALLER_RECEIPT_PROTOCOL, EXIT_SUCCEEDED, installerVersion);
    RequestIdsAreUuids(requestId);
    forall outcome
      ensures New(requestId, outcome, [], installerVersion) != Ok(fields)
    {
      assert Build(requestId, outcome, [], installerVersion) != fields;
    }
  }
}
