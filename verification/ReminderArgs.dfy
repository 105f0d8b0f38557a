/**
 * Parsing `coforge reminder` arguments (packages/coforge/index.ts:1967-2121).
 *
 * Every way to be refused is the same None here. Reading numbers, durations and UUIDs, and the wire
 * format's own checks, are given as functions.
 */
module ReminderArgs {
  import opened Wrappers
  import opened Text

  datatype Field =
    | ReminderId | Title | Target | MessageId | DelaySeconds | FireAt | Repeat | Timezone | Status | Revision | All

  datatype Value = Words(text: string) | Number(n: nat) | True

  type Request = map<Field, Value>

  datatype Readers = Readers(
    positiveInteger: string -> Option<nat>,
    duration: string -> Option<nat>,
    isUuid: string -> bool,
    isIdPrefix: string -> bool,
    wireAccepts: (string, Request) -> bool)

  const DEFAULT_REMINDER_TIMEZONE := "Asia/Shanghai"
  const PROBE_ID := "12345678-1234-4123-8123-123456789abc"

  /** The flags that take a value, aliases included. */
  const FIELDS: map<string, Field> := map[
    "--id" := ReminderId,
    "--title" := Title,
    "--target" := Target,
    "--channel" := Target,
    "--message-id" := MessageId,
    "--msg-id" := MessageId,
    "--delay-seconds" := DelaySeconds,
    "--by" := DelaySeconds,
    "--in" := DelaySeconds,
    "--fire-at" := FireAt,
    "--repeat" := Repeat,
    "--cadence" := Repeat,
    "--tz" := Timezone,
    "--status" := Status,
    "--revision" := Revision]

  lemma FlagsHaveDashes()
    ensures forall flag :: flag in FIELDS ==> StartsWith(flag, "--")
    ensures "--all" !in FIELDS
    ensures forall flag :: flag in FIELDS ==> FIELDS[flag] != All
  {
  }

  function ReadValue(readers: Readers, flag: string, value: string): Option<Value> {
    if flag == "--by" || flag == "--in" then NumberOf(readers.duration(value))
    else if flag == "--delay-seconds" then
      NumberOf(if readers.positiveInteger(value).Some? then readers.positiveInteger(value) else readers.duration(value))
    else if flag == "--revision" then NumberOf(readers.positiveInteger(value))
    else Some(Words(value))
  }

  function NumberOf(n: Option<nat>): Option<Value> {
    if n.Some? then Some(Number(n.value)) else None
  }

  /** The flags of a command: the field each sets, and how its value is read. */
  datatype Flags = Flags(names: map<string, Field>, read: (string, string) -> Option<Value>)

  function ReminderFlags(readers: Readers): Flags {
    Flags(FIELDS, (flag, value) => ReadValue(readers, flag, value))
  }

  /** `--all` sets its field alone, and no value can be taken for a flag. */
  ghost predicate AreDashed(flags: Flags) {
    && "--all" !in flags.names
    && forall flag :: flag in flags.names ==> StartsWith(flag, "--") && flags.names[flag] != All
  }

  lemma ReminderFlagsAreDashed(readers: Readers)
    ensures AreDashed(ReminderFlags(readers))
  {
    FlagsHaveDashes();
  }

  /* The loop over the arguments. */

  datatype State = State(request: Request, seen: set<string>, flagForField: map<Field, string>)

  const NOTHING := State(map[], {}, map[])

  function Loop(flags: Flags, args: seq<string>, s: State): Option<State> {
    if args == [] then Some(s)
    else
      var flag := args[0];
      if flag in s.seen then None
      else if flag == "--all" then
        Loop(flags, args[1..], State(s.request[All := True], s.seen + {flag}, s.flagForField))
      else if flag !in flags.names || |args| < 2 || StartsWith(args[1], "--") then None
      else
        var field := flags.names[flag];
        var value := flags.read(flag, args[1]);
        if value.None? || (field in s.flagForField && s.flagForField[field] != flag) then None
        else
          Loop(flags, args[2..],
               State(s.request[field := value.value], s.seen + {flag}, s.flagForField[field := flag]))
  }

  /* What is checked after the loop. */

  predicate IsTruthy(request: Request, field: Field) {
    field in request && request[field] != Words("")
  }

  function AllowedFields(operation: string): set<Field> {
    match operation
    case "schedule" => {Title, Target, MessageId, DelaySeconds, FireAt, Repeat, Timezone}
    case "list" => {All, Status}
    case "update" => {ReminderId, Title, FireAt, DelaySeconds, Repeat, Timezone}
    case "snooze" => {ReminderId, DelaySeconds, FireAt}
    case "cancel" => {ReminderId}
    case "log" => {ReminderId}
    case "ack" => {ReminderId, Revision}
    case "dismiss" => {ReminderId, Revision}
    case _ => {}
  }

  predicate IsOperation(operation: string) {
    operation in {"schedule", "list", "update", "snooze", "cancel", "log", "ack", "dismiss"}
  }

  function Count(condition: bool): nat {
    if condition then 1 else 0
  }

  predicate HasValidShape(readers: Readers, operation: string, request: Request) {
    var timed := Count(DelaySeconds in request) + Count(FireAt in request);
    var hasId := IsTruthy(request, ReminderId);
    && request.Keys <= AllowedFields(operation)
    && (ReminderId in request && request[ReminderId].Words? ==>
          readers.isUuid(request[ReminderId].text) || readers.isIdPrefix(request[ReminderId].text))
    && (operation == "schedule" ==>
          && IsTruthy(request, Title) && IsTruthy(request, Target) && IsTruthy(request, MessageId)
          && timed <= 1
          && (IsTruthy(request, Repeat) || timed == 1)
          && !(Repeat in request && request[Repeat] == Words("none")))
    && (operation == "list" ==> !(All in request && Status in request))
    && (operation in {"cancel", "log"} ==> hasId)
    && (operation == "snooze" ==> hasId && timed == 1)
    && (operation == "update" ==>
          && hasId && timed <= 1
          && Count(timed == 1) + Count(Repeat in request) + Count(Title in request) == 1
          && (Timezone in request ==> Repeat in request))
    && (operation in {"ack", "dismiss"} ==> hasId && IsTruthy(request, Revision))
  }

  /** A repeating reminder without a timezone takes the default one. */
  function WithTimezone(request: Request): Request {
    if Repeat in request && request[Repeat] != Words("none") && Timezone !in request then
      request[Timezone := Words(DEFAULT_REMINDER_TIMEZONE)]
    else request
  }

  /** The request the wire format checks: an id prefix is replaced by a throwaway UUID. */
  function Probed(readers: Readers, request: Request): Request {
    if ReminderId in request && request[ReminderId].Words? && !readers.isUuid(request[ReminderId].text) then
      request[ReminderId := Words(PROBE_ID)]
    else request
  }

  function Finish(readers: Readers, operation: string, parsed: Request): Option<Request> {
    var request := WithTimezone(parsed);
    if HasValidShape(readers, operation, request) && readers.wireAccepts(operation, Probed(readers, request)) then
      Some(request)
    else None
  }

  /** The accepted request, whose operation is the first argument. */
  function Parse(readers: Readers, args: seq<string>): Option<Request> {
    if args == [] || !IsOperation(args[0]) then None
    else
      var s := Loop(ReminderFlags(readers), args[1..], NOTHING);
      if s.None? then None else Finish(readers, args[0], s.value.request)
  }

  /** The parser: a loop with an index, a request and two tables of what it has seen. */
  method ParseReminderArgs(readers: Readers, args: seq<string>) returns (result: Option<Request>)
    ensures result == Parse(readers, args)
  {
    if args == [] || !IsOperation(args[0]) {
      return None;
    }
    var s := NOTHING;
    var index := 1;
    while index < |args|
      invariant 1 <= index <= |args|
      invariant Loop(ReminderFlags(readers), args[1..], NOTHING) == Loop(ReminderFlags(readers), args[index..], s)
    {
      var flag := args[index];
      if flag in s.seen {
        return None;
      }
      if flag == "--all" {
        s := State(s.request[All := True], s.seen + {flag}, s.flagForField);
        assert args[index..][1..] == args[index + 1..];
        index := index + 1;
        continue;
      }
      if flag !in FIELDS || index + 1 >= |args| || StartsWith(args[index + 1], "--") {
        return None;
      }
      var field := FIELDS[flag];
      var value := ReadValue(readers, flag, args[index + 1]);
      if value.None? || (field in s.flagForField && s.flagForField[field] != flag) {
        return None;
      }
      s := State(s.request[field := value.value], s.seen + {flag}, s.flagForField[field := flag]);
      assert args[index..][2..] == args[index + 2..];
      index := index + 2;
    }
    assert args[index..] == [];
    result := Finish(readers, args[0], s.request);
  }
}
