/** `active.json`: which version is active, as written and as read (crates/installer/src/active.rs). */
module ActiveState {
  import opened Wrappers
  import opened ReleaseVersion

  const ACTIVE_STATE_SCHEMA_VERSION := 1

  datatype ActiveState = ActiveState(schemaVersion: nat, current: string, previous: Option<string>)

  /** The JSON value of a field. */
  datatype Json = Null | Text(text: string) | Other

  /** Parsed file contents: anything that is not the schema, or its three fields. */
  datatype Document = Malformed | Stored(schemaVersion: nat, current: string, previous: Json)

  datatype ActiveError = Invalid | Io

  predicate IsValidState(state: ActiveState) {
    && state.schemaVersion == ACTIVE_STATE_SCHEMA_VERSION
    && IsValidReleaseVersion(state.current)
    && (state.previous.Some? ==> IsValidReleaseVersion(state.previous.value))
  }

  /** What a state is written as. */
  function Serialize(state: ActiveState): Document {
    Stored(state.schemaVersion, state.current, if state.previous.Some? then Text(state.previous.value) else Null)
  }

  /** What a file that could be read says. */
  function ReadDocument(document: Document): Result<ActiveState, ActiveError> {
    match document
    case Malformed => Err(Invalid)
    case Stored(schemaVersion, current, previous) =>
      if schemaVersion != ACTIVE_STATE_SCHEMA_VERSION || !IsValidReleaseVersion(current) then Err(Invalid)
      else
        var restorable :=
          if previous.Text? && IsValidReleaseVersion(previous.text) then Some(previous.text) else None;
        Ok(ActiveState(schemaVersion, current, restorable))
  }

  /** A state may be written exactly when it reads back as itself. */
  lemma WrittenStateReadsBack(state: ActiveState)
    ensures IsValidState(state) <==> ReadDocument(Serialize(state)) == Ok(state)
  {
  }

  /**
   * Whatever reads successfully may be written again, and writing it is stable: it reads back the
   * same. Only an unusable `previous` is dropped on the way.
   */
  lemma ReadStateIsWritable(document: Document)
    requires ReadDocument(document).Ok?
    ensures
      var state := ReadDocument(document).value;
      && IsValidState(state)
      && ReadDocument(Serialize(state)) == Ok(state)
      && state.current == document.current
      && (Serialize(state) == document <==>
            document.previous.Null? || (document.previous.Text? && IsValidReleaseVersion(document.previous.text)))
  {
    WrittenStateReadsBack(ReadDocument(document).value);
  }
}
