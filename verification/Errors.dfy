/** Failure codes of the management API (app/errors.py), as far as the model uses them. */
module Errors {

  datatype ErrorCode =
    | ValidationError
    | LimitExceeded
    | NameOutOfZone
    | ZoneNotFound
    | ZoneAlreadyExists
    | VersionConflict
    | IdempotencyConflict
    | SerialInvalid
    | SerialUndecidable
    | ZoneInvalid
    | ChangesetInvalid
    | KeyNotFound
    | KeyStateInvalid
    | Internal

  /** The publish outcomes that the idempotency ledger records. */
  predicate Ledgerable(code: ErrorCode) {
    code in {VersionConflict, SerialInvalid, SerialUndecidable, ZoneInvalid, ChangesetInvalid, LimitExceeded}
  }
}
