/** Failure-carrying results shared by every module of the model.
    Python exceptions raised by the modelled code become `Err` values of `Error`. */
module Wrappers {

  datatype Option<+T> = None | Some(value: T)

  /** The exception classes the modelled code can raise (or let escape). */
  datatype Error =
    | ValueError          // mutation of a read-only DB; a malformed ISO date string
    | TypeError           // getattr with a None attribute name; bad keyword arguments; fromisoformat(None)
    | AttributeError      // attribute lookup on an object that lacks it
    | KeyError            // dict lookup of a missing key; cache miss
    | NameError           // a registered key name that is not a field
    | UnboundLocalError   // a local variable read before assignment
    | OperationalError    // sqlite3: no such table, SQL syntax error
    | IntegrityError      // sqlite3: primary-key collision, datatype mismatch
    | ProgrammingError    // sqlite3: number of bindings differs from placeholders
    | HttpError           // failure of the wrapped fetch, propagated unchanged

  datatype Result<+T> = Ok(value: T) | Err(error: Error) {
    predicate IsFailure() { Err? }

    function PropagateFailure<U>(): Result<U>
      requires Err?
    {
      Err(error)
    }

    function Extract(): T
      requires Ok?
    {
      value
    }
  }

  datatype Outcome = Pass | Fail(error: Error)
}
