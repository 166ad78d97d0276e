/** The Python exceptions the modelled code raises, and a result type that
    carries either a value or the exception raised instead. */
module Exceptions {

  /** The `assert` statements of the source, one constructor per statement. */
  datatype AssertionReason =
    | NoConfig                      // no cutotune config is passed
    | ConfigKeysMismatch            // configs do not share one parameter-name set
    | UnexpectedTriggerVariable     // a trigger names no positional parameter
    | TriggerOnTunable              // a trigger names a tunable parameter
    | MarkerWhileDisabled           // a marker is passed while tuning is disabled
    | InvalidMarkerCount            // markers for some but not all tunables
    | TriggerCount                  // `len(triggers) == 1` fails while building a key
    | FunctionalTriggerOnNonTensor  // an accessor trigger on a non-tensor argument
    | NoBestConfig                  // no config is applicable to the call
    | CacheNotCreated               // save requested before the cache exists

  datatype Exception =
    | AssertionError(reason: AssertionReason)
    | ValueError
    | IndexError
    | TypeError
    | UnboundLocalError
    | NotImplementedError
    | ZeroDivisionError

  datatype Result<+T> = Ok(value: T) | Raise(error: Exception)

  datatype Option<+T> = None | Some(value: T)
}
