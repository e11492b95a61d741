/** Shared result shapes: an optional value, and a Python call that either
    returns a value or lets an exception escape to its caller. */
module Outcomes {

  datatype Option<T> = None | Some(value: T)

  /** The exceptions that can escape `process_files` and end the run. */
  datatype Exc =
    | HttpRaised(status: int)   // an `HTTPError` other than 429, re-raised by the retry loop
    | TrackingUnreadable        // the tracking file exists but cannot be read or decoded

  /** A call that returns normally with a value, or raises. */
  datatype Raisable<T> = Returned(value: T) | Raised(exc: Exc)
}
