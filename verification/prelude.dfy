/** Shared vocabulary of the Trimless model: an optional value (the
    source's `null`), and the time constants the content script and the
    options page use. Time is integer milliseconds throughout. */
module Prelude {

  /** A value that may be absent; `None` stands for JavaScript's `null`
      or `undefined`. */
  datatype Option<+T> = None | Some(value: T) {

    /** The wrapped value, or `default` when there is none. */
    function GetOr(default: T): T {
      match this
      case Some(v) => v
      case None => default
    }
  }

  /** Milliseconds in one day: `1000 * 60 * 60 * 24`. */
  const DayMs: int := 1000 * 60 * 60 * 24

  /** Length of the free trial: seven days, `604800000` ms. */
  const TrialMs: int := 7 * DayMs

  /** A calendar-day key, the local `Date.toDateString()` of some instant.
      The model never looks inside it: two instants are on the same day
      exactly when their keys are equal. */
  type DayKey = string
}
