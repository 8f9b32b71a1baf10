/** Stored dates and the clock. */
module Dates {
  import opened Wrappers

  /**
   * A DATETIME column as `time.ParseInLocation(time.DateTime, …)` reads it:
   * a Unix time in seconds, or text that does not parse.
   */
  datatype Stamp = At(seconds: int) | Unparseable

  /** The error every failed date parse of the session gate returns. */
  const ParseError := AppError(500, "Error parsing date.")

  const Day: int := 24 * 60 * 60
}
