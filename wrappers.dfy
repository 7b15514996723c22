/** Optional values and results: Python's `None` and raised exceptions, as values. */
module Wrappers {

  /** `None` or a present value, as Python's `Optional[...]`. */
  datatype Option<+T> = None | Some(value: T)

  /** A value, or the error the source would raise instead of returning. */
  datatype Result<+T, +E> = Ok(value: T) | Err(error: E)
}

/** The `ValueError`s the matching core raises, one constructor per raising site. */
module Errors {
  import opened Wrappers

  datatype Error =
    | InvalidCompanyName(name: Option<string>)   // a registry name that normalises to nothing
    | InvalidDateFormat(text: string)    // a date in none of the three accepted formats
    | InvalidLiteral(text: string)       // `int(...)` of text that is not a decimal integer
}
