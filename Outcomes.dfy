/** Optional values (the source's nullable references) and results (its thrown exceptions). */
module Outcomes {

  /** A value that may be absent: `None` stands for a C# `null`. */
  datatype Option<+T> = None | Some(value: T)

  /** Either a value or the error the source would have thrown instead. */
  datatype Result<+T, +E> = Ok(value: T) | Err(error: E)
}
