/** The value that is there or is not, and the result that is an error instead. */
module Wrappers {
  /** SQL NULL and Python None. */
  datatype Option<+T> = None | Some(value: T) {
    /** SQL COALESCE(this, other). */
    function Coalesce(other: Option<T>): Option<T> {
      if Some? then this else other
    }
  }

  datatype Result<+T, +E> = Ok(value: T) | Err(error: E)
}
