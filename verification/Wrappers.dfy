/** Values that may be absent, results that may be an error, and text that is not blank. */
module Wrappers {

  datatype Option<+T> = None | Some(value: T)

  datatype Result<+T, +E> = Ok(value: T) | Err(error: E)

  predicate NonBlank(text: string) {
    exists i :: 0 <= i < |text| && text[i] !in " \t\n\r"
  }
}
