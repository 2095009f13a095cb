/** Small failure-carrying datatypes shared by the other modules. */
module Wrappers {

  datatype Option<+T> = None | Some(value: T)

  /** The outcome of a step that either yields a value or fails with the
      text of the exception the ingestion code would record (`str(e)`). */
  datatype Result<+T> = Ok(value: T) | Err(reason: string) {
    function ToOption(): Option<T> {
      match this
      case Ok(v) => Some(v)
      case Err(_) => None
    }
  }
}
