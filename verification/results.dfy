/** Failure-carrying outcomes shared by the decoders and the expansion engine. */
module Results {

  /** A value that may be missing (a parse that did not succeed, a walk that chose nothing). */
  datatype Option<+T> = None | Some(value: T)

  /** Either a value or the reason there is none (a Go `error` return, or a panic). */
  datatype Result<+T, +E> = Ok(value: T) | Err(error: E)
}
