/** A value that may be missing: JavaScript's `undefined` / `null`. */
module Optional {

  datatype Option<+T> = None | Some(value: T)

  /** An outcome that is either a value or an error (a thrown exception). */
  datatype Result<+R, +E> = Ok(value: R) | Err(error: E)
}
