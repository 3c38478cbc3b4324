/** Rust's `Option` and `Result`, as far as the program uses them. */
module RustTypes {

  datatype Option<+T> = None | Some(value: T)

  /** `opt.unwrap_or(default)`. */
  function UnwrapOr<T>(opt: Option<T>, default: T): T {
    if opt.Some? then opt.value else default
  }

  datatype Result<+T, +E> = Ok(value: T) | Err(error: E)
}
