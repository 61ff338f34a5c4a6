/** Value types shared by every part of the model: bytes, optional values and the
    two shapes of fallible result the Rust code uses (`Result<T, E>` and a
    `Result<(), E>`, here `Outcome<E>`). */
module Common {

  /** One byte of file content. */
  newtype byte = b: int | 0 <= b < 256

  datatype Option<+T> = None | Some(value: T)

  datatype Result<+T, +E> = Ok(value: T) | Err(error: E)

  /** A result that carries no value on success (`anyhow::Result<()>`). */
  datatype Outcome<+E> = Pass | Fail(error: E)
}
