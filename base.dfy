/** Value types shared by every module of the model: Rust's `Option`, `Result`
    and the unsigned 32-bit identifiers used for nodes, edges and actions. */
module Base {

  /** Rust's `Option<T>`. */
  datatype Option<+T> = None | Some(value: T)

  /** Rust's `Result<T, E>`. */
  datatype Result<+T, +E> = Ok(value: T) | Err(error: E)

  /** Rust's `u32`: node and action identifiers. */
  type u32 = x: int | 0 <= x < 0x1_0000_0000
}
