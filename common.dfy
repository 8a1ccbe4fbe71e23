/** Small shared vocabulary: optional values, results with an error message,
    and the unsigned 32-bit integers the configuration and image sizes use. */
module Common {

  datatype Option<+T> = None | Some(value: T)

  /** A fallible result; the error carries the message the program reports. */
  datatype Result<+T> = Ok(value: T) | Err(msg: string)

  /** Rust's `u32`. */
  type u32 = x: int | 0 <= x < 0x1_0000_0000
}
