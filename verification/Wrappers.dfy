/** Option, Result and check-verdict types shared by every module. */
module Wrappers {

  datatype Option<+T> = None | Some(value: T)

  datatype Result<+T, +E> = Ok(value: T) | Err(error: E)

  /** What a validator returns: nothing to report, or the first fault it met. */
  datatype Verdict<+E> = Pass | Fail(error: E)

  const U64_MAX: nat := 0xFFFF_FFFF_FFFF_FFFF

  /** The width of usize on the 64-bit targets the repository runs on. */
  const USIZE_MAX: nat := 0xFFFF_FFFF_FFFF_FFFF
}
