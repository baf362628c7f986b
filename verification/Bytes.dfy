/** Bytes and the two result types that several components share. */
module Bytes {

  /** An octet.  Bit patterns are written as numbers: `b & 0x7F` is `b % 128`. */
  type byte = b: int | 0 <= b < 256

  const BUFFER_SIZE: nat := 4096
  const IO_RETRY_BUDGET: nat := 1024
  const IO_STEP_MAX: nat := BUFFER_SIZE + IO_RETRY_BUDGET

  datatype Option<+T> = None | Some(value: T) {
    predicate IsFailure() {
      None?
    }

    function PropagateFailure<U>(): Option<U>
      requires None?
    {
      None
    }

    function Extract(): T
      requires Some?
    {
      value
    }
  }
}
