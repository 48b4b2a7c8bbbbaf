/** Types shared by every other module. */
module Prelude {

  type byte = b: int | 0 <= b < 256

  /** The contents of a Go `[]byte` or `string`. */
  type Bytes = seq<byte>

  /** Every length in Go is below this, and CBOR heads carry arguments below this. */
  const TWO64: nat := 0x1_0000_0000_0000_0000

  /** The 16 bytes of a UUID. */
  type Uuid = u: Bytes | |u| == 16 witness [0, 0, 0, 0, 0, 0, 0, 0, 0, 0, 0, 0, 0, 0, 0, 0]

  const NIL_UUID: Uuid := [0, 0, 0, 0, 0, 0, 0, 0, 0, 0, 0, 0, 0, 0, 0, 0]

  datatype Option<+T> = None | Some(value: T) {
    predicate IsFailure() { None? }

    function PropagateFailure<U>(): Option<U>
      requires None?
    {
      None
    }

    function Extract(): T
      requires Some?
    {
      value
    }
  }

  /** What a decoder returns: a value and the bytes behind it. */
  datatype Parse<+T> = Fail | Parsed(item: T, rest: Bytes)

  datatype Result<+T, +E> = Ok(value: T) | Err(error: E)
}
