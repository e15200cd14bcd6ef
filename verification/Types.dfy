/**
  Machine types and result types shared by every component.  Go's uint64 is a
  subset of nat, so that wrap-around is written out wherever it can happen.
  A 32-byte identifier is represented by its big-endian value.
 */
module Types {
  const TWO32: nat := 0x1_0000_0000
  const TWO63: nat := 0x8000_0000_0000_0000
  const TWO64: nat := 0x1_0000_0000_0000_0000
  const TWO256: nat := 0x1_0000_0000_0000_0000_0000_0000_0000_0000_0000_0000_0000_0000_0000_0000_0000_0000

  type uint64 = n: nat | n < TWO64
  type byte = n: nat | n < 256
  type Bytes = seq<byte>
  type Hash = n: nat | n < TWO256

  const MAX_HEIGHT: uint64 := TWO64 - 1
  const ZERO_HASH: Hash := 0

  datatype Option<+T> = None | Some(value: T)

  datatype Result<+T, +E> = Ok(value: T) | Err(error: E)

  /** uint64 addition of one, which wraps at the largest height. */
  function Next(n: uint64): uint64 {
    if n == MAX_HEIGHT then 0 else n + 1
  }

  /** uint64 subtraction. */
  function Minus(a: uint64, b: uint64): uint64 {
    if a >= b then a - b else a + TWO64 - b
  }

  /** Conversion of uint64 to int64, as in Go's `int64(x)`. */
  function ToInt64(n: uint64): int {
    if n < TWO63 then n else n - TWO64
  }

  predicate InInt64(n: int) {
    0 - TWO63 <= n < TWO63
  }
}
