/**
  Shared vocabulary of the gossip cache model: the optional and
  success-or-error wrappers, and the fixed-width integer types the
  Go source uses for timestamps, bytes and peer names.
 */
module Base {

  /** A value that may be missing (a Go `nil` pointer or interface). */
  datatype Option<+T> = None | Some(value: T)

  /** The outcome of an operation that returns `(value, error)` in Go. */
  datatype Result<+T, +E> = Success(value: T) | Failure(error: E)

  /** Go's `int64`: timestamps are only compared, never added, so no wrap-around arises. */
  newtype int64 = x: int | -0x8000_0000_0000_0000 <= x < 0x8000_0000_0000_0000

  /** Go's `byte`. */
  newtype byte = x: int | 0 <= x < 0x100

  /** The mesh library's `PeerName`, an unsigned 64-bit identifier. */
  newtype PeerName = x: int | 0 <= x < 0x1_0000_0000_0000_0000

  /** Keys of the cache are Go strings. */
  type Key = string

  function Max(a: int64, b: int64): (r: int64)
    ensures r == a || r == b
    ensures a <= r && b <= r
  {
    if a < b then b else a
  }
}
