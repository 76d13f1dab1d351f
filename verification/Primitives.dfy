/** Option, Result and the number types shared by every module. */
module Primitives {

  datatype Option<+T> = None | Some(value: T)

  /** The source's `Result`, usable with `:-`. */
  datatype Result<+T, +E> = Ok(value: T) | Err(error: E) {
    predicate IsFailure() {
      Err?
    }
    function PropagateFailure<U>(): Result<U, E>
      requires Err?
    {
      Err(error)
    }
    function Extract(): T
      requires Ok?
    {
      value
    }
  }

  type byte = n: nat | n < 0x100
  type u32 = n: nat | n < 0x1_0000_0000
  type u64 = n: nat | n < 0x1_0000_0000_0000_0000
  type i32 = n: int | -0x8000_0000 <= n < 0x8000_0000

  /** A 256-bit hash, read as the big-endian number its 32 bytes spell:
      the byte-wise `Ord` of the source is `<` on these numbers. */
  type H256 = n: nat | n < 0x1_0000000000000000_0000000000000000_0000000000000000_0000000000000000

  const ZERO_HASH: H256 := 0

  function Reversed<T>(s: seq<T>): (r: seq<T>)
    ensures |r| == |s|
  {
    seq(|s|, i requires 0 <= i < |s| => s[|s| - 1 - i])
  }
}
