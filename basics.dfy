/** Shared vocabulary: optional values, results, bits, bytes and powers of two. */
module Basics {

  /** A value that may be absent (Python's `None`). */
  datatype Option<+T> = None | Some(value: T)

  /** The outcome of an operation that may raise instead of returning. */
  datatype Result<+T, +E> = Success(value: T) | Failure(error: E)

  /** A 0/1 value, as the protocol stores bits (Python ints 0 and 1). */
  type Bit = b: int | 0 <= b <= 1

  /** One element of a Python `bytes` / `bytearray`. */
  type Byte = b: int | 0 <= b < 256

  function Pow2(n: nat): (r: nat)
    ensures r >= 1
  {
    if n == 0 then 1 else 2 * Pow2(n - 1)
  }

  /** Eight bits or fewer fit in a byte. */
  lemma {:induction false} Pow2AtMostByte(w: nat)
    requires w <= 8
    ensures Pow2(w) <= 256
    decreases 8 - w
  {
    if w < 8 {
      Pow2AtMostByte(w + 1);
    } else {
      assert Pow2(1) == 2 && Pow2(2) == 4 && Pow2(3) == 8 && Pow2(4) == 16;
      assert Pow2(5) == 32 && Pow2(6) == 64 && Pow2(7) == 128;
    }
  }
}
