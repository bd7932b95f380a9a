/**
  Go value shapes the rest of the model is written in: the 64-bit `int`,
  nil-able slices and pointers, and `(value, error)` returns.
 */
module Base {

  /** Go's `int` on 64-bit targets. The model never does arithmetic on it,
      so wrap-around cannot arise. */
  newtype Int64 = x: int | -0x8000_0000_0000_0000 <= x < 0x8000_0000_0000_0000

  /** A pointer that may be nil (`*string`). */
  datatype Option<+T> = None | Some(value: T)

  /** A Go `(value, error)` pair where exactly one side is meaningful. */
  datatype Result<+T, +E> = Success(value: T) | Failure(error: E)

  /** A Go slice. A nil slice and an empty one hold the same elements, but
      encoding/json writes the first as `null` and the second as `[]`, so the
      model keeps them apart. */
  datatype Slice<+T> = Nil | NonNil(items: seq<T>) {

    /** The elements, as `range` sees them. */
    function Elems(): seq<T> {
      if Nil? then [] else items
    }

    /** Go's `append(s, x)`: never nil afterwards. */
    function Append(x: T): Slice<T> {
      NonNil(Elems() + [x])
    }
  }
}
