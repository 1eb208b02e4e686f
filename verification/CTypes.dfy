/** The C types the program is written in, and streams in pieces. */
module CTypes {
  const INT_MAX: int := 0x7FFF_FFFF

  /** A 32-bit `int`: every value stored in one is checked against this range. */
  type cint = x: int | -0x8000_0000 <= x <= 0x7FFF_FFFF

  type byte = bv8

  datatype Option<+T> = None | Some(value: T)

  /** The pieces of a stream, joined. */
  function Flatten<T>(chunks: seq<seq<T>>): seq<T> {
    if chunks == [] then [] else chunks[0] + Flatten(chunks[1..])
  }
}
