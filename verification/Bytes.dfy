/** Bytes as numbers. */
module Bytes {
  newtype Byte = x: int | 0 <= x < 256

  function Concat(chunks: seq<seq<Byte>>): seq<Byte> {
    if chunks == [] then [] else chunks[0] + Concat(chunks[1..])
  }
}
