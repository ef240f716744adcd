/** Byte strings, and streams of them cut into chunks. */
module ByteStrings {
  type Bytes = seq<nat>

  const LF: nat := 10
  const CR: nat := 13
  const DOLLAR: nat := 36

  /** The stream that arrives as these chunks. */
  function Flatten(chunks: seq<Bytes>): Bytes {
    if chunks == [] then [] else chunks[0] + Flatten(chunks[1..])
  }
}
