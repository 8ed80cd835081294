/** Bytes and byte strings. */
module ByteSeq {
  type Byte = b: nat | b < 256
  type Bytes = seq<Byte>
}
