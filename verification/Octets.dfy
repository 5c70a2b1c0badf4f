/** Bytes and the numbers they spell. */
module Octets {
  type Byte = b: nat | b < 256

  /** Little-endian numbers. */
  function LittleEndian(bytes: seq<Byte>): nat
  {
    if |bytes| == 0 then 0 else (bytes[0] as nat) + 0x100 * LittleEndian(bytes[1..])
  }
}
