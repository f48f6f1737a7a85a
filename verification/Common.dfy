/** Vocabulary shared by every module. */
module Common {

  datatype Option<+T> = None | Some(value: T)

  type byte = b: int | 0 <= b < 256

  /** A hash as stored: the 32 bytes SHA-256 returns (or whatever a column holds). */
  datatype Hash = Hash(bytes: seq<byte>)

  /** The digest function. Nothing is assumed of it beyond being a function; what a
      theorem needs of it is a hypothesis of that theorem. */
  type Digest = seq<byte> -> seq<byte>
}
