/** Vocabulary shared by every module: outcomes of fallible code, machine integers and identifiers. */
module Base {

  /** Rust's `u64`. Arithmetic on it is written out with its overflow check wherever the source has one. */
  type U64 = n: int | 0 <= n < 0x1_0000_0000_0000_0000

  const U64_LIMIT: int := 0x1_0000_0000_0000_0000

  datatype Option<+T> = None | Some(value: T)

  /** `Panic` stands for a Rust panic: an index out of bounds, an `unwrap` of `None`,
      or unchecked arithmetic that overflows. */
  datatype Result<+T, +E> = Ok(value: T) | Err(error: E) | Panic

  /** A 32-byte digest, identified with the number its bytes spell big-endian,
      which is how the source compares digests with difficulty targets. */
  type Hash = int

  /** A public key. */
  type Address = int

  type Signature = int
}
