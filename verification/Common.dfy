/** What every component shares: instants, identifiers, hashed secrets and failure-compatible results. */
module Common {
  /** Instants and spans, in nanoseconds. */
  type Time = int

  type Id = string

  /** SHA-256 of a bearer secret, treated as injective. */
  datatype Hash = Sha256(secret: string)

  function HashToken(secret: string): Hash {
    Sha256(secret)
  }

  datatype Option<+T> = None | Some(value: T)

  datatype Result<+T, +E> = Ok(value: T) | Err(error: E)

  function Min(a: int, b: int): int {
    if a <= b then a else b
  }

  function Max(a: int, b: int): int {
    if a >= b then a else b
  }
}
