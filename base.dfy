/** Shared vocabulary: wire bytes and the success-or-failure value used
    wherever the Python code can raise. */
module Base {
  /** One byte of the stream, as `ord` reports it. */
  type byte = b: int | 0 <= b < 0x100

  datatype Result<+T, +E> = Ok(value: T) | Err(error: E)

  function Min(a: int, b: int): int { if a <= b then a else b }
}
