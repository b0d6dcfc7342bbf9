/** Types shared by every module of the model. */
module Prelude {

  newtype byte = x: int | 0 <= x < 256

  type Bytes = seq<byte>

  /** A torrent's info hash in hexadecimal together with a piece index. */
  type CacheKey = (string, nat)

  datatype Option<+T> = None | Some(value: T)

  datatype Result<+T, +E> = Ok(value: T) | Err(error: E)

  const U32_RANGE := 0x1_0000_0000

  function Min(a: int, b: int): int {
    if a <= b then a else b
  }

  function Max(a: int, b: int): int {
    if a <= b then b else a
  }
}
