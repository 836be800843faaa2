/** What every component uses: a missing value, a refusal, bytes, and the largest safe integer. */
module Wrappers {
  datatype Option<+T> = None | Some(value: T)

  datatype Result<+T, +E> = Ok(value: T) | Err(error: E)

  type Bytes = seq<bv8>

  /** Number.MAX_SAFE_INTEGER */
  const MAX_SAFE_INTEGER: nat := 9_007_199_254_740_991

  function Ascii(s: string): Bytes {
    seq(|s|, i requires 0 <= i < |s| => (s[i] as int % 256) as bv8)
  }
}
