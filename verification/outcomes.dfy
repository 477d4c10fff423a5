/** Optional values and the one Python failure the core can raise. */
module Outcomes {

  /** An absent or present value (a Python dict key that may be missing, a card that may fail to parse). */
  datatype Option<+T> = None | Some(value: T)

  /** The result of a Python call that either returns a value or raises
      `IndexError` (from `query.split()[0]` on a blank query). */
  datatype Result<+T> = Ok(value: T) | IndexError

  function Min(a: int, b: int): int { if a <= b then a else b }

  function Max(a: int, b: int): int { if a >= b then a else b }
}
