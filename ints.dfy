/** The integer minimum and maximum, as Python's `min` and `max` compute them on two
    integers (slice bounds, report lengths, the post limit). */
module Ints {

  function Min(a: int, b: int): int { if a <= b then a else b }
  function Max(a: int, b: int): int { if a >= b then a else b }
}
