/** Real numbers, as the source's built-in functions treat them. */
module Numbers {
  function Min(x: real, y: real): real { if x <= y then x else y }

  function Max(x: real, y: real): real { if x <= y then y else x }

  function Abs(x: real): real { if x >= 0.0 then x else -x }

  /** Python's int(): towards zero. */
  function Truncate(x: real): int {
    if x >= 0.0 then x.Floor else -((-x).Floor)
  }
}
