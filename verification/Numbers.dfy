/** Bounds of two numbers. */
module Numbers {

  function Min(a: int, b: int): int { if a < b then a else b }

  function Max(a: int, b: int): int { if a < b then b else a }

  /** The same of levels and amounts. */
  function MinReal(a: real, b: real): real { if b < a then b else a }
}
