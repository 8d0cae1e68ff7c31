/** Functions on numbers that several modules use. */
module Numbers {

  function Min(a: int, b: int): int { if a < b then a else b }

  function Max(a: int, b: int): int { if a < b then b else a }

  function Abs(a: int): nat { if a < 0 then -a else a }

  function MinReal(x: real, y: real): real { if x < y then x else y }

  function MaxReal(x: real, y: real): real { if x > y then x else y }

  function AbsReal(x: real): real { if x < 0.0 then -x else x }

  /** A product that can be hidden, so that a proof need not be about multiplication. */
  function Times(x: real, y: real): real { x * y }
}
