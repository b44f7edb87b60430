/** Constants and elementary operations on real numbers. */
module Reals {

  const PI: real := 3.14159265358979323846
  const TWOPI: real := 6.2831853071795864769
  const DEG_TO_RAD: real := 0.0174532925199432958

  function Abs(x: real): (r: real)
    ensures r >= 0.0 && r >= x && r >= -x
  {
    if x < 0.0 then -x else x
  }

  /** A product that proofs can hide. */
  function Times(x: real, y: real): real {
    x * y
  }

  lemma AbsTimes(a: real, b: real)
    ensures Abs(a * b) == Abs(a) * Abs(b)
  {
    if a >= 0.0 {
      if b >= 0.0 { assert a * b >= 0.0; } else { assert a * b <= 0.0; }
    } else {
      if b >= 0.0 { assert a * b <= 0.0; } else { assert a * b >= 0.0; }
    }
  }

  lemma TimesZero(x: real)
    ensures Times(x, 0.0) == 0.0
  {
  }

  lemma TimesGrows(a: real, x: real, y: real)
    requires a >= 0.0 && x <= y
    ensures Times(a, x) <= Times(a, y)
  {
  }
}
