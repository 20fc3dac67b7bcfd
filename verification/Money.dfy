/** Rounding of amounts; money floats are exact rationals here. */
module Money {
  function AtLeastZero(x: int): nat { if x > 0 then x else 0 }

  function Floor(x: real): int { x.Floor }

  /** Python's `round`: halves go to the even neighbour. */
  function Round(x: real): int {
    var f := Floor(x);
    if x - f as real < 0.5 then f
    else if x - f as real > 0.5 then f + 1
    else if f % 2 == 0 then f else f + 1
  }

  /** The nearest integer, and of two the even one. */
  lemma {:induction false} RoundIsNearest(x: real)
    ensures -0.5 <= x - Round(x) as real <= 0.5
    ensures x - Round(x) as real == 0.5 || x - Round(x) as real == -0.5 ==> Round(x) % 2 == 0
  {
  }

  lemma {:induction false} RoundOfScaled(n: nat)
    ensures Round(n as real / 1000000.0 * 1000000.0) == n
  {
    assert n as real / 1000000.0 * 1000000.0 == n as real;
    assert (n as real).Floor == n;
  }
}
