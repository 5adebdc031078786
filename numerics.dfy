/**
 * The floating-point library calls of the grading engine — `math.log`,
 * `math.sqrt` and `round(x, digits)` — are not interpreted: they are handed to
 * the grading strategies as function values, and `Lawful` lists the only facts about them
 * that the proofs use.
 */
module Numerics {

  datatype MathLib = MathLib(
    log: real -> real,
    sqrt: real -> real,
    round: (real, int) -> real)

  ghost predicate Lawful(m: MathLib) {
    && m.log(1.0) == 0.0
    && m.log(2.0 / 3.0) < 0.0
    && m.sqrt(0.0) == 0.0
    && m.sqrt(1.0) == 1.0
    && (forall x :: 0.0 <= x ==> 0.0 <= m.sqrt(x) && m.sqrt(x) * m.sqrt(x) == x)
    && (forall x, y :: 0.0 <= x <= y ==> m.sqrt(x) <= m.sqrt(y))
    && (forall d :: m.round(0.0, d) == 0.0)
    && (forall x, y, d :: x <= y ==> m.round(x, d) <= m.round(y, d))
  }

  /** A product of non-negative numbers is non-negative. */
  lemma NonNegativeScale(x: real, y: real)
    requires x >= 0.0 && y >= 0.0
    ensures x * y >= 0.0
  {
  }

  lemma RoundMonotone(m: MathLib, x: real, y: real, d: int)
    requires Lawful(m) && x <= y
    ensures m.round(x, d) <= m.round(y, d)
  {
  }

  lemma RoundZero(m: MathLib, d: int)
    requires Lawful(m)
    ensures m.round(0.0, d) == 0.0
  {
  }
}
