/** The substep of the pose springs as a linear map on distances, and the quadratic
    energy it never increases (packages/avatar-sdk/src/behavior-state-machine.ts). */
module SpringEnergy {
  import opened SpringArithmetic

  // ----- The linear map -----

  /** Distance to the target now, and one substep earlier. */
  datatype Pair = Pair(y: real, p: real)

  /** A substep on distances is a linear map with these two coefficients. */
  function Next(a: real, b: real, s: Pair): Pair { Pair(a * s.y - b * s.p, s.y) }

  function Iterate(a: real, b: real, s: Pair, n: nat): Pair {
    if n == 0 then s else Next(a, b, Iterate(a, b, s, n - 1))
  }

  /** The coefficients for k = omega * h. */
  function A(k: real): real { 2.0 - 2.0 * k - k * k }

  function B(k: real): real { 1.0 - 2.0 * k }

  // ----- Energy -----

  function Energy(k: real, a: real, s: Pair): real {
    (1.0 - k) * (s.y * s.y + s.p * s.p) - a * (s.y * s.p)
  }

  /** What one substep takes away, in terms of the three products. */
  lemma Coefficients(k: real, a: real, yy: real, yp: real, pp: real)
    ensures var b := 1.0 - 2.0 * k;
      (1.0 - k) * (yy + pp) - a * yp
      - ((1.0 - k) * (a * a * yy - 2.0 * a * b * yp + b * b * pp + yy) - a * (a * yy - b * yp))
      == k * (a * a * yy - 4.0 * a * (1.0 - k) * yp + 4.0 * (1.0 - k) * (1.0 - k) * pp)
  {
    var b := 1.0 - 2.0 * k;
    assert (1.0 - k) * (1.0 - b * b) == k * 4.0 * (1.0 - k) * (1.0 - k);
    assert b * b - 1.0 == 0.0 - 4.0 * k * (1.0 - k);
  }

  /** One substep takes away exactly k times a square. */
  lemma EnergyDrop(k: real, a: real, s: Pair)
    ensures var d := a * s.y - 2.0 * (1.0 - k) * s.p;
      Energy(k, a, s) - Energy(k, a, Next(a, 1.0 - 2.0 * k, s)) == k * (d * d)
  {
    var b, y, p := 1.0 - 2.0 * k, s.y, s.p;
    var z, d := a * y - b * p, a * y - 2.0 * (1.0 - k) * p;
    assert z * z == a * a * (y * y) - 2.0 * a * b * (y * p) + b * b * (p * p);
    assert z * y == a * (y * y) - b * (y * p);
    assert d * d == a * a * (y * y) - 4.0 * a * (1.0 - k) * (y * p) + 4.0 * (1.0 - k) * (1.0 - k) * (p * p);
    Coefficients(k, a, y * y, y * p, p * p);
  }

  lemma {:induction false} EnergyNeverGrows(k: real, a: real, s: Pair, n: nat)
    requires k >= 0.0
    ensures Energy(k, a, Iterate(a, 1.0 - 2.0 * k, s, n)) <= Energy(k, a, s)
  {
    if n > 0 {
      EnergyNeverGrows(k, a, s, n - 1);
      EnergyStep(k, a, Iterate(a, 1.0 - 2.0 * k, s, n - 1));
    }
  }

  lemma EnergyStep(k: real, a: real, s: Pair)
    requires k >= 0.0
    ensures Energy(k, a, Next(a, 1.0 - 2.0 * k, s)) <= Energy(k, a, s)
  {
    EnergyDrop(k, a, s);
    var d := a * s.y - 2.0 * (1.0 - k) * s.p;
    SquareNonNegative(d);
    MulMono(k, 0.0, d * d);
  }

  lemma CompleteSquare(e: real, a: real, y: real, p: real)
    ensures 4.0 * e * (e * (y * y + p * p) - a * (y * p))
         == (2.0 * e * p - a * y) * (2.0 * e * p - a * y) + (4.0 * e * e - a * a) * (y * y)
  {}

  /** With a positive margin the energy bounds both distances. */
  lemma EnergyBoundsBoth(k: real, a: real, s: Pair)
    ensures (4.0 * (1.0 - k) * (1.0 - k) - a * a) * (s.y * s.y) <= 4.0 * (1.0 - k) * Energy(k, a, s)
    ensures (4.0 * (1.0 - k) * (1.0 - k) - a * a) * (s.p * s.p) <= 4.0 * (1.0 - k) * Energy(k, a, s)
  {
    CompleteSquare(1.0 - k, a, s.y, s.p);
    CompleteSquare(1.0 - k, a, s.p, s.y);
    SquareNonNegative(2.0 * (1.0 - k) * s.p - a * s.y);
    SquareNonNegative(2.0 * (1.0 - k) * s.y - a * s.p);
  }
}
