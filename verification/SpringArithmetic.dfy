/** Inequalities between products of reals, one product at a time. */
module SpringArithmetic {

  lemma ProductNonNegative(x: real, y: real)
    requires x >= 0.0 && y >= 0.0
    ensures x * y >= 0.0
  {}

  lemma ProductPositive(x: real, y: real, product: real)
    requires x > 0.0 && y > 0.0 && product == x * y
    ensures product > 0.0
  {}

  lemma Distribute(f: real, x: real, y: real)
    ensures f * (x - y) == f * x - f * y
    ensures f * (x + y) == f * x + f * y
  {}

  lemma Negate(f: real, x: real)
    ensures f * (0.0 - x) == 0.0 - f * x
    ensures (0.0 - f) * x == 0.0 - f * x
  {}

  lemma MulMono(f: real, x: real, y: real)
    requires f >= 0.0 && x <= y
    ensures f * x <= f * y
  {
    Distribute(f, y, x);
    ProductNonNegative(f, y - x);
  }

  lemma MulCancel(f: real, x: real, y: real)
    requires f > 0.0 && f * x <= f * y
    ensures x <= y
  {
    if x > y {
      ProductPositive(f, x - y, f * (x - y));
      Distribute(f, x, y);
    }
  }

  lemma MulDivide(f: real, x: real)
    requires f > 0.0
    ensures f * (x / f) == x
  {}

  lemma SquareNonNegative(x: real)
    ensures x * x >= 0.0
  {
    if x >= 0.0 {
      ProductNonNegative(x, x);
    } else {
      ProductNonNegative(0.0 - x, 0.0 - x);
    }
  }

  function Abs(x: real): real { if x < 0.0 then 0.0 - x else x }

  lemma BoundFromSquare(x: real, c: real)
    requires x * x <= c
    ensures Abs(x) <= 1.0 + c
  {
    SquareNonNegative(x);
    SquareNonNegative(x - 1.0);
    SquareNonNegative(x + 1.0);
  }
}
