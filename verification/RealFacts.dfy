/** Facts about products and quotients of reals, each small enough for the solver. */
module RealFacts {
  lemma NegativeProduct(x: real, y: real)
    requires x < 0.0 && y > 0.0
    ensures x * y < 0.0
  {
  }

  lemma NonNegativeFactor(x: real, y: real)
    requires y > 0.0 && x * y >= 0.0
    ensures x >= 0.0
  {
    if x < 0.0 {
      NegativeProduct(x, y);
    }
  }

  lemma ZeroFactor(x: real, y: real)
    requires y > 0.0 && x * y == 0.0
    ensures x == 0.0
  {
  }

  lemma SameFactor(x: real, y: real, m: real)
    requires m > 0.0 && x * m == y * m
    ensures x == y
  {
    assert (x - y) * m == 0.0;
  }

  lemma Undivide(x: real, y: real)
    requires y > 0.0
    ensures x / y * y == x
  {
  }

  lemma Positive(x: real, y: real)
    requires x > 0.0 && y > 0.0
    ensures x * y > 0.0
  {
  }

  lemma NonNegativeProduct(x: real, y: real)
    requires x >= 0.0 && y >= 0.0
    ensures x * y >= 0.0
  {
  }

  lemma NegatedProduct(w: real, v: real, x: real)
    requires v == -w
    ensures v * x == -(w * x)
  {
  }

  lemma SmallProduct(x: real, y: real)
    requires -1.0 <= x <= 1.0 && 0.0 <= y <= 1.0
    ensures -1.0 <= x * y <= 1.0
  {
    NonNegativeProduct(1.0 - x, y);
    NonNegativeProduct(1.0 + x, y);
  }

  lemma Quotient(x: int, y: int)
    requires 0 <= x <= y && y > 0
    ensures 0.0 <= x as real / y as real <= 1.0
  {
    UnitFraction(x as real, y as real, x as real / y as real);
  }

  lemma UnitFraction(x: real, y: real, q: real)
    requires 0.0 <= x <= y && y > 0.0 && q == x / y
    ensures 0.0 <= q <= 1.0
  {
    Undivide(x, y);
    NonNegativeFactor(q, y);
    NonNegativeFactor(1.0 - q, y);
  }

  lemma Distributes(a: real, x: real, y: real)
    ensures a * (x + y) == a * x + a * y
  {
  }
}
