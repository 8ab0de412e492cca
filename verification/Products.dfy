/**
 * Multiplication of reals by its laws. Proofs about vectors hide the product itself, so
 * that the solver never meets a nonlinear term inside an induction.
 */
module Products {
  function Times(x: real, y: real): real {
    x * y
  }

  lemma TimesPositive(x: real, y: real)
    requires 0.0 < x && 0.0 < y
    ensures 0.0 < Times(x, y)
  {
  }

  lemma TimesZero(x: real)
    ensures Times(0.0, x) == 0.0 && Times(x, 0.0) == 0.0
  {
  }

  lemma TimesCommutes(x: real, y: real)
    ensures Times(x, y) == Times(y, x)
  {
  }

  lemma TimesAssociates(x: real, y: real, z: real)
    ensures Times(Times(x, y), z) == Times(x, Times(y, z))
  {
  }

  lemma TimesDistributes(k: real, x: real, y: real)
    ensures Times(k, x + y) == Times(k, x) + Times(k, y)
    ensures Times(k, x - y) == Times(k, x) - Times(k, y)
  {
  }

  lemma TimesNegates(x: real, y: real)
    ensures Times(-x, y) == -Times(x, y) && Times(x, -y) == -Times(x, y)
  {
  }

  lemma TimesQuotient(d: real, n: real)
    requires n != 0.0
    ensures Times(d / n, n) == d
  {
  }

  lemma {:induction false} TimesNonNegative(x: real, y: real)
    requires 0.0 <= x && 0.0 <= y
    ensures 0.0 <= Times(x, y)
    ensures x != 0.0 && y != 0.0 ==> 0.0 < Times(x, y)
  {
    hide Times;
    TimesZero(x);
    TimesZero(y);
    if x != 0.0 && y != 0.0 {
      TimesPositive(x, y);
    }
  }

  /** Products of non-negative factors grow with them. */
  lemma TimesGrows(a: real, b: real, c: real, d: real)
    requires 0.0 <= a <= b && 0.0 <= c <= d
    ensures 0.0 <= Times(a, c) <= Times(b, d)
  {
    hide Times;
    TimesNonNegative(a, c);
    TimesNonNegative(c, b - a);
    TimesNonNegative(b, d - c);
    TimesDistributes(c, b, a);
    TimesDistributes(b, d, c);
    TimesCommutes(c, a);
    TimesCommutes(c, b);
  }

  lemma TimesNonZero(x: real, y: real)
    requires x != 0.0 && y != 0.0
    ensures Times(x, y) != 0.0
  {
    hide Times;
    var p, q := if x < 0.0 then -x else x, if y < 0.0 then -y else y;
    TimesPositive(p, q);
    TimesNegates(x, y);
    TimesNegates(x, -y);
    TimesNegates(-x, y);
  }

  /** Two numbers with the same product by a positive factor are equal. */
  lemma TimesCancels(x: real, y: real, k: real)
    requires k != 0.0 && Times(x, k) == Times(y, k)
    ensures x == y
  {
    hide Times;
    TimesDistributes(k, x, y);
    TimesCommutes(k, x);
    TimesCommutes(k, y);
    if x != y {
      TimesNonZero(k, x - y);
    }
  }

  // ---------- squares ----------

  function Square(x: real): real {
    Times(x, x)
  }

  lemma SquarePositive(x: real)
    ensures 0.0 <= Square(x)
    ensures x != 0.0 ==> 0.0 < Square(x)
    ensures Square(0.0) == 0.0
  {
    hide Times;
    TimesZero(0.0);
    TimesNegates(x, x);
    TimesNegates(x, -x);
    TimesNonNegative(if x < 0.0 then -x else x, if x < 0.0 then -x else x);
  }

  lemma SquareOfProduct(x: real, y: real)
    ensures Square(Times(x, y)) == Times(Square(x), Square(y))
  {
    hide Times;
    TimesAssociates(x, y, Times(x, y));
    TimesAssociates(y, x, y);
    TimesCommutes(y, x);
    TimesAssociates(x, y, y);
    TimesAssociates(x, x, Square(y));
  }

  lemma SquareOfDifference(x: real, y: real)
    ensures Square(x - y) == Square(x) - 2.0 * Times(x, y) + Square(y)
  {
    hide Times;
    TimesDistributes(x - y, x, y);
    TimesCommutes(x - y, x);
    TimesCommutes(x - y, y);
    TimesDistributes(x, x, y);
    TimesDistributes(y, x, y);
    TimesCommutes(x, y);
  }

  lemma SquareOrder(x: real, y: real)
    requires 0.0 <= y && Square(x) <= Square(y)
    ensures -y <= x <= y
  {
    hide Times;
    var z := if x < 0.0 then -x else x;
    TimesNegates(x, x);
    TimesNegates(x, -x);
    if y < z {
      TimesPositive(z - y, z + y);
      TimesDistributes(z - y, z, y);
      TimesCommutes(z - y, z);
      TimesCommutes(z - y, y);
      TimesDistributes(z, z, y);
      TimesDistributes(y, z, y);
      TimesCommutes(y, z);
    }
  }

  lemma RootIsUnique(x: real, y: real)
    requires 0.0 <= x && 0.0 <= y && Square(x) == Square(y)
    ensures x == y
  {
    hide Times;
    SquareOrder(x, y);
    SquareOrder(y, x);
  }
}
