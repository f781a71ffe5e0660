/** Exponentiation over the naturals, with the few laws that the base conversions need. */
module Power {
  function Pow(b: nat, e: nat): nat {
    if e == 0 then 1 else b * Pow(b, e - 1)
  }

  lemma {:induction false} PowPositive(b: nat, e: nat)
    requires 0 < b
    ensures 0 < Pow(b, e)
  {
    if e != 0 {
      PowPositive(b, e - 1);
    }
  }

  lemma {:induction false} PowAdd(b: nat, m: nat, n: nat)
    ensures Pow(b, m + n) == Pow(b, m) * Pow(b, n)
  {
    if m != 0 {
      PowAdd(b, m - 1, n);
      MulAssociative(b, Pow(b, m - 1), Pow(b, n));
    }
  }

  lemma MulAssociative(x: nat, y: nat, z: nat)
    ensures x * (y * z) == (x * y) * z
  {
  }

  lemma {:induction false} PowMul(b: nat, m: nat, n: nat)
    ensures Pow(Pow(b, m), n) == Pow(b, m * n)
  {
    if n == 0 {
      assert m * n == 0;
    } else {
      PowMul(b, m, n - 1);
      PowAdd(b, m, m * (n - 1));
      assert m + m * (n - 1) == m * n;
    }
  }

  lemma {:induction false} PowMonotoneExponent(b: nat, m: nat, n: nat)
    requires 0 < b && m <= n
    ensures Pow(b, m) <= Pow(b, n)
  {
    if m < n {
      PowMonotoneExponent(b, m, n - 1);
      PowPositive(b, n - 1);
      MulMonotone(1, b, Pow(b, n - 1), Pow(b, n - 1));
    }
  }

  lemma {:induction false} PowMonotoneBase(a: nat, b: nat, n: nat)
    requires a <= b
    ensures Pow(a, n) <= Pow(b, n)
  {
    if n != 0 {
      PowMonotoneBase(a, b, n - 1);
      MulMonotone(a, b, Pow(a, n - 1), Pow(b, n - 1));
    }
  }

  lemma {:induction false} PowStrictBase(a: nat, b: nat, n: nat)
    requires a < b && 0 < n
    ensures Pow(a, n) < Pow(b, n)
  {
    PowMonotoneBase(a, b, n - 1);
    PowPositive(b, n - 1);
    MulStrict(a, b, Pow(a, n - 1), Pow(b, n - 1));
  }

  lemma MulStrict(a: nat, b: nat, x: nat, y: nat)
    requires a < b && x <= y && 0 < y
    ensures a * x < b * y
  {
    MulMonotone(a, a, x, y);
    MulMonotone(a + 1, b, y, y);
    assert (a + 1) * y == a * y + y;
  }

  lemma MulMonotone(a: nat, b: nat, x: nat, y: nat)
    requires a <= b && x <= y
    ensures a * x <= b * y
  {
    assert a * x <= a * y by { assert a * (y - x) >= 0; }
    assert a * y <= b * y by { assert (b - a) * y >= 0; }
  }

  /** A power law transferred between two bases: if a^p <= b^q, then a^n <= b^m as soon as
      the exponents satisfy m/n >= q/p. */
  lemma {:induction false} Rescale(a: nat, b: nat, p: nat, q: nat, n: nat, m: nat)
    requires 0 < a && 0 < b && 0 < p
    requires Pow(a, p) <= Pow(b, q)
    requires q * n <= p * m
    ensures Pow(a, n) <= Pow(b, m)
  {
    // (a^n)^p = (a^p)^n <= (b^q)^n <= (b^m)^p
    PowMul(a, n, p);
    PowMul(a, p, n);
    assert n * p == p * n;
    PowMonotoneBase(Pow(a, p), Pow(b, q), n);
    PowMul(b, q, n);
    PowMonotoneExponent(b, q * n, p * m);
    PowMul(b, m, p);
    assert m * p == p * m;
    if Pow(b, m) < Pow(a, n) {
      PowStrictBase(Pow(b, m), Pow(a, n), p);
    }
  }
}
