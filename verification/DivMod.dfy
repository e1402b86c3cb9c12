// Arithmetic on naturals: minimum and maximum, and division and remainder by a divisor that is not a literal.
// Each nonlinear step stands alone in a lemma of its own, so that no other proof needs nonlinear reasoning.
module DivMod {

  function Min(a: nat, b: nat): nat {
    if a < b then a else b
  }

  function Max(a: nat, b: nat): nat {
    if a < b then b else a
  }

  lemma Distribute(x: int, y: int, z: int)
    ensures x * (y + z) == x * y + x * z
  {
  }

  lemma ProductNonnegative(x: int, y: int)
    requires x >= 0 && y >= 0
    ensures x * y >= 0
  {
  }

  lemma MultipleMonotone(d: int, x: int, y: int)
    requires d >= 0 && x <= y
    ensures d * x <= d * y
  {
    Distribute(d, x, y - x);
    ProductNonnegative(d, y - x);
  }

  lemma NoSmallMultiple(d: int, k: int)
    requires d > 0
    ensures k >= 1 ==> d * k >= d
    ensures k <= -1 ==> d * k <= -d
  {
    if k >= 1 {
      MultipleMonotone(d, 1, k);
    } else if k <= -1 {
      MultipleMonotone(d, k, -1);
    }
  }

  lemma Fundamental(a: int, d: int)
    requires d > 0
    ensures a == d * (a / d) + a % d && 0 <= a % d < d
  {
  }

  lemma SameQuotient(d: int, q': int, r': int, q: int, r: int)
    requires d > 0 && d * q' + r' == d * q + r && 0 <= r < d && 0 <= r' < d
    ensures q' == q && r' == r
  {
    Distribute(d, q' - q, q);
    NoSmallMultiple(d, q' - q);
  }

  // Quotient and remainder are the only decomposition of a.
  lemma QuotientUnique(a: int, d: int, q: int, r: int)
    requires d > 0 && a == d * q + r && 0 <= r < d
    ensures a / d == q && a % d == r
  {
    Fundamental(a, d);
    SameQuotient(d, a / d, a % d, q, r);
  }

  // a / d < b exactly when a < d * b.
  lemma QuotientBelow(a: int, d: int, b: int)
    requires d > 0
    ensures a / d < b <==> a < d * b
  {
    Fundamental(a, d);
    if a / d < b {
      MultipleMonotone(d, a / d + 1, b);
      Distribute(d, a / d, 1);
    } else {
      MultipleMonotone(d, b, a / d);
    }
  }

  lemma QuotientMonotone(a: int, b: int, d: int)
    requires d > 0 && a <= b
    ensures a / d <= b / d
  {
    QuotientBelow(b, d, a / d);
    Fundamental(a, d);
  }

  // n / d rounded up, by repeated subtraction.
  function CeilDiv(n: nat, d: nat): nat
    requires d > 0
  {
    if n == 0 then 0 else if n <= d then 1 else 1 + CeilDiv(n - d, d)
  }

  lemma {:induction false} CeilDivIsQuotient(n: nat, d: nat)
    requires d > 0
    ensures CeilDiv(n, d) == n / d + (if n % d != 0 then 1 else 0)
  {
    if n == 0 || n < d {
      QuotientUnique(n, d, 0, n);
    } else if n == d {
      QuotientUnique(n, d, 1, 0);
    } else {
      CeilDivIsQuotient(n - d, d);
      Fundamental(n - d, d);
      Distribute(d, (n - d) / d, 1);
      QuotientUnique(n, d, (n - d) / d + 1, (n - d) % d);
    }
  }

  lemma {:induction false} CeilDivBounds(n: nat, d: nat)
    requires d > 0
    ensures d * CeilDiv(n, d) >= n
    ensures n > 0 ==> CeilDiv(n, d) > 0 && d * (CeilDiv(n, d) - 1) < n
  {
    if n > d {
      CeilDivBounds(n - d, d);
      Distribute(d, CeilDiv(n - d, d), 1);
      Distribute(d, CeilDiv(n - d, d) - 1, 1);
    }
  }

  lemma {:induction false} CeilDivShrinks(n: nat, d: nat)
    requires 2 <= d
    ensures CeilDiv(n, d) <= n
    ensures 2 <= n ==> CeilDiv(n, d) < n
    ensures n <= d ==> CeilDiv(n, d) <= 1
    ensures n > 0 ==> CeilDiv(n, d) > 0
  {
    if n > d { CeilDivShrinks(n - d, d); }
  }

  // The words that cover n bits are exactly those with an index below CeilDiv(n, d).
  lemma WordCovered(a: nat, n: nat, d: nat)
    requires d > 0 && a < n
    ensures a / d < CeilDiv(n, d)
  {
    CeilDivBounds(n, d);
    QuotientBelow(a, d, CeilDiv(n, d));
  }
}
