// binary16 conversion on bit patterns (IEEE 754-2019 sections 3.4 and 4.3.1). A binary32 value is a
// natural below 2^32, a binary16 value a natural below 2^16. Magnitudes are compared as integers in
// units of the smallest binary32 step, 2^-149, so nothing is rounded in the specification.
module Float16 {
  import opened Bits

  const SIGN16: nat := 0x8000
  const INFINITY16: nat := 0x7C00
  const QUIET_NAN16: nat := 0x7E00

  // ---- Meaning of the two formats ----

  // binary32: sign, 8 exponent bits, 23 fraction bits.
  function Sign32(v: nat): nat { Shr(v, 31) }

  function Exponent32(v: nat): (e: nat)
    ensures e < 0x100
  {
    Pow2Values();
    Truncate(Shr(v, 23), 8)
  }

  function Fraction32(v: nat): (f: nat)
    ensures f < 0x800000
  {
    Pow2Values();
    Truncate(v, 23)
  }

  // binary16: sign, 5 exponent bits, 10 fraction bits; the last fifteen order the magnitudes.
  function Sign16(h: nat): nat { Shr(h, 15) }

  function Pattern16(h: nat): (m: nat)
    ensures m < 0x8000
  {
    Pow2Values();
    Truncate(h, 15)
  }

  // Magnitude of a finite binary32 pattern, in units of 2^-149.
  function Magnitude32(v: nat): nat {
    if Exponent32(v) == 0 then Fraction32(v) else Product(0x800000 + Fraction32(v), Pow2(Exponent32(v) - 1))
  }

  // Magnitude of a binary16 pattern without its sign, in units of 2^-24. Read past the largest
  // finite value, the infinity pattern stands for the next power of two.
  function Magnitude16(m: nat): nat {
    if m < 0x400 then m else Product(0x400 + m % 0x400, Pow2(m / 0x400 - 1))
  }

  // The same when a step of 2^-24 counts as `unit`.
  function Value16(m: nat, unit: nat): nat {
    Product(Magnitude16(m), unit)
  }

  // 2^-24 in units of 2^-149.
  const UNIT16: nat := 0x2000_0000_0000_0000_0000_0000_0000_0000

  // x * y, by repeated addition so that proofs about order meet no multiplication.
  function Product(x: nat, y: nat): nat {
    if x == 0 then 0 else Product(x - 1, y) + y
  }

  function Distance(x: nat, y: nat): nat {
    if x < y then y - x else x - y
  }

  // m is the binary16 magnitude nearest to x, with ties going to an even pattern; from halfway
  // between the largest finite value and the next power of two on, that is infinity.
  ghost predicate NearestEven(x: nat, m: nat, unit: nat) {
    && m <= INFINITY16
    && forall k: nat :: k <= INFINITY16 && k != m ==>
         Distance(x, Value16(m, unit)) < Distance(x, Value16(k, unit))
         || (Distance(x, Value16(m, unit)) == Distance(x, Value16(k, unit)) && m % 2 == 0)
  }

  // The nine payload bits of a NaN that fit.
  function Payload32(v: nat): (p: nat)
    ensures p < 0x200
  {
    Pow2Values();
    Truncate(Shr(v, 13), 9)
  }

  // What Encode promises of every input.
  ghost predicate Encodes(v: nat, h: nat) {
    && h < 0x10000
    && Sign16(h) == Sign32(v)
    && if Exponent32(v) < 0xFF then NearestEven(Magnitude32(v), Pattern16(h), UNIT16)
       else Pattern16(h) == if Fraction32(v) == 0 then INFINITY16 else QUIET_NAN16 + Payload32(v)
  }

  // ---- Order of binary16 magnitudes ----

  lemma {:induction false} ProductDouble(x: nat, y: nat)
    ensures Product(x, 2 * y) == 2 * Product(x, y)
  {
    if x > 0 { ProductDouble(x - 1, y); }
  }

  lemma {:induction false} ProductAdd(x: nat, z: nat, y: nat)
    ensures Product(x + z, y) == Product(x, y) + Product(z, y)
  {
    if z > 0 { ProductAdd(x, z - 1, y); }
  }

  lemma {:induction false} ProductAssociates(x: nat, y: nat, z: nat)
    ensures Product(Product(x, y), z) == Product(x, Product(y, z))
  {
    if x > 0 {
      ProductAssociates(x - 1, y, z);
      ProductAdd(Product(x - 1, y), y, z);
    }
  }

  lemma {:induction false} ProductPow2(j: nat, k: nat)
    ensures Product(Pow2(j), Pow2(k)) == Pow2(j + k)
  {
    if j == 0 {
      assert Product(1, Pow2(k)) == Product(0, Pow2(k)) + Pow2(k);
    } else {
      ProductPow2(j - 1, k);
      ProductAdd(Pow2(j - 1), Pow2(j - 1), Pow2(k));
    }
  }

  lemma {:induction false} ProductMonotone(x: nat, y: nat, z: nat)
    requires x <= y
    ensures Product(x, z) <= Product(y, z)
    ensures x < y && z > 0 ==> Product(x, z) < Product(y, z)
  {
    ProductAdd(x, y - x, z);
  }

  // Weight of the last place of a pattern.
  function Step16(m: nat): nat {
    if m < 0x400 then 1 else Pow2(m / 0x400 - 1)
  }

  lemma {:induction false} ProductOne(x: nat)
    ensures Product(x, 1) == x
  {
    if x > 0 { ProductOne(x - 1); }
  }

  lemma OnceIsItself(y: nat)
    ensures Product(1, y) == y
  {
    assert Product(0, y) == 0;
  }

  lemma NextMagnitude16(m: nat)
    ensures Magnitude16(m + 1) == Magnitude16(m) + Step16(m)
    ensures m < 0x400 ==> Magnitude16(m) == m && Magnitude16(m + 1) == m + 1
  {
    hide Product, Pow2;
    if m == 0x3FF {
      FirstNormal();
    } else if m >= 0x400 {
      var e, f := m / 0x400, m % 0x400;
      NextInBinade(e, f);
      if f < 0x3FF { assert (m + 1) / 0x400 == e && (m + 1) % 0x400 == f + 1; }
      if f == 0x3FF { assert (m + 1) / 0x400 == e + 1 && (m + 1) % 0x400 == 0; }
    }
  }

  lemma FirstNormal()
    ensures Product(0x400, Pow2(0)) == 0x400
  {
    hide Product;
    ProductOne(0x400);
  }

  // One more in the last place; past the last fraction that is the first number of the next binade.
  lemma NextInBinade(e: nat, f: nat)
    requires 1 <= e && f < 0x400
    ensures Product(0x400 + f + 1, Pow2(e - 1)) == Product(0x400 + f, Pow2(e - 1)) + Pow2(e - 1)
    ensures f == 0x3FF ==> Product(0x400, Pow2(e)) == Product(0x400 + f, Pow2(e - 1)) + Pow2(e - 1)
  {
    hide Product;
    var unit := Pow2(e - 1);
    ProductAdd(0x400 + f, 1, unit);
    OnceIsItself(unit);
    ProductDouble(0x400, unit);
    ProductAdd(0x400, 0x400, unit);
  }

  lemma {:induction false} Value16Increases(low: nat, high: nat, unit: nat)
    requires low < high && unit > 0
    ensures Value16(low, unit) < Value16(high, unit)
    decreases high
  {
    NextMagnitude16(high - 1);
    ProductMonotone(Magnitude16(high - 1), Magnitude16(high), unit);
    if low < high - 1 { Value16Increases(low, high - 1, unit); }
  }

  // Between two neighbours, comparing twice the remainder with the gap rounds to nearest even.
  lemma RoundDown(x: nat, m: nat, unit: nat)
    requires m < INFINITY16 && unit > 0 && Value16(m, unit) <= x <= Value16(m + 1, unit)
    requires 2 * (x - Value16(m, unit)) < Value16(m + 1, unit) - Value16(m, unit)
             || (2 * (x - Value16(m, unit)) == Value16(m + 1, unit) - Value16(m, unit) && m % 2 == 0)
    ensures NearestEven(x, m, unit)
  {
    NeighbourValues(m, unit);
  }

  lemma RoundUp(x: nat, m: nat, unit: nat)
    requires m < INFINITY16 && unit > 0 && Value16(m, unit) <= x <= Value16(m + 1, unit)
    requires 2 * (x - Value16(m, unit)) > Value16(m + 1, unit) - Value16(m, unit)
             || (2 * (x - Value16(m, unit)) == Value16(m + 1, unit) - Value16(m, unit) && m % 2 == 1)
    ensures NearestEven(x, m + 1, unit)
  {
    NeighbourValues(m, unit);
  }

  lemma NeighbourValues(m: nat, unit: nat)
    requires unit > 0
    ensures forall k: nat :: k < m ==> Value16(k, unit) < Value16(m, unit)
    ensures forall k: nat :: k > m + 1 ==> Value16(m + 1, unit) < Value16(k, unit)
  {
    forall k: nat | k < m ensures Value16(k, unit) < Value16(m, unit) { Value16Increases(k, m, unit); }
    forall k: nat | k > m + 1 ensures Value16(m + 1, unit) < Value16(k, unit) { Value16Increases(m + 1, k, unit); }
  }

  lemma RoundBeyond(x: nat, unit: nat)
    requires unit > 0 && Value16(INFINITY16, unit) <= x
    ensures NearestEven(x, INFINITY16, unit)
  {
    forall k: nat | k < INFINITY16 ensures Value16(k, unit) < Value16(INFINITY16, unit) {
      Value16Increases(k, INFINITY16, unit);
    }
  }

  // Nearest-even rounding has one answer.
  lemma NearestEvenUnique(x: nat, m: nat, n: nat, unit: nat)
    requires unit > 0 && NearestEven(x, m, unit) && NearestEven(x, n, unit)
    ensures m == n
  {
    if m < n { EvenNeighbours(x, m, n, unit); }
    if n < m { EvenNeighbours(x, n, m, unit); }
  }

  // Two different nearest patterns would be even, and the pattern between them nearer still.
  lemma EvenNeighbours(x: nat, m: nat, n: nat, unit: nat)
    requires unit > 0 && m < n && NearestEven(x, m, unit)
    ensures !NearestEven(x, n, unit)
  {
    Value16Increases(m, m + 1, unit);
    if m + 1 < n { Value16Increases(m + 1, n, unit); }
  }

  // Rounding preserves order.
  lemma NearestEvenMonotone(x: nat, y: nat, m: nat, n: nat, unit: nat)
    requires unit > 0 && x <= y && NearestEven(x, m, unit) && NearestEven(y, n, unit)
    ensures m <= n
  {
    if n < m {
      Value16Increases(n, m, unit);
      if NearestEven(x, n, unit) { NearestEvenUnique(x, m, n, unit); }
    }
  }

  // ---- Encode ----

  const EXPONENT_MASK32: nat := 0x7F800000
  const MAGNITUDE_MASK32: nat := 0x7FFFFFFF
  const FRACTION_MASK32: nat := 0x007FFFFF
  const IMPLICIT_ONE32: nat := 0x00800000
  const UNDERFLOW_THRESHOLD32: nat := 0x33000000
  const TIE: nat := 0x80000000
  const PAYLOAD_MASK16: nat := 0x01FF

  lemma Pow2Values()
    ensures Pow2(1) == 2 && Pow2(8) == 0x100 && Pow2(9) == 0x200 && Pow2(10) == 0x400 && Pow2(13) == 0x2000
    ensures Pow2(15) == 0x8000 && Pow2(16) == 0x10000 && Pow2(23) == 0x800000 && Pow2(31) == 0x80000000
  {
    assert Pow2(2) == 4;
    assert Pow2(4) == 16;
    Pow2Add(4, 4);
    Pow2Add(8, 1);
    Pow2Add(8, 2);
    Pow2Add(9, 4);
    Pow2Add(13, 2);
    Pow2Add(8, 8);
    Pow2Add(15, 8);
    Pow2Add(23, 8);
  }

  // The fields that the masks select.
  lemma ExponentField32(v: nat)
    ensures And(v, EXPONENT_MASK32) == Exponent32(v) * 0x800000
    ensures And(Shr(v, 23), 0xFF) == Exponent32(v)
  {
    Pow2Values();
    ShiftUpProduct(Ones(8), 23);
    AndField(v, 23, 8);
    ShiftUpProduct(Exponent32(v), 23);
    AndOnes(Shr(v, 23), 8);
  }

  lemma FractionField32(v: nat)
    ensures And(v, FRACTION_MASK32) == Fraction32(v)
  {
    Pow2Values();
    AndOnes(v, 23);
  }

  // Of the values with the top exponent, infinity is the one without a fraction.
  lemma MagnitudeField32(v: nat)
    requires Exponent32(v) == 0xFF
    ensures And(v, MAGNITUDE_MASK32) == EXPONENT_MASK32 <==> Fraction32(v) == 0
  {
    Pow2Values();
    AndOnes(v, 31);
    CutTruncate(v, 23, 8);
    ShiftUpProduct(Exponent32(v), 23);
  }

  lemma SignField32(v: nat)
    requires v < 0x100000000
    ensures And(Shr(v, 16), SIGN16) == Pack16(Sign32(v), 0)
    ensures Sign32(v) <= 1
  {
    Pow2Values();
    ShiftUpProduct(Ones(1), 15);
    AndField(Shr(v, 16), 15, 1);
    ShrShr(v, 16, 15);
    Pow2Add(31, 1);
    ShrBelow(v, 31, 1);
    TruncateSmall(Sign32(v), 1);
    ShiftUpProduct(Sign32(v), 15);
  }

  lemma {:induction false} ShrBelow(a: nat, k: nat, width: nat)
    requires a < Pow2(k + width)
    ensures Shr(a, k) < Pow2(width)
  {
    if k > 0 { ShrBelow(a / 2, k - 1, width); }
  }

  lemma PayloadField32(v: nat)
    ensures And(Shr(v, 13), PAYLOAD_MASK16) == Payload32(v)
  {
    Pow2Values();
    AndOnes(Shr(v, 13), 9);
  }

  lemma {:induction false} CutTruncate(a: nat, k: nat, width: nat)
    ensures Truncate(a, k + width) == ShiftUp(Truncate(Shr(a, k), width), k) + Truncate(a, k)
  {
    if k > 0 { CutTruncate(a / 2, k - 1, width); }
  }

  lemma {:induction false} ShrShr(a: nat, j: nat, k: nat)
    ensures Shr(a, j + k) == Shr(Shr(a, j), k)
  {
    if j > 0 { ShrShr(a / 2, j - 1, k); }
  }

  // ---- The rounding step ----

  lemma {:induction false} ShiftUpIsProduct(q: nat, k: nat)
    ensures ShiftUp(q, k) == Product(q, Pow2(k))
  {
    if k == 0 {
      ProductOne(q);
    } else {
      ShiftUpIsProduct(q, k - 1);
      ProductDouble(q, Pow2(k - 1));
    }
  }

  // Comparing the shifted-out bits, moved to the top of a word, with the tie pattern.
  lemma {:induction false} CompareOnTop(r: nat, j: nat, n: nat)
    ensures ShiftUp(r, n) < Pow2(j + n) <==> r < Pow2(j)
    ensures ShiftUp(r, n) == Pow2(j + n) <==> r == Pow2(j)
  {
    if n > 0 { CompareOnTop(r, j, n - 1); }
  }

  // Keeping the bits of a significand above bit k as pattern m, and rounding by the bits below.
  lemma RoundSignificand(x: nat, significand: nat, k: nat, place: nat, m: nat, unit: nat)
    requires 1 <= k && place > 0 && unit > 0 && m < INFINITY16
    requires x == Product(significand, place)
    requires Value16(m, unit) == Product(Shr(significand, k), Product(Pow2(k), place))
    requires Value16(m + 1, unit) == Value16(m, unit) + Product(Pow2(k), place)
    ensures var r := Truncate(significand, k);
            NearestEven(x, if r > Pow2(k - 1) || (r == Pow2(k - 1) && m % 2 == 1) then m + 1 else m, unit)
  {
    hide Shr, Truncate, NearestEven;
    var q, r := Shr(significand, k), Truncate(significand, k);
    CutWord(significand, k);
    ShiftUpIsProduct(q, k);
    ProductAdd(Product(q, Pow2(k)), r, place);
    ProductAssociates(q, Pow2(k), place);
    assert x == Value16(m, unit) + Product(r, place);
    ProductMonotone(r, Pow2(k), place);
    ProductAdd(r, r, place);
    if r <= Pow2(k - 1) { ProductMonotone(2 * r, Pow2(k), place); }
    if r > Pow2(k - 1) { ProductMonotone(Pow2(k), 2 * r, place); }
    if r > Pow2(k - 1) || (r == Pow2(k - 1) && m % 2 == 1) {
      RoundUp(x, m, unit);
    } else {
      RoundDown(x, m, unit);
    }
  }

  lemma UnitIsPow2()
    ensures UNIT16 == Pow2(125)
  {
    Pow2Values();
    Pow2Add(31, 31);
    Pow2Add(62, 62);
    Pow2Add(124, 1);
  }

  lemma UnderflowRounds(v: nat)
    requires Exponent32(v) < 102
    ensures NearestEven(Magnitude32(v), 0, UNIT16)
  {
    UnitIsPow2();
    Pow2Values();
    if Exponent32(v) > 0 {
      var e := Exponent32(v) - 1;
      Pow2Add(23, 1);
      ProductMonotone(0x800000 + Fraction32(v), Pow2(24), Pow2(e));
      ProductPow2(24, e);
      Pow2Monotone(24 + e, 124);
    } else {
      Pow2Monotone(23, 124);
    }
    assert 2 * Magnitude32(v) < Pow2(125);
    assert Value16(0, UNIT16) == 0;
    assert Value16(1, UNIT16) == Product(0, UNIT16) + UNIT16;
    RoundDown(Magnitude32(v), 0, UNIT16);
  }

  lemma {:induction false} Pow2Monotone(j: nat, k: nat)
    requires j <= k
    ensures Pow2(j) <= Pow2(k)
    decreases k
  {
    if j < k { Pow2Monotone(j, k - 1); }
  }

  // A pattern with exponent e and leading digit q stands for q places of weight 2^(e - 1).
  lemma NormalValue(m: nat, e: nat, q: nat)
    requires 1 <= e && 0x400 <= q < 0x800 && m == q + (e - 1) * 0x400
    ensures Value16(m, UNIT16) == Product(q, Pow2(e + 124))
    ensures Value16(m + 1, UNIT16) == Value16(m, UNIT16) + Pow2(e + 124)
  {
    UnitIsPow2();
    assert m / 0x400 == e && m % 0x400 == q - 0x400;
    ProductAssociates(q, Pow2(e - 1), UNIT16);
    ProductPow2(e - 1, 125);
    NextMagnitude16(m);
    ProductAdd(Magnitude16(m), Step16(m), UNIT16);
  }

  lemma InfinityValue()
    ensures Value16(INFINITY16, UNIT16) == Pow2(165)
  {
    Pow2Values();
    NormalValue(INFINITY16, 31, Pow2(10));
    ProductPow2(10, 155);
  }

  lemma OverflowMagnitude(v: nat)
    requires 142 < Exponent32(v)
    ensures Pow2(165) <= Magnitude32(v)
  {
    hide Shr, Truncate, Product;
    Pow2Values();
    var e := Exponent32(v) - 1;
    ProductMonotone(Pow2(23), 0x800000 + Fraction32(v), Pow2(e));
    ProductPow2(23, e);
    Pow2Monotone(165, 23 + e);
  }

  lemma OverflowRounds(v: nat)
    requires 142 < Exponent32(v) < 0xFF
    ensures NearestEven(Magnitude32(v), INFINITY16, UNIT16)
  {
    InfinityValue();
    OverflowMagnitude(v);
    RoundBeyond(Magnitude32(v), UNIT16);
  }

  // From 65520 = 4095 * 16 on, and only from there on, rounding gives infinity.
  lemma OverflowThreshold(x: nat, m: nat)
    requires NearestEven(x, m, UNIT16)
    ensures m == INFINITY16 <==> Product(4095, Pow2(153)) <= x
  {
    hide Product, Pow2, Magnitude16, NearestEven;
    var top: nat := 0x7BFF;
    InfinityValue();
    NormalValue(top, 30, 2047);
    TopGap();
    if Product(4095, Pow2(153)) <= x {
      if x < Value16(INFINITY16, UNIT16) { RoundUp(x, top, UNIT16); } else { RoundBeyond(x, UNIT16); }
      NearestEvenUnique(x, m, INFINITY16, UNIT16);
    } else if m == INFINITY16 {
      CloserToTop(x, top);
    }
  }

  lemma TopGap()
    ensures Pow2(154) == 2 * Pow2(153) && Product(2047, Pow2(154)) == Product(4095, Pow2(153)) - Pow2(153)
    ensures Pow2(165) == Product(2047, Pow2(154)) + Pow2(154)
  {
    hide Product;
    Pow2Values();
    ProductDouble(2047, Pow2(153));
    ProductAdd(2047, 2047, Pow2(153));
    ProductAdd(4094, 1, Pow2(153));
    ProductAdd(2047, 1, Pow2(154));
    Pow2Add(10, 1);
    ProductPow2(11, 154);
    OnceIsItself(Pow2(153));
    OnceIsItself(Pow2(154));
  }

  lemma CloserToTop(x: nat, top: nat)
    requires top + 1 == INFINITY16 && Value16(top, UNIT16) < Value16(INFINITY16, UNIT16)
    requires 2 * x < Value16(top, UNIT16) + Value16(INFINITY16, UNIT16)
    ensures !NearestEven(x, INFINITY16, UNIT16)
  {
    hide Value16;
  }

  // A normal result: 13 bits are dropped.
  lemma NormalRounds(v: nat, m: nat)
    requires 113 <= Exponent32(v) <= 142
    requires m == Shr(0x800000 + Fraction32(v), 13) + (Exponent32(v) - 113) * 0x400
    ensures 0x400 <= Shr(0x800000 + Fraction32(v), 13) < 0x800 && m < INFINITY16
    ensures var r := Truncate(0x800000 + Fraction32(v), 13);
            NearestEven(Magnitude32(v), if r > Pow2(12) || (r == Pow2(12) && m % 2 == 1) then m + 1 else m, UNIT16)
  {
    var significand, e := 0x800000 + Fraction32(v), Exponent32(v);
    NormalFits(significand);
    NormalValue(m, e - 112, Shr(significand, 13));
    ProductPow2(13, e - 1);
    RoundSignificand(Magnitude32(v), significand, 13, Pow2(e - 1), m, UNIT16);
  }

  lemma NormalFits(significand: nat)
    requires 0x800000 <= significand < 0x1000000
    ensures 0x400 <= Shr(significand, 13) < 0x800
  {
    Pow2Values();
    ShrIsQuotient(significand, 13);
  }

  // A subnormal result: the exponent becomes zero and more bits are dropped.
  lemma SubnormalRounds(v: nat, shift: nat)
    requires 102 <= Exponent32(v) < 113 && shift == 126 - Exponent32(v)
    ensures Shr(0x800000 + Fraction32(v), shift) < 0x400
    ensures var r := Truncate(0x800000 + Fraction32(v), shift);
            var m := Shr(0x800000 + Fraction32(v), shift);
            NearestEven(Magnitude32(v),
                        if r > Pow2(shift - 1) || (r == Pow2(shift - 1) && m % 2 == 1) then m + 1 else m, UNIT16)
  {
    hide Shr, Truncate, NearestEven, Pow2, Exponent32, Fraction32;
    var significand := 0x800000 + Fraction32(v);
    var e := Exponent32(v);
    var m := Shr(significand, shift);
    SubnormalFits(significand, shift);
    UnitIsPow2();
    ProductPow2(shift, e - 1);
    NextMagnitude16(m);
    ProductAdd(m, 1, UNIT16);
    assert Product(1, UNIT16) == Product(0, UNIT16) + UNIT16;
    RoundSignificand(Magnitude32(v), significand, shift, Pow2(e - 1), m, UNIT16);
  }

  lemma SubnormalFits(significand: nat, shift: nat)
    requires significand < 0x1000000 && 14 <= shift
    ensures Shr(significand, shift) < 0x400
  {
    Pow2Values();
    Pow2Add(23, 1);
    Pow2Monotone(24, 10 + shift);
    ShrBelow(significand, shift, 10);
  }

  // ---- The two conversions ----

  function Pack16(sign: nat, m: nat): nat {
    sign * SIGN16 + m
  }

  // value |= field, for a value that so far holds only the sign.
  lemma SignOr(sign: nat, m: nat)
    requires sign <= 1 && m < SIGN16
    ensures Or(Pack16(sign, 0), m) == Pack16(sign, m)
    ensures Truncate(Pack16(sign, m), 16) == Pack16(sign, m)
    ensures Pack16(sign, m) < 0x10000
    ensures Sign16(Pack16(sign, m)) == sign && Pattern16(Pack16(sign, m)) == m
  {
    Pow2Values();
    ShiftUpProduct(sign, 15);
    OrAbove(sign, m, 15);
    TruncateSmall(Pack16(sign, m), 16);
    SplitPack(sign, m, 15);
  }

  lemma {:induction false} SplitPack(high: nat, low: nat, k: nat)
    requires low < Pow2(k)
    ensures Shr(ShiftUp(high, k) + low, k) == high && Truncate(ShiftUp(high, k) + low, k) == low
  {
    if k > 0 {
      var a := ShiftUp(high, k) + low;
      assert a / 2 == ShiftUp(high, k - 1) + low / 2 && a % 2 == low % 2;
      SplitPack(high, low / 2, k - 1);
    }
  }

  // The shifted-out part of a significand, compared with the tie pattern.
  lemma TailOnTop(significand: nat, k: nat)
    requires 1 <= k <= 32
    ensures Shl(32, significand, 32 - k) > TIE <==> Truncate(significand, k) > Pow2(k - 1)
    ensures Shl(32, significand, 32 - k) == TIE <==> Truncate(significand, k) == Pow2(k - 1)
  {
    Pow2Values();
    ShlToTop(32, significand, k);
    CompareOnTop(Truncate(significand, k), k - 1, 32 - k);
  }

  // m holds the kept bits and `tail` the dropped ones, moved to the top of a word.
  ghost predicate RoundsFrom(v: nat, m: nat, tail: nat) {
    m < INFINITY16 && NearestEven(Magnitude32(v), if RoundsUp(m, tail) then m + 1 else m, UNIT16)
  }

  lemma SubnormalStep(v: nat, sign: nat, shift: nat)
    requires 102 <= Exponent32(v) < 113 && shift == 126 - Exponent32(v) && sign <= 1
    ensures var significand := 0x800000 + Fraction32(v);
            var m := Shr(significand, shift);
            && Truncate(Or(Pack16(sign, 0), m), 16) == Pack16(sign, m)
            && RoundsFrom(v, m, Shl(32, significand, 32 - shift))
  {
    SubnormalRounds(v, shift);
    TailOnTop(0x800000 + Fraction32(v), shift);
    SignOr(sign, Shr(0x800000 + Fraction32(v), shift));
  }

  lemma NormalPack(sign: nat, q: nat, e: nat)
    requires sign <= 1 && 0x400 <= q < 0x800 && e < 30
    ensures Truncate(Or(Pack16(sign, 0), q), 16) == Pack16(sign, q)
    ensures Truncate(Pack16(sign, q) + e * 0x400, 16) == Pack16(sign, q + e * 0x400)
  {
    hide Truncate, Or, Shr;
    SignOr(sign, q);
    SignOr(sign, q + e * 0x400);
  }

  lemma NormalStep(v: nat, sign: nat)
    requires 113 <= Exponent32(v) <= 142 && sign <= 1
    ensures var significand := 0x800000 + Fraction32(v);
            var q := Shr(significand, 13);
            var m := q + (Exponent32(v) - 113) * 0x400;
            && Truncate(Or(Pack16(sign, 0), q), 16) == Pack16(sign, q)
            && Truncate(Pack16(sign, q) + (Exponent32(v) - 113) * 0x400, 16) == Pack16(sign, m)
            && RoundsFrom(v, m, Shl(32, significand, 19))
  {
    hide Truncate, Or, Shr, Shl, Pow2, NearestEven;
    var q := Shr(0x800000 + Fraction32(v), 13);
    var m := q + (Exponent32(v) - 113) * 0x400;
    NormalRounds(v, m);
    NormalPack(sign, q, Exponent32(v) - 113);
    NormalTail(v, m);
  }

  lemma NormalTail(v: nat, m: nat)
    requires m < INFINITY16
    requires var r := Truncate(0x800000 + Fraction32(v), 13);
             NearestEven(Magnitude32(v), if r > Pow2(12) || (r == Pow2(12) && m % 2 == 1) then m + 1 else m, UNIT16)
    ensures RoundsFrom(v, m, Shl(32, 0x800000 + Fraction32(v), 19))
  {
    TailOnTop(0x800000 + Fraction32(v), 13);
  }

  lemma FiniteResult(v: nat, m: nat)
    requires v < 0x100000000 && Exponent32(v) < 0xFF && NearestEven(Magnitude32(v), m, UNIT16)
    ensures Encodes(v, Pack16(Sign32(v), m))
  {
    SignField32(v);
    SignOr(Sign32(v), m);
  }

  predicate RoundsUp(m: nat, tail: nat) {
    tail > TIE || (tail == TIE && m % 2 == 1)
  }

  lemma FinalStep(v: nat, m: nat, tail: nat)
    requires v < 0x100000000 && Exponent32(v) < 0xFF && RoundsFrom(v, m, tail)
    ensures RoundsUp(m, tail) ==> Encodes(v, Truncate(Pack16(Sign32(v), m) + 1, 16))
    ensures !RoundsUp(m, tail) ==> Encodes(v, Pack16(Sign32(v), m))
  {
    if RoundsUp(m, tail) {
      SignField32(v);
      SignOr(Sign32(v), m + 1);
      FiniteResult(v, m + 1);
    } else {
      FiniteResult(v, m);
    }
  }

  lemma PackParity(sign: nat, m: nat)
    ensures And(Pack16(sign, m), 1) == m % 2
  {
    hide And;
    LastBit(Pack16(sign, m));
    assert Pack16(sign, m) == 2 * (sign * 0x4000) + m;
  }

  lemma {:induction false} LastBit(a: nat)
    ensures And(a, 1) == a % 2
  {
    if a != 0 { AndNothing(a / 2); }
  }

  lemma {:induction false} AndNothing(a: nat)
    ensures And(a, 0) == 0
  {
    if a != 0 { AndNothing(a / 2); }
  }

  lemma SpecialStep(v: nat)
    requires v < 0x100000000 && Exponent32(v) == 0xFF
    ensures Encodes(v, if Fraction32(v) == 0 then Or(Pack16(Sign32(v), 0), INFINITY16)
                       else Or(Pack16(Sign32(v), 0), Or(QUIET_NAN16, And(Shr(v, 13), PAYLOAD_MASK16))))
  {
    SignField32(v);
    if Fraction32(v) == 0 {
      SignOr(Sign32(v), INFINITY16);
    } else {
      PayloadField32(v);
      QuietPayload(Payload32(v));
      SignOr(Sign32(v), QUIET_NAN16 + Payload32(v));
    }
  }

  lemma ExtremeStep(v: nat)
    requires v < 0x100000000
    ensures Exponent32(v) < 102 ==> Encodes(v, Pack16(Sign32(v), 0))
    ensures 142 < Exponent32(v) < 0xFF ==> Encodes(v, Or(Pack16(Sign32(v), 0), INFINITY16))
  {
    if Exponent32(v) < 102 {
      UnderflowRounds(v);
      FiniteResult(v, 0);
    }
    if 142 < Exponent32(v) < 0xFF {
      OverflowRounds(v);
      SignField32(v);
      SignOr(Sign32(v), INFINITY16);
      FiniteResult(v, INFINITY16);
    }
  }

  method Encode(value: nat) returns (encoded: nat)
    requires value < 0x100000000
    ensures Encodes(value, encoded)
  {
    hide Truncate, Or, And, Shr, Shl, Pow2, Sign32, Fraction32, Exponent32, Pattern16, Payload32, NearestEven,
         Magnitude32;
    var bits := value;
    ghost var sign := Sign32(value);
    SignField32(bits);
    ExponentField32(bits);
    encoded := And(Shr(bits, 16), SIGN16);

    if And(bits, EXPONENT_MASK32) == EXPONENT_MASK32 {
      SpecialStep(value);
      MagnitudeField32(value);
      if And(bits, MAGNITUDE_MASK32) == EXPONENT_MASK32 {
        encoded := Or(encoded, INFINITY16);
      } else {
        encoded := Or(encoded, Or(QUIET_NAN16, And(Shr(bits, 13), PAYLOAD_MASK16)));
      }
      return;
    }

    ExtremeStep(value);
    if And(bits, EXPONENT_MASK32) < UNDERFLOW_THRESHOLD32 {
      return;
    }

    var exponent: int := And(Shr(bits, 23), 0xFF) - 127;
    if exponent > 15 {
      return Or(encoded, INFINITY16);
    }

    FractionField32(bits);
    ImplicitOne(Fraction32(bits));
    bits := Or(And(bits, FRACTION_MASK32), IMPLICIT_ONE32);
    ghost var m: nat;
    if exponent < -14 {
      var shift: nat := -1 - exponent;
      SubnormalStep(value, sign, shift);
      m := Shr(bits, shift);
      encoded := Truncate(Or(encoded, Shr(bits, shift)), 16);
      bits := Shl(32, bits, 32 - shift);
    } else {
      NormalStep(value, sign);
      m := Shr(bits, 13) + (14 + exponent) * 0x400;
      encoded := Truncate(Or(encoded, Shr(bits, 13)), 16);
      bits := Shl(32, bits, 19);
      encoded := Truncate(encoded + (14 + exponent) * 0x400, 16);
    }

    FinalStep(value, m, bits);
    PackParity(sign, m);
    if bits > TIE || (bits == TIE && And(encoded, 1) != 0) {
      encoded := Truncate(encoded + 1, 16);
    }
  }

  lemma QuietPayload(payload: nat)
    requires payload < 0x200
    ensures Or(QUIET_NAN16, payload) == QUIET_NAN16 + payload
  {
    Pow2Values();
    ShiftUpProduct(0x3F, 9);
    OrAbove(0x3F, payload, 9);
  }

  lemma ImplicitOne(fraction: nat)
    requires fraction < 0x800000
    ensures Or(fraction, IMPLICIT_ONE32) == 0x800000 + fraction
  {
    Pow2Values();
    ShiftUpProduct(1, 23);
    OrAbove(1, fraction, 23);
  }

  // ---- Decode ----

  // What Decode promises of every input: the same value; of a NaN, the payload with the quiet bit set.
  ghost predicate Decodes(h: nat, v: nat) {
    && v < 0x100000000
    && Sign32(v) == Sign16(h)
    && if Pattern16(h) < INFINITY16 then Exponent32(v) < 0xFF && Magnitude32(v) == Value16(Pattern16(h), UNIT16)
       else Exponent32(v) == 0xFF
            && Fraction32(v) ==
               if Pattern16(h) == INFINITY16 then 0 else ShiftUp(Or(Pattern16(h) - INFINITY16, 0x200), 13)
  }

  function Pack32(sign: nat, e: nat, f: nat): nat {
    sign * 0x80000000 + e * 0x800000 + f
  }

  lemma Pack32Fields(sign: nat, e: nat, f: nat)
    requires sign <= 1 && e < 0x100 && f < 0x800000
    ensures Pack32(sign, e, f) < 0x100000000
    ensures Sign32(Pack32(sign, e, f)) == sign && Exponent32(Pack32(sign, e, f)) == e
            && Fraction32(Pack32(sign, e, f)) == f
    ensures Or(Pack32(sign, 0, 0), Shl(32, e, 23)) == Pack32(sign, e, 0)
    ensures Or(Pack32(sign, e, 0), f) == Pack32(sign, e, f)
  {
    hide Shr, Truncate, Or, Shl, Pow2;
    SplitPack32(sign, e, f);
    OrPack32(sign, e, f);
  }

  lemma SplitPack32(sign: nat, e: nat, f: nat)
    requires sign <= 1 && e < 0x100 && f < 0x800000
    ensures Sign32(Pack32(sign, e, f)) == sign && Exponent32(Pack32(sign, e, f)) == e
            && Fraction32(Pack32(sign, e, f)) == f
  {
    hide Shr, Truncate, ShiftUp, Pow2;
    Pow2Values();
    ShiftUpProduct(sign, 31);
    ShiftUpProduct(sign * 0x100 + e, 23);
    SplitPack(sign, e * 0x800000 + f, 31);
    SplitPack(sign * 0x100 + e, f, 23);
    ShiftUpProduct(sign, 8);
    SplitPack(sign, e, 8);
  }

  lemma OrPack32(sign: nat, e: nat, f: nat)
    requires sign <= 1 && e < 0x100 && f < 0x800000
    ensures Or(Pack32(sign, 0, 0), Shl(32, e, 23)) == Pack32(sign, e, 0)
    ensures Or(Pack32(sign, e, 0), f) == Pack32(sign, e, f)
  {
    hide Or, Shl, ShiftUp, Pow2;
    Pow2Values();
    Pow2Add(31, 1);
    ShiftUpProduct(sign, 31);
    ShiftUpProduct(e, 23);
    ShiftUpProduct(sign * 0x100 + e, 23);
    ShlFits(e, 23);
    OrAbove(sign, e * 0x800000, 31);
    OrAbove(sign * 0x100 + e, f, 23);
  }

  lemma ShlFits(a: nat, k: nat)
    requires ShiftUp(a, k) < Pow2(32)
    ensures Shl(32, a, k) == ShiftUp(a, k)
  {
    hide Truncate, ShiftUp;
    TruncateSmall(ShiftUp(a, k), 32);
  }

  // The fields of a binary16 pattern, as Decode takes them apart.
  lemma Fields16(h: nat)
    requires h < 0x10000
    ensures Sign16(h) <= 1 && h == Pack16(Sign16(h), Pattern16(h))
    ensures Shl(32, And(h, SIGN16), 16) == Pack32(Sign16(h), 0, 0)
    ensures Shr(And(h, 0x7C00), 10) == Pattern16(h) / 0x400
    ensures And(h, 0x3FF) == Pattern16(h) % 0x400
  {
    hide Shr, Truncate, And, Shl, Ones;
    Pow2Values();
    CutWord(h, 15);
    ShiftUpProduct(Sign16(h), 15);
    SignBit16(h);
    ExponentBits16(h);
    FractionBits16(h);
  }

  lemma SignBit16(h: nat)
    requires h < 0x10000
    ensures Sign16(h) <= 1
    ensures Shl(32, And(h, SIGN16), 16) == Pack32(Sign16(h), 0, 0)
  {
    hide Shr, Truncate, And, Shl;
    Pow2Values();
    Pow2Add(15, 1);
    Pow2Add(31, 1);
    ShrBelow(h, 15, 1);
    ShiftUpProduct(Ones(1), 15);
    AndField(h, 15, 1);
    TruncateSmall(Sign16(h), 1);
    ShiftUpProduct(Sign16(h), 15);
    ShiftUpProduct(Sign16(h) * 0x8000, 16);
    ShlFits(Sign16(h) * 0x8000, 16);
  }

  lemma ExponentBits16(h: nat)
    ensures Shr(And(h, 0x7C00), 10) == Pattern16(h) / 0x400
  {
    hide Shr, Truncate, And;
    Pow2Values();
    assert Pow2(5) == 32;
    ShiftUpProduct(Ones(5), 10);
    AndField(h, 10, 5);
    SplitPack(Truncate(Shr(h, 10), 5), 0, 10);
    CutTruncate(h, 10, 5);
    ShiftUpProduct(Truncate(Shr(h, 10), 5), 10);
  }

  lemma FractionBits16(h: nat)
    ensures And(h, 0x3FF) == Pattern16(h) % 0x400
  {
    hide Shr, Truncate, And;
    Pow2Values();
    AndOnes(h, 10);
    CutTruncate(h, 10, 5);
    ShiftUpProduct(Truncate(Shr(h, 10), 5), 10);
  }

  // A significand n with 1024 <= n < 2048 at exponent e: the same number in binary32.
  lemma NormalizedMagnitude(sign: nat, e: nat, n: nat)
    requires sign <= 1 && 1 <= e < 0xFF && 0x400 <= n < 0x800
    ensures Magnitude32(Pack32(sign, e, (n - 0x400) * 0x2000)) == Product(n, Pow2(e + 12))
  {
    hide Pow2, Product, Exponent32, Fraction32, Sign32, Or, Shl, Pack32;
    Pack32Fields(sign, e, (n - 0x400) * 0x2000);
    WidenSignificand(n, e);
  }

  lemma WidenSignificand(n: nat, e: nat)
    requires 1 <= e
    ensures Product(n * 0x2000, Pow2(e - 1)) == Product(n, Pow2(e + 12))
  {
    hide Product;
    Pow2Values();
    ShiftUpProduct(n, 13);
    ShiftUpIsProduct(n, 13);
    ProductAssociates(n, Pow2(13), Pow2(e - 1));
    ProductPow2(13, e - 1);
  }

  lemma ShiftSignificand(f: nat)
    requires f < 0x400
    ensures Shl(32, f, 13) == f * 0x2000
  {
    hide Shl;
    Pow2Values();
    Pow2Add(31, 1);
    ShiftUpProduct(f, 13);
    ShlFits(f, 13);
  }

  // One round of the loop that renormalizes a subnormal.
  lemma Renormalize(n: nat, m: nat, j: nat)
    requires j <= 10 && Pow2(j) <= n < 0x400 && Product(n, Pow2(125 - j)) == Product(m, UNIT16)
    ensures j < 10
    ensures Shl(32, n, 1) == 2 * n && Pow2(j + 1) <= 2 * n
    ensures Product(2 * n, Pow2(125 - (j + 1))) == Product(m, UNIT16)
  {
    hide Shl, Product;
    Pow2Values();
    Pow2Add(31, 1);
    ShlFits(n, 1);
    assert ShiftUp(n, 1) == 2 * ShiftUp(n, 0);
    ProductAdd(n, n, Pow2(124 - j));
    ProductDouble(n, Pow2(124 - j));
    assert Pow2(125 - j) == 2 * Pow2(124 - j);
  }

  lemma TestBit10(n: nat)
    requires n < 0x800
    ensures And(n, 0x400) == 0 <==> n < 0x400
    ensures n >= 0x400 ==> And(n, 0x3FF) == n - 0x400
  {
    hide And, Shr, Truncate;
    Pow2Values();
    Pow2Add(10, 1);
    ShiftUpProduct(Ones(1), 10);
    AndField(n, 10, 1);
    ShrBelow(n, 10, 1);
    TruncateSmall(Shr(n, 10), 1);
    CutWord(n, 10);
    ShiftUpProduct(Shr(n, 10), 10);
    AndOnes(n, 10);
  }

  lemma DecodedNormal(h: nat, e: nat, f: nat)
    requires h < 0x10000 && Pattern16(h) == e * 0x400 + f && 1 <= e < 0x1F && f < 0x400
    ensures Decodes(h, Pack32(Sign16(h), e + 112, f * 0x2000))
  {
    hide Sign16, Sign32, Exponent32, Fraction32, Pattern16, Product;
    Fields16(h);
    Pack32Fields(Sign16(h), e + 112, f * 0x2000);
    NormalizedMagnitude(Sign16(h), e + 112, 0x400 + f);
    NormalValue(Pattern16(h), e, 0x400 + f);
  }

  lemma DecodedSubnormal(h: nat, j: nat, n: nat)
    requires h < 0x10000 && Pattern16(h) < 0x400 && j <= 10 && 0x400 <= n < 0x800
    requires Product(n, Pow2(125 - j)) == Product(Pattern16(h), UNIT16)
    ensures Decodes(h, Pack32(Sign16(h), 113 - j, (n - 0x400) * 0x2000))
  {
    hide Sign16, Sign32, Exponent32, Fraction32, Pattern16, Product;
    Fields16(h);
    Pack32Fields(Sign16(h), 113 - j, (n - 0x400) * 0x2000);
    NormalizedMagnitude(Sign16(h), 113 - j, n);
  }

  lemma DecodedZero(h: nat)
    requires h < 0x10000 && Pattern16(h) == 0
    ensures Decodes(h, Pack32(Sign16(h), 0, 0))
  {
    Fields16(h);
    Pack32Fields(Sign16(h), 0, 0);
    assert Product(0, UNIT16) == 0;
  }

  lemma DecodedInfinity(h: nat)
    requires h < 0x10000 && Pattern16(h) == INFINITY16
    ensures Decodes(h, Pack32(Sign16(h), 0xFF, 0))
  {
    hide Sign16, Sign32, Exponent32, Fraction32, Pattern16, Pack32;
    Fields16(h);
    Pack32Fields(Sign16(h), 0xFF, 0);
  }

  lemma DecodedNaN(h: nat, f: nat)
    requires h < 0x10000 && Pattern16(h) == INFINITY16 + f && 0 < f < 0x400
    ensures Decodes(h, Or(Or(Pack32(Sign16(h), 0xFF, 0), Shl(32, f, 13)), 0x00400000))
  {
    hide Sign16, Sign32, Exponent32, Fraction32, Pattern16, Or, Shl, ShiftUp, Pack32;
    Fields16(h);
    QuietFraction(Sign16(h), f);
    Pack32Fields(Sign16(h), 0xFF, ShiftUp(Or(f, 0x200), 13));
  }

  lemma QuietFraction(sign: nat, f: nat)
    requires sign <= 1 && f < 0x400
    ensures ShiftUp(Or(f, 0x200), 13) < 0x800000
    ensures Or(Or(Pack32(sign, 0xFF, 0), Shl(32, f, 13)), 0x00400000) == Pack32(sign, 0xFF, ShiftUp(Or(f, 0x200), 13))
  {
    hide Or, Shl, Pack32, ShiftUp, Pow2, Sign32, Exponent32, Fraction32;
    Pow2Values();
    OrBelow(f, 0x200, 10);
    ShiftUpProduct(Or(f, 0x200), 13);
    ShiftUpProduct(0x200, 13);
    ShiftSignificand(f);
    ShiftUpProduct(f, 13);
    Pack32Fields(sign, 0xFF, f * 0x2000);
    Pack32Fields(sign, 0xFF, ShiftUp(Or(f, 0x200), 13));
    OrShiftUp(f, 0x200, 13);
    OrAssociates(Pack32(sign, 0xFF, 0), f * 0x2000, 0x00400000);
  }

  lemma {:induction false} OrShiftUp(a: nat, b: nat, k: nat)
    ensures Or(ShiftUp(a, k), ShiftUp(b, k)) == ShiftUp(Or(a, b), k)
  {
    if k > 0 { OrShiftUp(a, b, k - 1); }
  }

  lemma {:induction false} OrAssociates(a: nat, b: nat, c: nat)
    ensures Or(Or(a, b), c) == Or(a, Or(b, c))
  {
    forall i: nat ensures Bit(Or(Or(a, b), c), i) <==> Bit(Or(a, Or(b, c)), i) {
      BitOr(Or(a, b), c, i);
      BitOr(a, b, i);
      BitOr(a, Or(b, c), i);
      BitOr(b, c, i);
    }
    SameBits(Or(Or(a, b), c), Or(a, Or(b, c)));
  }

  method Decode(value: nat) returns (bits: nat)
    requires value < 0x10000
    ensures Decodes(value, bits)
  {
    hide Sign16, Sign32, Exponent32, Fraction32, Pattern16, Or, Shl, Shr, And, Pow2, Product, Pack32, Decodes, Truncate;
    Fields16(value);
    ghost var sign := Sign16(value);
    bits := Shl(32, And(value, SIGN16), 16);
    var exponent := Shr(And(value, 0x7C00), 10);
    var mantissa := And(value, 0x3FF);

    if exponent == 0 {
      if mantissa == 0 {
        DecodedZero(value);
        return;
      }
      var normalizedMantissa := mantissa;
      var normalizedExponent := -14;
      ghost var j: nat := 0;
      StartRenormalize(mantissa);
      TestBit10(normalizedMantissa);
      while And(normalizedMantissa, 0x400) == 0
        invariant j <= 10 && normalizedExponent == -14 - j
        invariant Pow2(j) <= normalizedMantissa < 0x800
        invariant Product(normalizedMantissa, Pow2(125 - j)) == Product(mantissa, UNIT16)
        invariant And(normalizedMantissa, 0x400) == 0 <==> normalizedMantissa < 0x400
        decreases 10 - j
      {
        Renormalize(normalizedMantissa, mantissa, j);
        normalizedMantissa := Shl(32, normalizedMantissa, 1);
        normalizedExponent := normalizedExponent - 1;
        j := j + 1;
        TestBit10(normalizedMantissa);
      }
      DecodedSubnormal(value, j, normalizedMantissa);
      TestBit10(normalizedMantissa);
      normalizedMantissa := And(normalizedMantissa, 0x3FF);
      Pack32Fields(sign, 113 - j, normalizedMantissa * 0x2000);
      ShiftSignificand(normalizedMantissa);
      bits := Or(bits, Shl(32, normalizedExponent + 127, 23));
      bits := Or(bits, Shl(32, normalizedMantissa, 13));
      return;
    }

    if exponent == 0x1F {
      if mantissa == 0 { DecodedInfinity(value); } else { DecodedNaN(value, mantissa); }
      Infinity32(sign);
      bits := Or(bits, EXPONENT_MASK32);
      if mantissa != 0 {
        bits := Or(bits, Shl(32, mantissa, 13));
        bits := Or(bits, 0x00400000);
      }
      return;
    }

    DecodedNormal(value, exponent, mantissa);
    Pack32Fields(sign, exponent + 112, mantissa * 0x2000);
    ShiftSignificand(mantissa);
    bits := Or(bits, Shl(32, exponent + (127 - 15), 23));
    bits := Or(bits, Shl(32, mantissa, 13));
    WholeWord32(bits);
    bits := And(bits, 0xFFFFFFFF);
  }

  lemma StartRenormalize(m: nat)
    ensures Pow2(0) == 1 && Product(m, Pow2(125)) == Product(m, UNIT16)
  {
    UnitIsPow2();
  }

  lemma Infinity32(sign: nat)
    requires sign <= 1
    ensures Or(Pack32(sign, 0, 0), EXPONENT_MASK32) == Pack32(sign, 0xFF, 0)
  {
    hide Or, Shl, Sign32, Exponent32, Fraction32;
    Pow2Values();
    Pow2Add(31, 1);
    Pack32Fields(sign, 0xFF, 0);
    ShiftUpProduct(0xFF, 23);
    ShlFits(0xFF, 23);
  }

  lemma WholeWord32(v: nat)
    requires v < 0x100000000
    ensures And(v, 0xFFFFFFFF) == v
  {
    hide And, Truncate;
    Pow2Values();
    Pow2Add(31, 1);
    AndOnes(v, 32);
    TruncateSmall(v, 32);
  }

  // ---- The two together ----

  // Encode undoes Decode, except that a NaN comes back quiet.
  lemma EncodeAfterDecode(h: nat, v: nat, h': nat)
    requires h < 0x10000 && Decodes(h, v) && Encodes(v, h')
    ensures Pattern16(h) <= INFINITY16 ==> h' == h
    ensures Pattern16(h) > INFINITY16 ==> h' == Pack16(Sign16(h), INFINITY16 + Or(Pattern16(h) - INFINITY16, 0x200))
  {
    hide Sign16, Sign32, Exponent32, Fraction32, Pattern16, Or, Payload32, Pack16, Magnitude32, NearestEven, Value16;
    Fields16(h);
    Fields16(h');
    if Pattern16(h) < INFINITY16 {
      ExactRounds(Pattern16(h), UNIT16);
      NearestEvenUnique(Magnitude32(v), Pattern16(h), Pattern16(h'), UNIT16);
    } else if Pattern16(h) > INFINITY16 {
      QuietPayloadKept(v, Pattern16(h) - INFINITY16);
    }
  }

  lemma ExactRounds(m: nat, unit: nat)
    requires m <= INFINITY16 && unit > 0
    ensures NearestEven(Value16(m, unit), m, unit)
  {
    forall k: nat | k <= INFINITY16 && k != m ensures Value16(k, unit) != Value16(m, unit) {
      if k < m { Value16Increases(k, m, unit); } else { Value16Increases(m, k, unit); }
    }
  }

  lemma QuietPayloadKept(v: nat, f: nat)
    requires 0 < f < 0x400 && Fraction32(v) == ShiftUp(Or(f, 0x200), 13)
    ensures Fraction32(v) != 0
    ensures QUIET_NAN16 + Payload32(v) == INFINITY16 + Or(f, 0x200)
  {
    hide Shr, Truncate, Or;
    Pow2Values();
    var q := Or(f, 0x200);
    OrBelow(f, 0x200, 10);
    OrAtLeast(f, 0x200);
    ShiftUpProduct(q, 13);
    var high := Truncate(Shr(v, 13), 10);
    CutTruncate(v, 13, 10);
    SplitPack(high, Truncate(v, 13), 13);
    SplitPack(q, 0, 13);
    assert high == q;
    CutTruncate(Shr(v, 13), 9, 1);
    ShiftUpProduct(Truncate(Shr(Shr(v, 13), 9), 1), 9);
  }

  lemma {:induction false} OrAtLeast(a: nat, b: nat)
    ensures b <= Or(a, b)
  {
    if a != 0 { OrAtLeast(a / 2, b / 2); }
  }

  // Order of binary32 and of binary16 values; an infinite pattern reads as a number beyond all finite
  // ones, and the two zeros are equal.
  predicate IsNaN32(v: nat) {
    Exponent32(v) == 0xFF && Fraction32(v) != 0
  }

  function Signed32(v: nat): int {
    if Sign32(v) == 0 then Magnitude32(v) else 0 - Magnitude32(v)
  }

  function Signed16(h: nat): int {
    if Sign16(h) == 0 then Pattern16(h) else 0 - Pattern16(h)
  }

  lemma AlwaysNearest(v: nat, h: nat)
    requires v < 0x100000000 && !IsNaN32(v) && Encodes(v, h)
    ensures NearestEven(Magnitude32(v), Pattern16(h), UNIT16)
  {
    hide NearestEven, Pow2, Product, Exponent32, Fraction32, Pattern16;
    if Exponent32(v) == 0xFF {
      OverflowMagnitude(v);
      InfinityValue();
      RoundBeyond(Magnitude32(v), UNIT16);
    }
  }

  // Encode preserves order over all pairs of non-NaN inputs.
  lemma EncodeMonotone(v: nat, w: nat, h: nat, k: nat)
    requires v < 0x100000000 && w < 0x100000000 && !IsNaN32(v) && !IsNaN32(w)
    requires Encodes(v, h) && Encodes(w, k) && Signed32(v) <= Signed32(w)
    ensures Signed16(h) <= Signed16(k)
  {
    hide NearestEven, Pow2, Product, Exponent32, Fraction32, Pattern16, Sign32, Sign16, Magnitude32;
    AlwaysNearest(v, h);
    AlwaysNearest(w, k);
    if Magnitude32(v) <= Magnitude32(w) {
      NearestEvenMonotone(Magnitude32(v), Magnitude32(w), Pattern16(h), Pattern16(k), UNIT16);
    }
    if Magnitude32(w) <= Magnitude32(v) {
      NearestEvenMonotone(Magnitude32(w), Magnitude32(v), Pattern16(k), Pattern16(h), UNIT16);
    }
    if Magnitude32(v) == 0 { ZeroRoundsToZero(Pattern16(h)); }
    if Magnitude32(w) == 0 { ZeroRoundsToZero(Pattern16(k)); }
  }

  lemma ZeroRoundsToZero(m: nat)
    requires NearestEven(0, m, UNIT16)
    ensures m == 0
  {
    ExactRounds(0, UNIT16);
    assert Value16(0, UNIT16) == 0;
    NearestEvenUnique(0, 0, m, UNIT16);
  }
}
