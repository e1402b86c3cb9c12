// Unsigned machine words as naturals, with the bit operations that the C++ sources apply to them.
// A word of W bits is a natural below Pow2(W); W is a parameter, so one set of lemmas serves
// every unsigned type.
module Bits {
  import opened DivMod

  function Pow2(k: nat): (p: nat)
    ensures 0 < p
  {
    if k == 0 then 1 else 2 * Pow2(k - 1)
  }

  // Bit i of w, counted from the least significant.
  predicate Bit(w: nat, i: nat) {
    if i == 0 then w % 2 == 1 else Bit(w / 2, i - 1)
  }

  function And(a: nat, b: nat): nat {
    if a == 0 then 0
    else (if a % 2 == 1 && b % 2 == 1 then 1 else 0) + 2 * And(a / 2, b / 2)
  }

  function Or(a: nat, b: nat): nat {
    if a == 0 then b
    else (if a % 2 == 1 || b % 2 == 1 then 1 else 0) + 2 * Or(a / 2, b / 2)
  }

  // ~a in a word of width bits.
  function Not(width: nat, a: nat): nat
    requires a < Pow2(width)
  {
    Pow2(width) - 1 - a
  }

  function Ones(width: nat): nat {
    Pow2(width) - 1
  }

  function Shr(a: nat, k: nat): nat {
    if k == 0 then a else Shr(a / 2, k - 1)
  }

  // a << k, truncated to a word of width bits.
  function Shl(width: nat, a: nat, k: nat): nat {
    Truncate(ShiftUp(a, k), width)
  }

  function ShiftUp(a: nat, k: nat): nat {
    if k == 0 then a else 2 * ShiftUp(a, k - 1)
  }

  // The low width bits: what a store to a narrower unsigned type keeps.
  function Truncate(a: nat, width: nat): (r: nat)
    ensures r < Pow2(width)
  {
    if width == 0 then 0 else a % 2 + 2 * Truncate(a / 2, width - 1)
  }

  // std::countr_zero of a nonzero word.
  function CountrZero(w: nat): nat
    requires w != 0
  {
    if w % 2 == 1 then 0 else 1 + CountrZero(w / 2)
  }

  // std::countr_one.
  function CountrOne(w: nat): nat {
    if w % 2 == 0 then 0 else 1 + CountrOne(w / 2)
  }

  // std::popcount.
  function Popcount(w: nat): nat {
    if w == 0 then 0 else w % 2 + Popcount(w / 2)
  }

  // ---- Meaning of each operation, bit by bit ----

  lemma {:induction false} BitZero(i: nat)
    ensures !Bit(0, i)
  {
    if i > 0 { BitZero(i - 1); }
  }

  lemma {:induction false} BitAnd(a: nat, b: nat, i: nat)
    ensures Bit(And(a, b), i) <==> Bit(a, i) && Bit(b, i)
  {
    if a == 0 {
      BitZero(i);
    } else if i > 0 {
      assert And(a, b) / 2 == And(a / 2, b / 2);
      BitAnd(a / 2, b / 2, i - 1);
    }
  }

  lemma {:induction false} BitOr(a: nat, b: nat, i: nat)
    ensures Bit(Or(a, b), i) <==> Bit(a, i) || Bit(b, i)
  {
    if a == 0 {
      BitZero(i);
    } else if i > 0 {
      assert Or(a, b) / 2 == Or(a / 2, b / 2);
      BitOr(a / 2, b / 2, i - 1);
    }
  }

  lemma {:induction false} BitNot(width: nat, a: nat, i: nat)
    requires a < Pow2(width)
    ensures Bit(Not(width, a), i) <==> i < width && !Bit(a, i)
  {
    if width == 0 {
      BitZero(i);
    } else if i > 0 {
      assert Not(width, a) / 2 == Not(width - 1, a / 2);
      BitNot(width - 1, a / 2, i - 1);
    }
  }

  lemma BitOnes(width: nat, i: nat)
    ensures Bit(Ones(width), i) <==> i < width
  {
    BitNot(width, 0, i);
    BitZero(i);
  }

  lemma {:induction false} BitShr(a: nat, k: nat, i: nat)
    ensures Bit(Shr(a, k), i) <==> Bit(a, i + k)
  {
    if k > 0 { BitShr(a / 2, k - 1, i); }
  }

  lemma {:induction false} BitShiftUp(a: nat, k: nat, i: nat)
    ensures Bit(ShiftUp(a, k), i) <==> k <= i && Bit(a, i - k)
  {
    if k > 0 && i > 0 { BitShiftUp(a, k - 1, i - 1); }
  }

  lemma {:induction false} BitTruncate(a: nat, width: nat, i: nat)
    ensures Bit(Truncate(a, width), i) <==> i < width && Bit(a, i)
  {
    if width == 0 {
      BitZero(i);
    } else if i > 0 {
      assert Truncate(a, width) / 2 == Truncate(a / 2, width - 1);
      BitTruncate(a / 2, width - 1, i - 1);
    }
  }

  lemma BitShl(width: nat, a: nat, k: nat, i: nat)
    ensures Bit(Shl(width, a, k), i) <==> k <= i < width && Bit(a, i - k)
  {
    BitTruncate(ShiftUp(a, k), width, i);
    BitShiftUp(a, k, i);
  }

  lemma {:induction false} BitOfOne(i: nat)
    ensures Bit(1, i) <==> i == 0
  {
    if i > 0 { BitZero(i - 1); }
  }

  // ---- Words below Pow2(width) ----

  lemma {:induction false} AndBelow(a: nat, b: nat, width: nat)
    requires a < Pow2(width)
    ensures And(a, b) < Pow2(width)
  {
    if a != 0 && width > 0 { AndBelow(a / 2, b / 2, width - 1); }
  }

  lemma {:induction false} OrBelow(a: nat, b: nat, width: nat)
    requires a < Pow2(width) && b < Pow2(width)
    ensures Or(a, b) < Pow2(width)
  {
    if a != 0 && width > 0 { OrBelow(a / 2, b / 2, width - 1); }
  }

  lemma {:induction false} BitBelow(a: nat, width: nat, i: nat)
    requires a < Pow2(width) && Bit(a, i)
    ensures i < width
  {
    if width == 0 {
      BitZero(i);
    } else if i > 0 {
      BitBelow(a / 2, width - 1, i - 1);
    }
  }

  lemma {:induction false} SameBits(a: nat, b: nat)
    requires forall i: nat :: Bit(a, i) <==> Bit(b, i)
    ensures a == b
    decreases a + b
  {
    if a != 0 || b != 0 {
      assert Bit(a, 0) <==> Bit(b, 0);
      forall i: nat ensures Bit(a / 2, i) <==> Bit(b / 2, i) {
        assert Bit(a, i + 1) <==> Bit(b, i + 1);
      }
      SameBits(a / 2, b / 2);
    }
  }

  lemma {:induction false} NonzeroHasBit(w: nat)
    requires w != 0
    ensures Bit(w, CountrZero(w))
    ensures forall i: nat :: i < CountrZero(w) ==> !Bit(w, i)
  {
    if w % 2 == 0 {
      NonzeroHasBit(w / 2);
      forall i: nat | i < CountrZero(w) ensures !Bit(w, i) {
        if i > 0 { assert !Bit(w / 2, i - 1); }
      }
    }
  }

  lemma BitNonzero(w: nat, i: nat)
    requires Bit(w, i)
    ensures w != 0
  {
    BitZero(i);
  }

  // w & (w - 1) removes the lowest set bit and nothing else.
  lemma {:induction false} ClearLowest(w: nat, i: nat)
    requires w != 0
    ensures Bit(And(w, w - 1), i) <==> Bit(w, i) && i != CountrZero(w)
  {
    BitAnd(w, w - 1, i);
    if w % 2 == 1 {
      assert (w - 1) / 2 == w / 2;
    } else {
      assert (w - 1) / 2 == w / 2 - 1;
      if i > 0 {
        ClearLowest(w / 2, i - 1);
        BitAnd(w / 2, w / 2 - 1, i - 1);
      }
    }
  }

  lemma {:induction false} AndLess(w: nat)
    requires w != 0
    ensures And(w, w - 1) < w
  {
    if w % 2 == 1 {
      assert (w - 1) / 2 == w / 2;
      forall i: nat ensures Bit(And(w / 2, w / 2), i) <==> Bit(w / 2, i) { BitAnd(w / 2, w / 2, i); }
      SameBits(And(w / 2, w / 2), w / 2);
    } else {
      assert (w - 1) / 2 == w / 2 - 1;
      AndLess(w / 2);
    }
  }

  lemma {:induction false} CountrOneRun(w: nat)
    ensures forall i: nat :: i < CountrOne(w) ==> Bit(w, i)
    ensures !Bit(w, CountrOne(w))
  {
    if w % 2 == 1 {
      CountrOneRun(w / 2);
      forall i: nat | i < CountrOne(w) ensures Bit(w, i) {
        if i > 0 { assert Bit(w / 2, i - 1); }
      }
    }
  }

  // ---- Masks and disjoint fields, in arithmetic terms ----

  lemma {:induction false} AndOnes(a: nat, k: nat)
    ensures And(a, Ones(k)) == Truncate(a, k)
  {
    forall i: nat ensures Bit(And(a, Ones(k)), i) <==> Bit(Truncate(a, k), i) {
      BitAnd(a, Ones(k), i);
      BitOnes(k, i);
      BitTruncate(a, k, i);
    }
    SameBits(And(a, Ones(k)), Truncate(a, k));
  }

  // Cutting a word at bit k loses nothing.
  lemma {:induction false} CutWord(a: nat, k: nat)
    ensures a == ShiftUp(Shr(a, k), k) + Truncate(a, k)
  {
    if k > 0 { CutWord(a / 2, k - 1); }
  }

  lemma {:induction false} ShiftUpProduct(a: nat, k: nat)
    ensures ShiftUp(a, k) == a * Pow2(k)
  {
    if k > 0 {
      ShiftUpProduct(a, k - 1);
      assert 2 * (a * Pow2(k - 1)) == a * Pow2(k);
    }
  }

  lemma {:induction false} TruncateSmall(a: nat, k: nat)
    requires a < Pow2(k)
    ensures Truncate(a, k) == a
  {
    if k > 0 { TruncateSmall(a / 2, k - 1); }
  }

  // Or of words without a common bit is their sum.
  lemma {:induction false} OrDisjoint(a: nat, b: nat)
    requires And(a, b) == 0
    ensures Or(a, b) == a + b
  {
    if a != 0 { OrDisjoint(a / 2, b / 2); }
  }

  lemma {:induction false} Pow2Add(j: nat, k: nat)
    ensures Pow2(j + k) == Pow2(j) * Pow2(k)
  {
    if j > 0 {
      Pow2Add(j - 1, k);
      assert 2 * (Pow2(j - 1) * Pow2(k)) == Pow2(j) * Pow2(k);
    }
  }

  // Shifting right divides by a power of two, and truncation is the remainder.
  lemma ShrIsQuotient(a: nat, k: nat)
    ensures Shr(a, k) == a / Pow2(k) && Truncate(a, k) == a % Pow2(k)
  {
    CutWord(a, k);
    ShiftUpProduct(Shr(a, k), k);
    QuotientUnique(a, Pow2(k), Shr(a, k), Truncate(a, k));
  }

  // a & (a run of `width` ones starting at bit `low`).
  lemma {:induction false} AndField(a: nat, low: nat, width: nat)
    ensures And(a, ShiftUp(Ones(width), low)) == ShiftUp(Truncate(Shr(a, low), width), low)
  {
    var field := ShiftUp(Truncate(Shr(a, low), width), low);
    forall i: nat ensures Bit(And(a, ShiftUp(Ones(width), low)), i) <==> Bit(field, i) {
      BitAnd(a, ShiftUp(Ones(width), low), i);
      BitShiftUp(Ones(width), low, i);
      BitShiftUp(Truncate(Shr(a, low), width), low, i);
      if low <= i {
        BitOnes(width, i - low);
        BitTruncate(Shr(a, low), width, i - low);
        BitShr(a, low, i - low);
      }
    }
    SameBits(And(a, ShiftUp(Ones(width), low)), field);
  }

  // Or of a field above bit k with a value below it is their sum.
  lemma {:induction false} OrAbove(high: nat, low: nat, k: nat)
    requires low < Pow2(k)
    ensures Or(ShiftUp(high, k), low) == ShiftUp(high, k) + low
    ensures Or(low, ShiftUp(high, k)) == ShiftUp(high, k) + low
  {
    var up := ShiftUp(high, k);
    forall i: nat ensures !Bit(And(up, low), i) && !Bit(And(low, up), i) {
      BitAnd(up, low, i);
      BitAnd(low, up, i);
      BitShiftUp(high, k, i);
      if Bit(low, i) { BitBelow(low, k, i); }
    }
    NoBits(And(up, low));
    NoBits(And(low, up));
    OrDisjoint(up, low);
    OrDisjoint(low, up);
  }

  lemma NoBits(w: nat)
    requires forall i: nat :: !Bit(w, i)
    ensures w == 0
  {
    if w != 0 { NonzeroHasBit(w); }
  }

  // Shifting a word so that its low k bits end up on top keeps just those.
  lemma {:induction false} ShlToTop(width: nat, a: nat, k: nat)
    requires k <= width
    ensures Shl(width, a, width - k) == ShiftUp(Truncate(a, k), width - k)
  {
    var left := Shl(width, a, width - k);
    var right := ShiftUp(Truncate(a, k), width - k);
    forall i: nat ensures Bit(left, i) <==> Bit(right, i) {
      BitShl(width, a, width - k, i);
      BitShiftUp(Truncate(a, k), width - k, i);
      if width - k <= i { BitTruncate(a, k, i - (width - k)); }
    }
    SameBits(left, right);
  }
}
