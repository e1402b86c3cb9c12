// The hierarchical bit set as a value: rows[0] holds one bit per index, and bit n of rows[k + 1]
// says whether word n of rows[k] is nonzero. The number of levels is not bounded.
module FlaggedTree {
  import opened Bits
  import opened DivMod

  datatype Geometry = Geometry(count: nat, wordBits: nat)

  type Shape = g: Geometry | 2 <= g.wordBits witness Geometry(0, 2)

  type Rows = seq<seq<nat>>

  // index / WORD_BITS and index % WORD_BITS, by repeated subtraction so that proofs which only pass
  // word and bit positions along meet no division.
  function WordOf(g: Shape, n: nat): nat {
    if n < g.wordBits then 0 else 1 + WordOf(g, n - g.wordBits)
  }

  function OffsetOf(g: Shape, n: nat): (r: nat)
    ensures r < g.wordBits
  {
    if n < g.wordBits then n else OffsetOf(g, n - g.wordBits)
  }

  lemma {:induction false} SplitIndex(g: Shape, n: nat)
    ensures n == WordOf(g, n) * g.wordBits + OffsetOf(g, n)
  {
    if n >= g.wordBits {
      SplitIndex(g, n - g.wordBits);
      Distribute(g.wordBits, WordOf(g, n - g.wordBits), 1);
    }
  }

  lemma WordAndOffset(g: Shape, n: nat)
    ensures WordOf(g, n) == n / g.wordBits && OffsetOf(g, n) == n % g.wordBits
  {
    SplitIndex(g, n);
    QuotientUnique(n, g.wordBits, WordOf(g, n), OffsetOf(g, n));
  }

  lemma SameIndex(g: Shape, m: nat, n: nat)
    requires WordOf(g, m) == WordOf(g, n) && OffsetOf(g, m) == OffsetOf(g, n)
    ensures m == n
  {
    SplitIndex(g, m);
    SplitIndex(g, n);
  }

  lemma WordMonotone(g: Shape, m: nat, n: nat)
    requires m <= n
    ensures WordOf(g, m) <= WordOf(g, n)
    ensures WordOf(g, m) == WordOf(g, n) ==> OffsetOf(g, n) - OffsetOf(g, m) == n - m
  {
    WordAndOffset(g, m);
    WordAndOffset(g, n);
    QuotientMonotone(m, n, g.wordBits);
    SplitIndex(g, m);
    SplitIndex(g, n);
  }

  // word * WORD_BITS + bit.
  function IndexOf(g: Shape, word: nat, bit: nat): (n: nat)
    ensures n == word * g.wordBits + bit
  {
    ProductNonnegative(word, g.wordBits);
    word * g.wordBits + bit
  }

  lemma IndexParts(g: Shape, word: nat, bit: nat)
    requires bit < g.wordBits
    ensures WordOf(g, IndexOf(g, word, bit)) == word && OffsetOf(g, IndexOf(g, word, bit)) == bit
  {
    WordAndOffset(g, IndexOf(g, word, bit));
    QuotientUnique(IndexOf(g, word, bit), g.wordBits, word, bit);
  }

  // Steps inside one word.
  lemma Advance(g: Shape, n: nat, step: nat)
    requires OffsetOf(g, n) + step < g.wordBits
    ensures WordOf(g, n + step) == WordOf(g, n) && OffsetOf(g, n + step) == OffsetOf(g, n) + step
  {
    SplitIndex(g, n);
    IndexParts(g, WordOf(g, n), OffsetOf(g, n) + step);
  }

  // ---- Levels ----

  // LEVEL_COUNT: levels are added until one word holds a whole level.
  function LevelsFor(bits: nat, wordBits: nat): (levels: nat)
    requires 2 <= wordBits
    ensures levels >= 1
    decreases bits
  {
    CeilDivShrinks(bits, wordBits);
    if bits <= wordBits then 1 else 1 + LevelsFor(CeilDiv(bits, wordBits), wordBits)
  }

  function Levels(g: Shape): (levels: nat)
    ensures levels >= 1
  {
    LevelsFor(g.count, g.wordBits)
  }

  // Bits in use at a level; the words of a level are the bits of the next one.
  function LevelBits(g: Shape, level: nat): nat {
    if level == 0 then g.count else CeilDiv(LevelBits(g, level - 1), g.wordBits)
  }

  lemma {:induction false} LevelsFrom(g: Shape, level: nat)
    requires level < Levels(g)
    ensures LevelsFor(LevelBits(g, level), g.wordBits) == Levels(g) - level
  {
    if level > 0 { LevelsFrom(g, level - 1); }
  }

  lemma {:induction false} LevelBitsBounded(g: Shape, level: nat)
    ensures LevelBits(g, level) <= g.count
    ensures LevelBits(g, level) == 0 <==> g.count == 0
  {
    if level > 0 {
      LevelBitsBounded(g, level - 1);
      CeilDivShrinks(LevelBits(g, level - 1), g.wordBits);
    }
  }

  // The top level is a single word (no word at all when there is nothing to store).
  lemma TopLevel(g: Shape)
    ensures LevelBits(g, Levels(g)) == if g.count == 0 then 0 else 1
  {
    LevelsFrom(g, Levels(g) - 1);
    CeilDivShrinks(LevelBits(g, Levels(g) - 1), g.wordBits);
    LevelBitsBounded(g, Levels(g));
  }

  // ---- Reading a tree ----

  function WordAt(rows: Rows, level: nat, word: nat): nat {
    if level < |rows| && word < |rows[level]| then rows[level][word] else 0
  }

  predicate BitAt(g: Shape, rows: Rows, level: nat, n: nat) {
    Bit(WordAt(rows, level, WordOf(g, n)), OffsetOf(g, n))
  }

  // Bits in use at a level of this tree.
  function Width(g: Shape, rows: Rows, level: nat): nat
    requires level <= |rows|
  {
    if level == 0 then g.count else |rows[level - 1]|
  }

  ghost predicate Shaped(g: Shape, rows: Rows) {
    |rows| == Levels(g) && RowsFit(g, rows)
  }

  // Each row is as long as the row below needs, and holds words of the right width.
  ghost predicate RowsFit(g: Shape, rows: Rows) {
    && (forall l :: 0 <= l < |rows| ==> |rows[l]| == LevelBits(g, l + 1))
    && forall l: nat, k: nat :: WordAt(rows, l, k) < Pow2(g.wordBits)
  }

  // No bit lies beyond the bits in use of its level.
  ghost predicate InBounds(g: Shape, rows: Rows) {
    forall l: nat, n: nat :: l < |rows| && BitAt(g, rows, l, n) ==> n < Width(g, rows, l)
  }

  // Summary bit n of a level is set exactly when word n of the level below is nonzero.
  predicate LinkOk(g: Shape, rows: Rows, level: nat, n: nat)
    requires level >= 1
  {
    BitAt(g, rows, level, n) <==> WordAt(rows, level - 1, n) != 0
  }

  // Every summary bit is right, except perhaps bit n of level `level` (level 0: no exception).
  ghost predicate LinkedExcept(g: Shape, rows: Rows, level: nat, n: nat) {
    forall l: nat, k: nat :: 1 <= l < |rows| && k < |rows[l - 1]| && !(l == level && k == n)
      ==> LinkOk(g, rows, l, k)
  }

  ghost predicate AlmostConsistent(g: Shape, rows: Rows, level: nat, n: nat) {
    Shaped(g, rows) && InBounds(g, rows) && LinkedExcept(g, rows, level, n)
  }

  ghost predicate Consistent(g: Shape, rows: Rows) {
    AlmostConsistent(g, rows, 0, 0)
  }

  // The set of indexes that the tree stands for.
  ghost function Members(g: Shape, rows: Rows): set<nat> {
    set n: nat | n < g.count && BitAt(g, rows, 0, n)
  }

  function Interval(low: nat, high: nat): (s: set<nat>)
    ensures forall k: nat :: k in s <==> low <= k < high
    decreases high
  {
    if low >= high then {} else Interval(low, high - 1) + {high - 1}
  }

  lemma IntervalSplit(s: set<nat>, low: nat, mid: nat, high: nat)
    requires low <= mid < high
    ensures s + Interval(low, mid) + {mid} + Interval(mid, high) == s + Interval(low, high)
    ensures s - Interval(low, mid) - Interval(mid, high) == s - Interval(low, high)
    ensures s - Interval(low, mid) - Interval(mid, high) - {mid} == s - Interval(low, high)
  {
  }

  lemma WordOfBit(g: Shape, rows: Rows, level: nat, n: nat)
    requires RowsFit(g, rows) && level < |rows| && n < Width(g, rows, level)
    ensures WordOf(g, n) < |rows[level]|
  {
    WidthIsLevelBits(g, rows, level);
    WordAndOffset(g, n);
    WordCovered(n, LevelBits(g, level), g.wordBits);
  }

  lemma WidthIsLevelBits(g: Shape, rows: Rows, level: nat)
    requires RowsFit(g, rows) && level <= |rows|
    ensures Width(g, rows, level) == LevelBits(g, level)
  {
  }

  lemma BitImpliesWord(g: Shape, rows: Rows, level: nat, n: nat)
    requires BitAt(g, rows, level, n)
    ensures WordAt(rows, level, WordOf(g, n)) != 0
    ensures level < |rows| && WordOf(g, n) < |rows[level]|
  {
    BitZero(OffsetOf(g, n));
  }

  // test(): masking the word of an index.
  lemma MemberBit(g: Shape, rows: Rows, n: nat)
    requires n < g.count
    ensures n in Members(g, rows) <==> And(WordAt(rows, 0, WordOf(g, n)), MaskOf(g, n)) != 0
  {
    var word := WordAt(rows, 0, WordOf(g, n));
    var both := And(word, MaskOf(g, n));
    BitAnd(word, MaskOf(g, n), OffsetOf(g, n));
    MaskBit(g, n, OffsetOf(g, n));
    if both != 0 {
      NonzeroHasBit(both);
      BitAnd(word, MaskOf(g, n), CountrZero(both));
      MaskBit(g, n, CountrZero(both));
    } else {
      BitZero(OffsetOf(g, n));
    }
  }

  // none() looks at the last word only.
  lemma {:induction false} EmptyFromTop(g: Shape, rows: Rows, level: nat, n: nat)
    requires Consistent(g, rows) && WordAt(rows, |rows| - 1, 0) == 0
    ensures WordAt(rows, level, n) == 0
    decreases |rows| - level
  {
    if level + 1 == |rows| {
      TopLevel(g);
      WidthIsLevelBits(g, rows, |rows|);
    } else if level + 1 < |rows| && n < |rows[level]| {
      EmptyFromTop(g, rows, level + 1, WordOf(g, n));
      BitZero(OffsetOf(g, n));
      assert LinkOk(g, rows, level + 1, n);
    }
  }

  lemma TopWordDecides(g: Shape, rows: Rows)
    requires Consistent(g, rows)
    ensures Members(g, rows) == {} <==> WordAt(rows, |rows| - 1, 0) == 0
  {
    if WordAt(rows, |rows| - 1, 0) == 0 {
      forall n: nat ensures !BitAt(g, rows, 0, n) {
        EmptyFromTop(g, rows, 0, WordOf(g, n));
        BitZero(OffsetOf(g, n));
      }
    } else {
      var n := MemberUnder(g, rows, |rows| - 1, 0);
    }
  }

  // Under a nonzero word there is a member.
  lemma {:induction false} MemberUnder(g: Shape, rows: Rows, level: nat, word: nat) returns (n: nat)
    requires Consistent(g, rows) && WordAt(rows, level, word) != 0
    ensures n in Members(g, rows)
    decreases level
  {
    var bit := CountrZero(WordAt(rows, level, word));
    NonzeroHasBit(WordAt(rows, level, word));
    BitBelow(WordAt(rows, level, word), g.wordBits, bit);
    var at := IndexOf(g, word, bit);
    IndexParts(g, word, bit);
    assert BitAt(g, rows, level, at);
    if level == 0 {
      n := at;
    } else {
      assert LinkOk(g, rows, level, at);
      n := MemberUnder(g, rows, level - 1, at);
    }
  }

  // ---- Changing one word ----

  function Put(rows: Rows, level: nat, word: nat, value: nat): Rows
    requires level < |rows| && word < |rows[level]|
  {
    var row: seq<nat> := rows[level][word := value];
    rows[level := row]
  }

  // One word changed, the rest as it was.
  ghost predicate WordChanged(g: Shape, rows: Rows, after: Rows, level: nat, word: nat, value: nat) {
    && Shaped(g, after)
    && |after| == |rows|
    && (forall l: nat :: l <= |rows| ==> Width(g, after, l) == Width(g, rows, l))
    && (forall l: nat, k: nat :: !(l == level && k == word) ==> WordAt(after, l, k) == WordAt(rows, l, k))
    && WordAt(after, level, word) == value
  }

  lemma PutWord(g: Shape, rows: Rows, level: nat, word: nat, value: nat)
    requires Shaped(g, rows) && level < |rows| && word < |rows[level]| && value < Pow2(g.wordBits)
    ensures WordChanged(g, rows, Put(rows, level, word, value), level, word, value)
  {
    SameShape(g, rows, Put(rows, level, word, value), level, word, value);
  }

  lemma SameShape(g: Shape, rows: Rows, after: Rows, level: nat, word: nat, value: nat)
    requires Shaped(g, rows) && level < |rows| && word < |rows[level]| && value < Pow2(g.wordBits)
    requires |after| == |rows| && forall l :: 0 <= l < |rows| && l != level ==> after[l] == rows[l]
    requires after[level] == rows[level][word := value]
    ensures WordChanged(g, rows, after, level, word, value)
  {
    assert forall l :: 0 <= l < |rows| ==> |after[l]| == |rows[l]|;
    forall l: nat, k: nat
      ensures WordAt(after, l, k) == if l == level && k == word then value else WordAt(rows, l, k)
    {
    }
  }

  function MaskOf(g: Shape, n: nat): nat {
    Shl(g.wordBits, 1, OffsetOf(g, n))
  }

  lemma MaskBit(g: Shape, n: nat, i: nat)
    ensures MaskOf(g, n) < Pow2(g.wordBits)
    ensures Bit(MaskOf(g, n), i) <==> i == OffsetOf(g, n)
  {
    BitShl(g.wordBits, 1, OffsetOf(g, n), i);
    if i >= OffsetOf(g, n) { BitOfOne(i - OffsetOf(g, n)); }
  }

  // ---- set ----

  // words[word of n] |= 1 << offset of n.
  function Raise(g: Shape, rows: Rows, level: nat, n: nat): Rows
    requires level < |rows| && WordOf(g, n) < |rows[level]|
  {
    Put(rows, level, WordOf(g, n), Or(WordAt(rows, level, WordOf(g, n)), MaskOf(g, n)))
  }

  ghost predicate BitRaised(g: Shape, rows: Rows, after: Rows, level: nat, n: nat) {
    && WordChanged(g, rows, after, level, WordOf(g, n), WordAt(after, level, WordOf(g, n)))
    && WordAt(after, level, WordOf(g, n)) != 0
    && forall l: nat, k: nat :: BitAt(g, after, l, k) <==> BitAt(g, rows, l, k) || (l == level && k == n)
  }

  lemma RaiseBits(g: Shape, rows: Rows, level: nat, n: nat)
    requires Shaped(g, rows) && level < |rows| && n < Width(g, rows, level)
    ensures WordOf(g, n) < |rows[level]|
    ensures BitRaised(g, rows, Raise(g, rows, level, n), level, n)
  {
    WordOfBit(g, rows, level, n);
    var word := WordOf(g, n);
    var was := WordAt(rows, level, word);
    var after := Raise(g, rows, level, n);
    MaskBit(g, n, OffsetOf(g, n));
    OrBelow(was, MaskOf(g, n), g.wordBits);
    PutWord(g, rows, level, word, Or(was, MaskOf(g, n)));
    BitOr(was, MaskOf(g, n), OffsetOf(g, n));
    BitNonzero(Or(was, MaskOf(g, n)), OffsetOf(g, n));
    forall l: nat, k: nat ensures BitAt(g, after, l, k) <==> BitAt(g, rows, l, k) || (l == level && k == n) {
      if l == level && WordOf(g, k) == word {
        BitOr(was, MaskOf(g, n), OffsetOf(g, k));
        MaskBit(g, n, OffsetOf(g, k));
        if OffsetOf(g, k) == OffsetOf(g, n) { SameIndex(g, k, n); }
      }
    }
  }

  // The state between two rounds of set(): `n` is the summary bit still to be raised.
  ghost predicate Raising(g: Shape, start: Rows, rows: Rows, level: nat, n: nat, index: nat) {
    && level <= |rows|
    && AlmostConsistent(g, rows, level, n)
    && n < Width(g, rows, level)
    && (level == 0 ==> n == index && rows == start)
    && (level >= 1 ==>
          && WordAt(rows, level - 1, n) != 0
          && forall k: nat :: BitAt(g, rows, 0, k) <==> BitAt(g, start, 0, k) || k == index)
  }

  lemma RaiseStep(g: Shape, start: Rows, rows: Rows, level: nat, n: nat, index: nat)
    requires Raising(g, start, rows, level, n, index) && level < |rows|
    ensures WordOf(g, n) < |rows[level]|
    ensures Raising(g, start, Raise(g, rows, level, n), level + 1, WordOf(g, n), index)
    ensures rows[level][WordOf(g, n)] != 0 ==> Consistent(g, Raise(g, rows, level, n))
  {
    RaiseBits(g, rows, level, n);
    RaisedTree(g, start, rows, Raise(g, rows, level, n), level, n, index);
  }

  lemma RaisedTree(g: Shape, start: Rows, rows: Rows, after: Rows, level: nat, n: nat, index: nat)
    requires Raising(g, start, rows, level, n, index) && level < |rows|
    requires BitRaised(g, rows, after, level, n)
    ensures Raising(g, start, after, level + 1, WordOf(g, n), index)
    ensures WordAt(rows, level, WordOf(g, n)) != 0 ==> Consistent(g, after)
  {
    var word := WordOf(g, n);
    WordOfBit(g, rows, level, n);
    forall l: nat, k: nat
      | 1 <= l < |after| && k < |after[l - 1]| && (!(l == level + 1 && k == word) || WordAt(rows, level, word) != 0)
      ensures LinkOk(g, after, l, k)
    {
      assert Width(g, after, l) == Width(g, rows, l);
      if !(l == level && k == n) { assert LinkOk(g, rows, l, k); }
    }
    assert Width(g, after, level + 1) == Width(g, rows, level + 1);
  }

  lemma RaiseFits(g: Shape, rows: Rows, level: nat, n: nat)
    requires Shaped(g, rows) && level < |rows| && WordOf(g, n) < |rows[level]|
    ensures Or(rows[level][WordOf(g, n)], MaskOf(g, n)) < Pow2(g.wordBits)
  {
    MaskBit(g, n, 0);
    assert WordAt(rows, level, WordOf(g, n)) < Pow2(g.wordBits);
    OrBelow(rows[level][WordOf(g, n)], MaskOf(g, n), g.wordBits);
  }

  lemma RaiseDone(g: Shape, start: Rows, rows: Rows, level: nat, n: nat, index: nat)
    requires Consistent(g, rows) && Raising(g, start, rows, level, n, index) && level >= 1 && index < g.count
    ensures Members(g, rows) == Members(g, start) + {index}
  {
  }

  // ---- reset of one index ----

  // words[word of n] &= ~(1 << offset of n).
  function Lower(g: Shape, rows: Rows, level: nat, n: nat): Rows
    requires level < |rows| && WordOf(g, n) < |rows[level]|
  {
    MaskBit(g, n, 0);
    Put(rows, level, WordOf(g, n), And(WordAt(rows, level, WordOf(g, n)), Not(g.wordBits, MaskOf(g, n))))
  }

  lemma AndZero(b: nat)
    ensures And(0, b) == 0
  {
  }

  ghost predicate BitLowered(g: Shape, rows: Rows, after: Rows, level: nat, n: nat) {
    && WordChanged(g, rows, after, level, WordOf(g, n), WordAt(after, level, WordOf(g, n)))
    && (WordAt(rows, level, WordOf(g, n)) == 0 ==> WordAt(after, level, WordOf(g, n)) == 0)
    && forall l: nat, k: nat :: BitAt(g, after, l, k) <==> BitAt(g, rows, l, k) && !(l == level && k == n)
  }

  lemma LowerBits(g: Shape, rows: Rows, level: nat, n: nat)
    requires Shaped(g, rows) && level < |rows| && n < Width(g, rows, level)
    ensures WordOf(g, n) < |rows[level]|
    ensures BitLowered(g, rows, Lower(g, rows, level, n), level, n)
  {
    WordOfBit(g, rows, level, n);
    var word := WordOf(g, n);
    var was := WordAt(rows, level, word);
    var after := Lower(g, rows, level, n);
    MaskBit(g, n, OffsetOf(g, n));
    var keep := Not(g.wordBits, MaskOf(g, n));
    AndBelow(was, keep, g.wordBits);
    PutWord(g, rows, level, word, And(was, keep));
    AndZero(keep);
    forall l: nat, k: nat ensures BitAt(g, after, l, k) <==> BitAt(g, rows, l, k) && !(l == level && k == n) {
      if l == level && WordOf(g, k) == word {
        BitAnd(was, keep, OffsetOf(g, k));
        BitNot(g.wordBits, MaskOf(g, n), OffsetOf(g, k));
        MaskBit(g, n, OffsetOf(g, k));
        if OffsetOf(g, k) == OffsetOf(g, n) { SameIndex(g, k, n); }
      }
    }
  }

  // The state between two rounds of reset(): `n` is the summary bit still to be lowered. A range
  // reset enters with the word of `index` already zero and its summary bit still set.
  ghost predicate Lowering(g: Shape, start: Rows, rows: Rows, level: nat, n: nat, index: nat) {
    && level <= |rows|
    && Shaped(g, rows) && InBounds(g, rows)
    && n < Width(g, rows, level)
    && (level == 0 ==>
          && n == index && rows == start
          && LinkedExcept(g, rows, 1, WordOf(g, index))
          && (1 < |rows| && WordAt(rows, 0, WordOf(g, index)) != 0 ==> LinkOk(g, rows, 1, WordOf(g, index))))
    && (level >= 1 ==>
          && LinkedExcept(g, rows, level, n)
          && WordAt(rows, level - 1, n) == 0
          && forall k: nat :: BitAt(g, rows, 0, k) <==> BitAt(g, start, 0, k) && k != index)
  }

  lemma StartLowering(g: Shape, rows: Rows, index: nat)
    requires Consistent(g, rows) && index < g.count
    ensures Lowering(g, rows, rows, 0, index, index)
  {
    WordOfBit(g, rows, 0, index);
    if 1 < |rows| { assert LinkOk(g, rows, 1, WordOf(g, index)); }
  }

  lemma LowerStep(g: Shape, start: Rows, rows: Rows, level: nat, n: nat, index: nat)
    requires Lowering(g, start, rows, level, n, index) && level < |rows| && index < g.count
    ensures WordOf(g, n) < |rows[level]|
    ensures var after := Lower(g, rows, level, n);
            if WordAt(after, level, WordOf(g, n)) != 0
            then Consistent(g, after) && Members(g, after) == Members(g, start) - {index}
            else Lowering(g, start, after, level + 1, WordOf(g, n), index)
  {
    LowerBits(g, rows, level, n);
    LoweredTree(g, start, rows, Lower(g, rows, level, n), level, n, index);
  }

  lemma LoweredTree(g: Shape, start: Rows, rows: Rows, after: Rows, level: nat, n: nat, index: nat)
    requires Lowering(g, start, rows, level, n, index) && level < |rows| && index < g.count
    requires BitLowered(g, rows, after, level, n)
    ensures if WordAt(after, level, WordOf(g, n)) != 0
            then Consistent(g, after) && Members(g, after) == Members(g, start) - {index}
            else Lowering(g, start, after, level + 1, WordOf(g, n), index)
  {
    var word := WordOf(g, n);
    WordOfBit(g, rows, level, n);
    forall l: nat, k: nat
      | 1 <= l < |after| && k < |after[l - 1]| && (!(l == level + 1 && k == word) || WordAt(after, level, word) != 0)
      ensures LinkOk(g, after, l, k)
    {
      assert Width(g, after, l) == Width(g, rows, l);
      if !(l == level && k == n) { assert LinkOk(g, rows, l, k); }
    }
    assert Width(g, after, level + 1) == Width(g, rows, level + 1);
  }

  lemma LowerFits(g: Shape, rows: Rows, level: nat, n: nat)
    requires Shaped(g, rows) && level < |rows| && WordOf(g, n) < |rows[level]|
    ensures MaskOf(g, n) < Pow2(g.wordBits)
    ensures And(rows[level][WordOf(g, n)], Not(g.wordBits, MaskOf(g, n))) < Pow2(g.wordBits)
  {
    MaskBit(g, n, 0);
    assert WordAt(rows, level, WordOf(g, n)) < Pow2(g.wordBits);
    AndBelow(rows[level][WordOf(g, n)], Not(g.wordBits, MaskOf(g, n)), g.wordBits);
  }

  lemma LowerDone(g: Shape, start: Rows, rows: Rows, level: nat, n: nat, index: nat)
    requires Lowering(g, start, rows, level, n, index) && level == |rows|
    ensures Consistent(g, rows) && Members(g, rows) == Members(g, start) - {index}
  {
  }

  // ---- runs of bits inside one word ----

  // (max >> (wordBits - take)) << offset, as a word.
  function RunMask(g: Shape, offset: nat, take: nat): (mask: nat)
    requires 1 <= take && offset + take <= g.wordBits
  {
    Shl(g.wordBits, Shr(Ones(g.wordBits), g.wordBits - take), offset)
  }

  lemma RunMaskBit(g: Shape, offset: nat, take: nat, i: nat)
    requires 1 <= take && offset + take <= g.wordBits
    ensures RunMask(g, offset, take) < Pow2(g.wordBits)
    ensures Bit(RunMask(g, offset, take), i) <==> offset <= i < offset + take
  {
    var run := Shr(Ones(g.wordBits), g.wordBits - take);
    BitShl(g.wordBits, run, offset, i);
    if offset <= i {
      BitShr(Ones(g.wordBits), g.wordBits - take, i - offset);
      BitOnes(g.wordBits, i - offset + (g.wordBits - take));
    }
  }

  lemma RunInWord(g: Shape, first: nat, take: nat, k: nat)
    requires 1 <= take && OffsetOf(g, first) + take <= g.wordBits
    ensures WordOf(g, k) == WordOf(g, first) ==>
              (OffsetOf(g, first) <= OffsetOf(g, k) < OffsetOf(g, first) + take <==> first <= k < first + take)
    ensures first <= k < first + take ==> WordOf(g, k) == WordOf(g, first)
  {
    if first <= k < first + take {
      Advance(g, first, k - first);
    } else if k < first {
      WordMonotone(g, k, first);
    } else {
      WordMonotone(g, first, k);
    }
  }

  // The bits [first, first + take) of level 0 now read `value`; nothing else changed.
  ghost predicate RunWritten(g: Shape, rows: Rows, after: Rows, first: nat, take: nat, value: bool) {
    && WordChanged(g, rows, after, 0, WordOf(g, first), WordAt(after, 0, WordOf(g, first)))
    && forall l: nat, k: nat :: BitAt(g, after, l, k) <==>
         if l == 0 && first <= k < first + take then value else BitAt(g, rows, l, k)
  }

  function FillRun(g: Shape, rows: Rows, first: nat, take: nat): Rows
    requires 0 < |rows| && WordOf(g, first) < |rows[0]| && 1 <= take && OffsetOf(g, first) + take <= g.wordBits
  {
    Put(rows, 0, WordOf(g, first), Or(WordAt(rows, 0, WordOf(g, first)), RunMask(g, OffsetOf(g, first), take)))
  }

  lemma FillBits(g: Shape, rows: Rows, first: nat, take: nat)
    requires Shaped(g, rows) && 1 <= take && first + take <= g.count && OffsetOf(g, first) + take <= g.wordBits
    ensures WordOf(g, first) < |rows[0]|
    ensures RunWritten(g, rows, FillRun(g, rows, first, take), first, take, true)
  {
    WordOfBit(g, rows, 0, first);
    var word := WordOf(g, first);
    var was := WordAt(rows, 0, word);
    var mask := RunMask(g, OffsetOf(g, first), take);
    var after := FillRun(g, rows, first, take);
    RunMaskBit(g, OffsetOf(g, first), take, 0);
    OrBelow(was, mask, g.wordBits);
    PutWord(g, rows, 0, word, Or(was, mask));
    forall l: nat, k: nat
      ensures BitAt(g, after, l, k) <==> if l == 0 && first <= k < first + take then true else BitAt(g, rows, l, k)
    {
      RunInWord(g, first, take, k);
      if l == 0 && WordOf(g, k) == word {
        BitOr(was, mask, OffsetOf(g, k));
        RunMaskBit(g, OffsetOf(g, first), take, OffsetOf(g, k));
      }
    }
  }

  lemma FilledTree(g: Shape, rows: Rows, after: Rows, first: nat, take: nat)
    requires Consistent(g, rows) && 1 <= take && first + take <= g.count
    requires WordAt(rows, 0, WordOf(g, first)) != 0
    requires RunWritten(g, rows, after, first, take, true)
    ensures Consistent(g, after)
    ensures Members(g, after) == Members(g, rows) + Interval(first, first + take)
  {
    assert BitAt(g, after, 0, first);
    BitImpliesWord(g, after, 0, first);
    forall l: nat, k: nat | 1 <= l < |after| && k < |after[l - 1]| ensures LinkOk(g, after, l, k) {
      assert Width(g, after, l) == Width(g, rows, l);
      assert LinkOk(g, rows, l, k);
    }
  }

  lemma MemberWord(g: Shape, rows: Rows, n: nat)
    requires n in Members(g, rows)
    ensures WordAt(rows, 0, WordOf(g, n)) != 0
  {
    BitImpliesWord(g, rows, 0, n);
  }

  // One round of setRange() after set(first).
  lemma FillStep(g: Shape, rows: Rows, first: nat, take: nat)
    requires Consistent(g, rows) && first in Members(g, rows)
    requires 1 <= take && first + take <= g.count && OffsetOf(g, first) + take <= g.wordBits
    ensures WordOf(g, first) < |rows[0]|
    ensures Or(rows[0][WordOf(g, first)], RunMask(g, OffsetOf(g, first), take)) < Pow2(g.wordBits)
    ensures var after := FillRun(g, rows, first, take);
            Consistent(g, after) && Members(g, after) == Members(g, rows) + Interval(first, first + take)
  {
    var mask := RunMask(g, OffsetOf(g, first), take);
    MemberWord(g, rows, first);
    FillBits(g, rows, first, take);
    FilledTree(g, rows, FillRun(g, rows, first, take), first, take);
    RunMaskBit(g, OffsetOf(g, first), take, 0);
    assert WordAt(rows, 0, WordOf(g, first)) < Pow2(g.wordBits);
    OrBelow(rows[0][WordOf(g, first)], mask, g.wordBits);
  }

  function EraseRun(g: Shape, rows: Rows, first: nat, take: nat): Rows
    requires 0 < |rows| && WordOf(g, first) < |rows[0]| && 1 <= take && OffsetOf(g, first) + take <= g.wordBits
  {
    RunMaskBit(g, OffsetOf(g, first), take, 0);
    Put(rows, 0, WordOf(g, first),
        And(WordAt(rows, 0, WordOf(g, first)), Not(g.wordBits, RunMask(g, OffsetOf(g, first), take))))
  }

  lemma EraseBits(g: Shape, rows: Rows, first: nat, take: nat)
    requires Shaped(g, rows) && 1 <= take && first + take <= g.count && OffsetOf(g, first) + take <= g.wordBits
    ensures WordOf(g, first) < |rows[0]|
    ensures RunWritten(g, rows, EraseRun(g, rows, first, take), first, take, false)
    ensures WordAt(rows, 0, WordOf(g, first)) == 0 ==> WordAt(EraseRun(g, rows, first, take), 0, WordOf(g, first)) == 0
  {
    WordOfBit(g, rows, 0, first);
    var word := WordOf(g, first);
    var was := WordAt(rows, 0, word);
    var mask := RunMask(g, OffsetOf(g, first), take);
    var after := EraseRun(g, rows, first, take);
    RunMaskBit(g, OffsetOf(g, first), take, 0);
    var keep := Not(g.wordBits, mask);
    AndBelow(was, keep, g.wordBits);
    PutWord(g, rows, 0, word, And(was, keep));
    AndZero(keep);
    forall l: nat, k: nat
      ensures BitAt(g, after, l, k) <==> if l == 0 && first <= k < first + take then false else BitAt(g, rows, l, k)
    {
      RunInWord(g, first, take, k);
      if l == 0 && WordOf(g, k) == word {
        BitAnd(was, keep, OffsetOf(g, k));
        BitNot(g.wordBits, mask, OffsetOf(g, k));
        RunMaskBit(g, OffsetOf(g, first), take, OffsetOf(g, k));
      }
    }
  }

  // Clearing a run may empty its word; the summary bit is then lowered by reset(first).
  lemma ErasedTree(g: Shape, rows: Rows, after: Rows, first: nat, take: nat)
    requires Consistent(g, rows) && 1 <= take && first + take <= g.count
    requires RunWritten(g, rows, after, first, take, false)
    requires WordAt(rows, 0, WordOf(g, first)) == 0 ==> WordAt(after, 0, WordOf(g, first)) == 0
    ensures if WordAt(rows, 0, WordOf(g, first)) != 0 && WordAt(after, 0, WordOf(g, first)) == 0
            then Lowering(g, after, after, 0, first, first) else Consistent(g, after)
    ensures Members(g, after) == Members(g, rows) - Interval(first, first + take)
  {
    var word := WordOf(g, first);
    WordOfBit(g, rows, 0, first);
    forall l: nat, k: nat
      | 1 <= l < |after| && k < |after[l - 1]|
        && (!(l == 1 && k == word) || WordAt(after, 0, word) != 0 || WordAt(rows, 0, word) == 0)
      ensures LinkOk(g, after, l, k)
    {
      assert Width(g, after, l) == Width(g, rows, l);
      assert LinkOk(g, rows, l, k);
    }
  }

  // One round of a range reset, before reset(first) repairs an emptied word.
  lemma EraseStep(g: Shape, rows: Rows, first: nat, take: nat)
    requires Consistent(g, rows)
    requires 1 <= take && first + take <= g.count && OffsetOf(g, first) + take <= g.wordBits
    ensures RunMask(g, OffsetOf(g, first), take) < Pow2(g.wordBits)
    ensures WordOf(g, first) < |rows[0]|
    ensures And(rows[0][WordOf(g, first)], Not(g.wordBits, RunMask(g, OffsetOf(g, first), take))) < Pow2(g.wordBits)
    ensures var after := EraseRun(g, rows, first, take);
            && (if WordAt(rows, 0, WordOf(g, first)) != 0 && WordAt(after, 0, WordOf(g, first)) == 0
                then Lowering(g, after, after, 0, first, first) else Consistent(g, after))
            && Members(g, after) == Members(g, rows) - Interval(first, first + take)
  {
    var mask := RunMask(g, OffsetOf(g, first), take);
    EraseBits(g, rows, first, take);
    ErasedTree(g, rows, EraseRun(g, rows, first, take), first, take);
    RunMaskBit(g, OffsetOf(g, first), take, 0);
    assert WordAt(rows, 0, WordOf(g, first)) < Pow2(g.wordBits);
    AndBelow(rows[0][WordOf(g, first)], Not(g.wordBits, mask), g.wordBits);
  }

  // ---- clear: a word and everything below it ----

  // The word of level `level` under which word `word` of level `from` lies.
  function Ancestor(g: Shape, from: nat, word: nat, level: nat): nat
    decreases level - from
  {
    if from >= level then word else Ancestor(g, from + 1, WordOf(g, word), level)
  }

  lemma {:induction false} AncestorStep(g: Shape, from: nat, word: nat, level: nat)
    requires from < level
    ensures Ancestor(g, from, word, level) == WordOf(g, Ancestor(g, from, word, level - 1))
    decreases level - from
  {
    if from + 1 < level { AncestorStep(g, from + 1, WordOf(g, word), level); }
  }

  lemma {:induction false} AncestorInRange(g: Shape, rows: Rows, from: nat, word: nat, level: nat)
    requires RowsFit(g, rows) && from <= level < |rows| && word < |rows[from]|
    ensures Ancestor(g, from, word, level) < |rows[level]|
    decreases level - from
  {
    if from < level {
      WordOfBit(g, rows, from + 1, word);
      AncestorInRange(g, rows, from + 1, WordOf(g, word), level);
    }
  }

  predicate Under(g: Shape, l: nat, n: nat, level: nat, word: nat) {
    l <= level && Ancestor(g, l, n, level) == word
  }

  // Summary bits under a word are right.
  ghost predicate LinkedUnder(g: Shape, rows: Rows, level: nat, word: nat) {
    forall l: nat, n: nat :: 1 <= l <= level && l < |rows| && n < |rows[l - 1]| && Under(g, l - 1, n, level, word)
      ==> LinkOk(g, rows, l, n)
  }

  ghost predicate ClearedUnder(g: Shape, before: Rows, after: Rows, level: nat, word: nat) {
    && Shaped(g, after)
    && forall l: nat, n: nat :: WordAt(after, l, n) == if Under(g, l, n, level, word) then 0 else WordAt(before, l, n)
  }

  // Under a zero word everything is zero already.
  lemma {:induction false} ZeroBelow(g: Shape, rows: Rows, level: nat, word: nat, l: nat, n: nat)
    requires RowsFit(g, rows) && level < |rows| && LinkedUnder(g, rows, level, word) && WordAt(rows, level, word) == 0
    requires Under(g, l, n, level, word)
    ensures WordAt(rows, l, n) == 0
    decreases level - l
  {
    if l < level && n < |rows[l]| {
      ZeroBelow(g, rows, level, word, l + 1, WordOf(g, n));
      BitZero(OffsetOf(g, n));
      assert LinkOk(g, rows, l + 1, n);
    }
  }

  // What ClearWord has done when the bits of `remaining` are still to be visited.
  ghost predicate Clearing(g: Shape, before: Rows, rows: Rows, level: nat, word: nat, remaining: nat)
    requires level >= 1
  {
    && Shaped(g, rows)
    && (forall i: nat :: Bit(remaining, i) ==> Bit(WordAt(before, level, word), i))
    && (forall l: nat, n: nat {:trigger WordAt(rows, l, n)} :: WordAt(rows, l, n) ==
          if Under(g, l, n, level, word) && (l == level || !Bit(remaining, OffsetOf(g, Ancestor(g, l, n, level - 1))))
          then 0 else WordAt(before, l, n))
  }

  lemma ChildLinked(g: Shape, rows: Rows, level: nat, word: nat, child: nat)
    requires level >= 1 && LinkedUnder(g, rows, level, word) && WordOf(g, child) == word
    ensures LinkedUnder(g, rows, level - 1, child)
  {
    forall l: nat, n: nat
      | 1 <= l <= level - 1 && l < |rows| && n < |rows[l - 1]| && Under(g, l - 1, n, level - 1, child)
      ensures LinkOk(g, rows, l, n)
    {
      AncestorStep(g, l - 1, n, level);
      assert Under(g, l - 1, n, level, word);
    }
  }

  // A child whose bit is clear has nothing under it.
  lemma UnsetChildEmpty(g: Shape, rows: Rows, level: nat, word: nat, l: nat, n: nat)
    requires 1 <= level < |rows| && RowsFit(g, rows) && LinkedUnder(g, rows, level, word)
    requires Under(g, l, n, level, word) && l < level
    requires !Bit(WordAt(rows, level, word), OffsetOf(g, Ancestor(g, l, n, level - 1)))
    ensures WordAt(rows, l, n) == 0
  {
    var child := Ancestor(g, l, n, level - 1);
    AncestorStep(g, l, n, level);
    if n < |rows[l]| {
      AncestorInRange(g, rows, l, n, level - 1);
      UnsetChildZero(g, rows, level, word, child);
      ChildLinked(g, rows, level, word, child);
      ZeroBelow(g, rows, level - 1, child, l, n);
    }
  }

  lemma UnsetChildZero(g: Shape, rows: Rows, level: nat, word: nat, child: nat)
    requires 1 <= level < |rows| && LinkedUnder(g, rows, level, word) && WordOf(g, child) == word
    requires child < |rows[level - 1]| && !Bit(WordAt(rows, level, word), OffsetOf(g, child))
    ensures WordAt(rows, level - 1, child) == 0
  {
    AncestorStep(g, level - 1, child, level);
    assert Under(g, level - 1, child, level, word);
    assert LinkOk(g, rows, level, child);
  }

  lemma StartClearing(g: Shape, before: Rows, rows: Rows, level: nat, word: nat)
    requires Shaped(g, before) && 1 <= level < |before|
    requires LinkedUnder(g, before, level, word)
    requires WordChanged(g, before, rows, level, word, 0)
    ensures Clearing(g, before, rows, level, word, WordAt(before, level, word))
  {
    var all := WordAt(before, level, word);
    forall l: nat, n: nat
      ensures WordAt(rows, l, n) ==
              if Under(g, l, n, level, word) && (l == level || !Bit(all, OffsetOf(g, Ancestor(g, l, n, level - 1))))
              then 0 else WordAt(before, l, n)
    {
      if Under(g, l, n, level, word) && l < level && !Bit(all, OffsetOf(g, Ancestor(g, l, n, level - 1))) {
        UnsetChildEmpty(g, before, level, word, l, n);
      }
    }
  }

  lemma UnchangedUnder(g: Shape, before: Rows, rows: Rows, level: nat, word: nat, remaining: nat, child: nat, l: nat,
                       n: nat)
    requires level >= 1 && Clearing(g, before, rows, level, word, remaining)
    requires WordOf(g, child) == word && Bit(remaining, OffsetOf(g, child))
    requires Under(g, l, n, level - 1, child)
    ensures WordAt(rows, l, n) == WordAt(before, l, n)
  {
    AncestorStep(g, l, n, level);
  }

  // Before its turn, everything under a child is as it was.
  lemma PendingChildLinked(g: Shape, before: Rows, rows: Rows, level: nat, word: nat, remaining: nat, child: nat)
    requires Shaped(g, before) && 1 <= level < |before| && LinkedUnder(g, before, level, word)
    requires Clearing(g, before, rows, level, word, remaining)
    requires WordOf(g, child) == word && Bit(remaining, OffsetOf(g, child))
    ensures LinkedUnder(g, rows, level - 1, child)
  {
    ChildLinked(g, before, level, word, child);
    forall l: nat, n: nat
      | 1 <= l <= level - 1 && l < |rows| && n < |rows[l - 1]| && Under(g, l - 1, n, level - 1, child)
      ensures LinkOk(g, rows, l, n)
    {
      WidthIsLevelBits(g, before, l);
      WidthIsLevelBits(g, rows, l);
      assert LinkOk(g, before, l, n);
      assert Under(g, l, WordOf(g, n), level - 1, child);
      UnchangedUnder(g, before, rows, level, word, remaining, child, l - 1, n);
      UnchangedUnder(g, before, rows, level, word, remaining, child, l, WordOf(g, n));
    }
  }

  // The next bit of `remaining` names a word that exists, one level down.
  lemma ChildInRange(g: Shape, before: Rows, level: nat, word: nat, remaining: nat)
    requires Shaped(g, before) && InBounds(g, before) && 1 <= level < |before| && remaining != 0
    requires forall i: nat :: Bit(remaining, i) ==> Bit(WordAt(before, level, word), i)
    ensures var child := IndexOf(g, word, CountrZero(remaining));
            && child < |before[level - 1]| && WordOf(g, child) == word && OffsetOf(g, child) == CountrZero(remaining)
            && Bit(remaining, OffsetOf(g, child))
  {
    var bit := CountrZero(remaining);
    NonzeroHasBit(remaining);
    BitBelow(WordAt(before, level, word), g.wordBits, bit);
    IndexParts(g, word, bit);
    assert BitAt(g, before, level, IndexOf(g, word, bit));
  }

  lemma ClearChild(g: Shape, before: Rows, rows: Rows, after: Rows, level: nat, word: nat, remaining: nat, child: nat)
    requires 1 <= level && remaining != 0
    requires Clearing(g, before, rows, level, word, remaining)
    requires WordOf(g, child) == word && OffsetOf(g, child) == CountrZero(remaining)
    requires ClearedUnder(g, rows, after, level - 1, child)
    ensures Clearing(g, before, after, level, word, And(remaining, remaining - 1))
  {
    var rest := And(remaining, remaining - 1);
    forall i: nat ensures Bit(rest, i) <==> Bit(remaining, i) && i != CountrZero(remaining) {
      ClearLowest(remaining, i);
    }
    forall l: nat, n: nat
      ensures WordAt(after, l, n) ==
              if Under(g, l, n, level, word) && (l == level || !Bit(rest, OffsetOf(g, Ancestor(g, l, n, level - 1))))
              then 0 else WordAt(before, l, n)
    {
      if l < level {
        AncestorStep(g, l, n, level);
        var c := Ancestor(g, l, n, level - 1);
        assert Under(g, l, n, level - 1, child) <==> c == child;
        if Under(g, l, n, level, word) && OffsetOf(g, c) == CountrZero(remaining) { SameIndex(g, c, child); }
      }
    }
  }

  lemma DoneClearing(g: Shape, before: Rows, rows: Rows, level: nat, word: nat)
    requires 1 <= level && Clearing(g, before, rows, level, word, 0)
    ensures ClearedUnder(g, before, rows, level, word)
  {
    forall i: nat ensures !Bit(0, i) { BitZero(i); }
  }

  // Clearing the top word empties the set.
  lemma TopClears(g: Shape, before: Rows, rows: Rows)
    requires g.count != 0 && ClearedUnder(g, before, rows, Levels(g) - 1, 0)
    ensures Consistent(g, rows) && Members(g, rows) == {}
  {
    TopLevel(g);
    WidthIsLevelBits(g, rows, |rows|);
    forall l: nat, n: nat ensures WordAt(rows, l, n) == 0 {
      if l < |rows| && n < |rows[l]| {
        AncestorInRange(g, rows, l, n, |rows| - 1);
        assert Under(g, l, n, |rows| - 1, 0);
      }
    }
    AllZero(g, rows);
  }

  lemma AllZero(g: Shape, rows: Rows)
    requires Shaped(g, rows) && forall l: nat, n: nat :: WordAt(rows, l, n) == 0
    ensures Consistent(g, rows) && Members(g, rows) == {}
  {
    forall l: nat, n: nat ensures !BitAt(g, rows, l, n) { BitZero(OffsetOf(g, n)); }
  }

  lemma ZeroedInBounds(g: Shape, before: Rows, after: Rows)
    requires InBounds(g, before) && Shaped(g, before) && Shaped(g, after)
    requires forall l: nat, n: nat :: WordAt(after, l, n) == WordAt(before, l, n) || WordAt(after, l, n) == 0
    ensures InBounds(g, after)
  {
    forall l: nat, n: nat | l < |after| && BitAt(g, after, l, n) ensures n < Width(g, after, l) {
      BitImpliesWord(g, after, l, n);
      WidthIsLevelBits(g, before, l);
      WidthIsLevelBits(g, after, l);
      assert BitAt(g, before, l, n);
    }
  }

  // ---- search ----

  // r is the first bit of a level at or after `first`, or count when there is none.
  ghost predicate NextBit(g: Shape, rows: Rows, level: nat, first: nat, r: nat)
    requires level < |rows|
  {
    if r < Width(g, rows, level)
    then first <= r && BitAt(g, rows, level, r) && forall n: nat :: first <= n < r ==> !BitAt(g, rows, level, n)
    else r == g.count && forall n: nat :: first <= n ==> !BitAt(g, rows, level, n)
  }

  // word & (max << offset): the bits of a word from an offset on.
  function Tail(g: Shape, word: nat, offset: nat): nat {
    And(word, Shl(g.wordBits, Ones(g.wordBits), offset))
  }

  lemma TailBit(g: Shape, word: nat, offset: nat, i: nat)
    requires word < Pow2(g.wordBits)
    ensures Bit(Tail(g, word, offset), i) <==> Bit(word, i) && offset <= i
  {
    BitAnd(word, Shl(g.wordBits, Ones(g.wordBits), offset), i);
    BitShl(g.wordBits, Ones(g.wordBits), offset, i);
    if offset <= i { BitOnes(g.wordBits, i - offset); }
    if Bit(word, i) { BitBelow(word, g.wordBits, i); }
  }

  // The bits of word `word` at or after index `first`.
  ghost predicate TailOf(g: Shape, rows: Rows, level: nat, first: nat, word: nat, remaining: nat) {
    forall i: nat :: Bit(remaining, i) <==> Bit(WordAt(rows, level, word), i) && first <= IndexOf(g, word, i)
  }

  lemma TailIsRest(g: Shape, rows: Rows, level: nat, first: nat)
    requires Shaped(g, rows)
    ensures TailOf(g, rows, level, first, WordOf(g, first),
                   Tail(g, WordAt(rows, level, WordOf(g, first)), OffsetOf(g, first)))
  {
    var word := WordOf(g, first);
    forall i: nat
      ensures Bit(Tail(g, WordAt(rows, level, word), OffsetOf(g, first)), i)
              <==> Bit(WordAt(rows, level, word), i) && first <= IndexOf(g, word, i)
    {
      TailBit(g, WordAt(rows, level, word), OffsetOf(g, first), i);
      SplitIndex(g, first);
    }
  }

  lemma WholeWordIsRest(g: Shape, rows: Rows, level: nat, first: nat, word: nat)
    requires WordOf(g, first) < word
    ensures TailOf(g, rows, level, first, word, WordAt(rows, level, word))
  {
    forall i: nat ensures first <= IndexOf(g, word, i) {
      WordAndOffset(g, first);
      QuotientBelow(first, g.wordBits, word);
    }
  }

  // The lowest bit of the word that holds the answer is the answer.
  lemma FoundInWord(g: Shape, rows: Rows, level: nat, first: nat, word: nat, remaining: nat)
    requires level < |rows| && Shaped(g, rows) && InBounds(g, rows) && remaining != 0
    requires TailOf(g, rows, level, first, word, remaining)
    requires forall n: nat :: first <= n && WordOf(g, n) < word ==> !BitAt(g, rows, level, n)
    ensures CountrZero(remaining) < g.wordBits
    ensures NextBit(g, rows, level, first, IndexOf(g, word, CountrZero(remaining)))
    ensures IndexOf(g, word, CountrZero(remaining)) < Width(g, rows, level)
    ensures BitAt(g, rows, level, IndexOf(g, word, CountrZero(remaining)))
  {
    var bit := CountrZero(remaining);
    NonzeroHasBit(remaining);
    BitBelow(WordAt(rows, level, word), g.wordBits, bit);
    var r := IndexOf(g, word, bit);
    IndexParts(g, word, bit);
    assert BitAt(g, rows, level, r);
    forall n: nat | first <= n < r ensures !BitAt(g, rows, level, n) {
      WordMonotone(g, n, r);
      SplitIndex(g, n);
      if WordOf(g, n) == word { assert !Bit(remaining, OffsetOf(g, n)); }
    }
  }

  // With the rest of its word empty, the search continues in the following words.
  lemma RestOfWordEmpty(g: Shape, rows: Rows, level: nat, first: nat, word: nat)
    requires TailOf(g, rows, level, first, word, 0)
    requires forall n: nat :: first <= n && WordOf(g, n) < word ==> !BitAt(g, rows, level, n)
    ensures forall n: nat :: first <= n && WordOf(g, n) <= word ==> !BitAt(g, rows, level, n)
  {
    forall n: nat | first <= n && WordOf(g, n) == word ensures !BitAt(g, rows, level, n) {
      SplitIndex(g, n);
      BitZero(OffsetOf(g, n));
    }
  }

  lemma PastTheLastWord(g: Shape, rows: Rows, level: nat, first: nat)
    requires level < |rows| && |rows[level]| <= WordOf(g, first)
    ensures forall n: nat :: first <= n ==> !BitAt(g, rows, level, n)
  {
    forall n: nat | first <= n ensures !BitAt(g, rows, level, n) {
      WordMonotone(g, first, n);
      BitZero(OffsetOf(g, n));
    }
  }

  // A bit above level 0 answers "which word is nonzero".
  lemma SummaryAnswers(g: Shape, rows: Rows, level: nat, first: nat, word: nat)
    requires level + 1 < |rows| && Consistent(g, rows) && NextBit(g, rows, level + 1, first, word)
    ensures forall n: nat :: first <= WordOf(g, n) && (WordOf(g, n) < word || |rows[level]| <= word) ==>
              !BitAt(g, rows, level, n)
    ensures word < |rows[level]| ==> first <= word && WordAt(rows, level, word) != 0
  {
    forall n: nat | first <= WordOf(g, n) && (WordOf(g, n) < word || |rows[level]| <= word)
      ensures !BitAt(g, rows, level, n)
    {
      if WordOf(g, n) < |rows[level]| { assert LinkOk(g, rows, level + 1, WordOf(g, n)); }
      BitZero(OffsetOf(g, n));
    }
    if word < |rows[level]| { assert LinkOk(g, rows, level + 1, word); }
  }

  // One round of FindNext: the answer lies in this word, or there is nothing before the next word.
  lemma NothingInLevel(g: Shape, rows: Rows, level: nat, first: nat)
    requires Shaped(g, rows) && level < |rows|
    requires forall n: nat :: first <= n ==> !BitAt(g, rows, level, n)
    ensures NextBit(g, rows, level, first, g.count)
  {
    WidthIsLevelBits(g, rows, level);
    LevelBitsBounded(g, level);
  }

  lemma TopWordIsLast(g: Shape, rows: Rows, level: nat, first: nat)
    requires Shaped(g, rows) && level + 1 == |rows| && WordOf(g, first) < |rows[level]|
    requires forall n: nat :: first <= n && WordOf(g, n) <= WordOf(g, first) ==> !BitAt(g, rows, level, n)
    ensures forall n: nat :: first <= n ==> !BitAt(g, rows, level, n)
  {
    TopLevel(g);
    WidthIsLevelBits(g, rows, |rows|);
    forall n: nat | first <= n ensures !BitAt(g, rows, level, n) {
      BitZero(OffsetOf(g, n));
    }
  }

  // ---- counting ----

  function LowBits(word: nat, bits: nat): nat {
    if bits == 0 then 0 else LowBits(word, bits - 1) + if Bit(word, bits - 1) then 1 else 0
  }

  lemma {:induction false} LowBitsHalf(word: nat, bits: nat)
    requires bits > 0
    ensures LowBits(word, bits) == word % 2 + LowBits(word / 2, bits - 1)
  {
    if bits > 1 { LowBitsHalf(word, bits - 1); }
  }

  lemma {:induction false} PopcountIsLowBits(word: nat, bits: nat)
    requires word < Pow2(bits)
    ensures Popcount(word) == LowBits(word, bits)
  {
    if bits > 0 {
      LowBitsHalf(word, bits);
      PopcountIsLowBits(word / 2, bits - 1);
    }
  }

  ghost function MembersBelow(g: Shape, rows: Rows, high: nat): (s: set<nat>)
    ensures forall n: nat :: n in s <==> n < high && BitAt(g, rows, 0, n)
  {
    if high == 0 then {}
    else if BitAt(g, rows, 0, high - 1) then MembersBelow(g, rows, high - 1) + {high - 1}
    else MembersBelow(g, rows, high - 1)
  }

  // The number of members below an index.
  ghost function Rank(g: Shape, rows: Rows, high: nat): nat {
    if high == 0 then 0 else Rank(g, rows, high - 1) + if BitAt(g, rows, 0, high - 1) then 1 else 0
  }

  lemma {:induction false} RankIsSize(g: Shape, rows: Rows, high: nat)
    ensures Rank(g, rows, high) == |MembersBelow(g, rows, high)|
  {
    if high > 0 { RankIsSize(g, rows, high - 1); }
  }

  lemma {:induction false} WordAddsBits(g: Shape, rows: Rows, word: nat, start: nat, bits: nat)
    requires bits <= g.wordBits && WordOf(g, start) == word && OffsetOf(g, start) == 0
    ensures Rank(g, rows, start + bits) == Rank(g, rows, start) + LowBits(WordAt(rows, 0, word), bits)
  {
    if bits > 0 {
      WordAddsBits(g, rows, word, start, bits - 1);
      Advance(g, start, bits - 1);
    }
  }

  lemma WordAddsPopcount(g: Shape, rows: Rows, word: nat)
    requires Shaped(g, rows)
    ensures Rank(g, rows, IndexOf(g, word + 1, 0)) ==
              Rank(g, rows, IndexOf(g, word, 0)) + Popcount(WordAt(rows, 0, word))
  {
    IndexParts(g, word, 0);
    NextWordIndex(g, word);
    WordAddsBits(g, rows, word, IndexOf(g, word, 0), g.wordBits);
    PopcountIsLowBits(WordAt(rows, 0, word), g.wordBits);
  }

  lemma NextWordIndex(g: Shape, word: nat)
    ensures IndexOf(g, word + 1, 0) == IndexOf(g, word, 0) + g.wordBits
  {
    Distribute(g.wordBits, word, 1);
  }

  lemma AllMembersBelow(g: Shape, rows: Rows)
    requires Shaped(g, rows) && InBounds(g, rows)
    ensures Rank(g, rows, IndexOf(g, |rows[0]|, 0)) == |Members(g, rows)|
  {
    RankIsSize(g, rows, IndexOf(g, |rows[0]|, 0));
    forall n: nat | n < g.count && BitAt(g, rows, 0, n) ensures n < IndexOf(g, |rows[0]|, 0) {
      BitImpliesWord(g, rows, 0, n);
      WordAndOffset(g, n);
      QuotientBelow(n, g.wordBits, |rows[0]|);
    }
    assert MembersBelow(g, rows, IndexOf(g, |rows[0]|, 0)) == Members(g, rows);
  }

  lemma FullSet(s: set<nat>, count: nat)
    requires forall n: nat :: n in s ==> n < count
    ensures |s| <= count && (|s| == count <==> s == Interval(0, count))
  {
    IntervalSize(0, count);
    SubsetSize(s, Interval(0, count));
  }

  lemma {:induction false} IntervalSize(low: nat, high: nat)
    requires low <= high
    ensures |Interval(low, high)| == high - low
    decreases high
  {
    if low < high { IntervalSize(low, high - 1); }
  }

  lemma {:induction false} SubsetSize(a: set<nat>, b: set<nat>)
    requires a <= b
    ensures |a| <= |b| && (|a| == |b| <==> a == b)
  {
    if a != {} {
      var x :| x in a;
      SubsetSize(a - {x}, b - {x});
      assert a == a - {x} + {x} && b == b - {x} + {x};
    }
  }

  // ---- iteration ----

  // What an index iterator stands on: the members at or after `from`, of which the first lies in
  // word `word`; `remaining` holds that word's part.
  ghost predicate StandsAt(g: Shape, rows: Rows, from: nat, word: nat, remaining: nat)
    requires 0 < |rows|
  {
    if remaining == 0 then forall n: nat :: from <= n ==> !BitAt(g, rows, 0, n)
    else TailOf(g, rows, 0, from, word, remaining)
         && forall n: nat :: from <= n && WordOf(g, n) < word ==> !BitAt(g, rows, 0, n)
  }

  lemma WordsAscend(g: Shape, first: nat)
    ensures forall n: nat :: first <= n ==> WordOf(g, first) <= WordOf(g, n)
  {
    forall n: nat | first <= n ensures WordOf(g, first) <= WordOf(g, n) {
      WordMonotone(g, first, n);
    }
  }

  // An iterator that has just loaded a word, with nothing before that word, stands where it should.
  lemma WordLoaded(g: Shape, rows: Rows, from: nat, word: nat)
    requires 0 < |rows| && Shaped(g, rows)
    requires WordAt(rows, 0, word) != 0 ==> forall n: nat :: WordOf(g, n) == word ==> from <= n
    requires forall n: nat :: from <= n && WordOf(g, n) < word ==> !BitAt(g, rows, 0, n)
    requires WordAt(rows, 0, word) == 0 ==> forall k: nat :: word < k ==> WordAt(rows, 0, k) == 0
    ensures StandsAt(g, rows, from, word, WordAt(rows, 0, word))
  {
    var stored := WordAt(rows, 0, word);
    forall i: nat | Bit(stored, i) ensures from <= IndexOf(g, word, i) {
      BitNonzero(stored, i);
      BitBelow(stored, g.wordBits, i);
      IndexParts(g, word, i);
    }
    forall n: nat | WordAt(rows, 0, WordOf(g, n)) == 0 ensures !BitAt(g, rows, 0, n) {
      BitZero(OffsetOf(g, n));
    }
  }

  lemma OnlyTopWord(g: Shape, rows: Rows)
    requires Shaped(g, rows)
    ensures |rows[|rows| - 1]| <= 1
  {
    TopLevel(g);
  }

  lemma LaterWords(g: Shape, n: nat)
    ensures forall k: nat :: WordOf(g, n) < WordOf(g, k) ==> n < k
  {
    forall k: nat | k <= n ensures WordOf(g, k) <= WordOf(g, n) { WordMonotone(g, k, n); }
  }

  // Dropping the lowest bit of `remaining` moves past the current member.
  lemma DropLowest(g: Shape, rows: Rows, from: nat, word: nat, remaining: nat)
    requires 0 < |rows| && Shaped(g, rows) && InBounds(g, rows)
    requires remaining != 0 && StandsAt(g, rows, from, word, remaining)
    ensures CountrZero(remaining) < g.wordBits
    ensures var current := IndexOf(g, word, CountrZero(remaining));
            && TailOf(g, rows, 0, current + 1, word, And(remaining, remaining - 1))
            && WordOf(g, current) == word
            && forall n: nat :: current + 1 <= n && WordOf(g, n) < word ==> !BitAt(g, rows, 0, n)
  {
    FoundInWord(g, rows, 0, from, word, remaining);
    var bit := CountrZero(remaining);
    var current := IndexOf(g, word, bit);
    IndexParts(g, word, bit);
    NonzeroHasBit(remaining);
    var rest := And(remaining, remaining - 1);
    forall i: nat
      ensures Bit(rest, i) <==> Bit(WordAt(rows, 0, word), i) && current + 1 <= IndexOf(g, word, i)
    {
      ClearLowest(remaining, i);
    }
    forall n: nat | current + 1 <= n && WordOf(g, n) < word ensures !BitAt(g, rows, 0, n) {
      WordMonotone(g, current, n);
    }
  }

  // A maximal run of members.
  ghost predicate MaximalRun(g: Shape, rows: Rows, first: nat, end: nat) {
    && first < end <= g.count
    && (forall n: nat :: first <= n < end ==> BitAt(g, rows, 0, n))
    && !BitAt(g, rows, 0, end)
    && (first == 0 || !BitAt(g, rows, 0, first - 1))
  }

  // countr_one(word >> offset) measures the run that starts at `at`, within its word.
  lemma RunInThisWord(g: Shape, rows: Rows, at: nat, run: nat)
    requires 0 < |rows| && Shaped(g, rows) && InBounds(g, rows)
    requires run == CountrOne(Shr(WordAt(rows, 0, WordOf(g, at)), OffsetOf(g, at)))
    ensures OffsetOf(g, at) + run <= g.wordBits
    ensures forall n: nat :: at <= n < at + run ==> BitAt(g, rows, 0, n)
    ensures OffsetOf(g, at) + run != g.wordBits ==> !BitAt(g, rows, 0, at + run)
  {
    hide WordOf, OffsetOf, Shr, CountrOne, Bit, Pow2, Levels;
    var word := WordAt(rows, 0, WordOf(g, at));
    var offset := OffsetOf(g, at);
    CountrOneRun(Shr(word, offset));
    forall n: nat | at <= n < at + run
      ensures BitAt(g, rows, 0, n)
      ensures offset + (n - at) < g.wordBits
    {
      BitShr(word, offset, n - at);
      BitBelow(word, g.wordBits, offset + (n - at));
      Advance(g, at, n - at);
    }
    if run > 0 { assert BitAt(g, rows, 0, at + (run - 1)); }
    if offset + run < g.wordBits {
      BitShr(word, offset, run);
      Advance(g, at, run);
    }
  }

  // One round of the loop that extends a run word by word.
  lemma ExtendRun(g: Shape, rows: Rows, first: nat, end: nat, run: nat)
    requires 0 < |rows| && Shaped(g, rows) && InBounds(g, rows) && end < g.count
    requires run == CountrOne(Shr(WordAt(rows, 0, WordOf(g, end)), OffsetOf(g, end)))
    requires forall n: nat :: first <= n < end ==> BitAt(g, rows, 0, n)
    ensures forall n: nat :: first <= n < end + run ==> BitAt(g, rows, 0, n)
    ensures end + run <= g.count
    ensures run != g.wordBits - OffsetOf(g, end) ==> !BitAt(g, rows, 0, end + run)
  {
    RunInThisWord(g, rows, end, run);
    if run > 0 { assert BitAt(g, rows, 0, end + (run - 1)); }
  }

  lemma RunEnds(g: Shape, rows: Rows, start: nat, first: nat, end: nat)
    requires 0 < |rows| && InBounds(g, rows) && NextBit(g, rows, 0, start, first) && first <= end <= g.count
    requires start == 0 || !BitAt(g, rows, 0, start)
    requires forall n: nat :: first <= n < end ==> BitAt(g, rows, 0, n)
    requires end == g.count || !BitAt(g, rows, 0, end)
    ensures !BitAt(g, rows, 0, g.count)
    ensures start <= first || first == g.count
    ensures first < g.count ==> MaximalRun(g, rows, first, end)
  {
  }

  // ---- what a full pass yields ----

  ghost predicate Ascending(s: seq<nat>) {
    forall i, j :: 0 <= i < j < |s| ==> s[i] < s[j]
  }

  // A strictly ascending list is determined by its elements: the enumeration is unique.
  lemma {:induction false} AscendingUnique(a: seq<nat>, b: seq<nat>)
    requires Ascending(a) && Ascending(b)
    requires forall n: nat :: n in a <==> n in b
    ensures a == b
  {
    if a != [] { assert a[0] in a; }
    if b != [] { assert b[0] in b; }
    if a != [] && b != [] {
      var x, y := a[|a| - 1], b[|b| - 1];
      assert x in b && y in a;
      assert x == y;
      var a', b' := a[..|a| - 1], b[..|b| - 1];
      forall n: nat ensures n in a' <==> n in b' {
        if n in a' { assert n in a && n != x; }
        if n in b' { assert n in b && n != y; }
      }
      AscendingUnique(a', b');
    }
  }

  // Runs listed in order, each maximal, covering exactly the members below `high`.
  ghost predicate RunsUpTo(g: Shape, rows: Rows, runs: seq<(nat, nat)>, high: nat) {
    && (forall i :: 0 <= i < |runs| ==>
          MaximalRun(g, rows, runs[i].0, runs[i].0 + runs[i].1) && runs[i].0 + runs[i].1 <= high)
    && (forall i, j :: 0 <= i < j < |runs| ==> runs[i].0 + runs[i].1 < runs[j].0)
    && (forall n: nat :: n < high && BitAt(g, rows, 0, n) ==>
          exists i :: 0 <= i < |runs| && runs[i].0 <= n < runs[i].0 + runs[i].1)
  }

  lemma MoreRuns(runs: seq<(nat, nat)>, run: (nat, nat), n: nat)
    requires exists i :: 0 <= i < |runs| && runs[i].0 <= n < runs[i].0 + runs[i].1
    ensures exists i :: 0 <= i < |runs + [run]| && (runs + [run])[i].0 <= n < (runs + [run])[i].0 + (runs + [run])[i].1
  {
    var i :| 0 <= i < |runs| && runs[i].0 <= n < runs[i].0 + runs[i].1;
    assert (runs + [run])[i] == runs[i];
  }

  lemma AppendRun(g: Shape, rows: Rows, runs: seq<(nat, nat)>, high: nat, first: nat, end: nat)
    requires RunsUpTo(g, rows, runs, high) && MaximalRun(g, rows, first, end) && high <= first
    requires |runs| > 0 ==> !BitAt(g, rows, 0, high)
    requires forall n: nat :: high <= n < first ==> !BitAt(g, rows, 0, n)
    ensures RunsUpTo(g, rows, runs + [(first, end - first)], end)
  {
    hide BitAt;
    var all := runs + [(first, end - first)];
    assert all[|runs|] == (first, end - first);
    forall i | 0 <= i < |runs| ensures all[i] == runs[i] && runs[i].0 + runs[i].1 < first {
      assert BitAt(g, rows, 0, first);
    }
    forall n: nat | n < end && BitAt(g, rows, 0, n)
      ensures exists i :: 0 <= i < |all| && all[i].0 <= n < all[i].0 + all[i].1
    {
      if n < high {
        MoreRuns(runs, (first, end - first), n);
      } else {
        assert all[|runs|].0 <= n < all[|runs|].0 + all[|runs|].1;
      }
    }
  }

  lemma EmptyRuns(g: Shape, rows: Rows)
    ensures RunsUpTo(g, rows, [], 0)
  {
  }

  lemma FinishRuns(g: Shape, rows: Rows, runs: seq<(nat, nat)>, high: nat)
    requires RunsUpTo(g, rows, runs, high) && high <= g.count
    requires forall n: nat :: high <= n < g.count ==> !BitAt(g, rows, 0, n)
    ensures RunsUpTo(g, rows, runs, g.count)
  {
  }

  lemma AppendIndex(visited: seq<nat>, n: nat)
    requires Ascending(visited) && forall k: nat :: k in visited ==> k < n
    ensures Ascending(visited + [n])
  {
    forall i | 0 <= i < |visited| ensures visited[i] < n { assert visited[i] in visited; }
  }
}
