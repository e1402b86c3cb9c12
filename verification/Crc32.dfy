// The CRC-32 of byte sequences.
module Crc32 {
  import opened Crc32Table

  // Exclusive or, by name so that proofs can use its laws without looking at bits.
  function Plus(x: bv32, y: bv32): bv32 {
    x ^ y
  }

  lemma Assoc(x: bv32, y: bv32, z: bv32)
    ensures Plus(Plus(x, y), z) == Plus(x, Plus(y, z))
  {
  }

  lemma Comm(x: bv32, y: bv32)
    ensures Plus(x, y) == Plus(y, x)
  {
  }

  lemma Self(x: bv32, y: bv32)
    ensures Plus(Plus(x, y), y) == x
  {
  }

  // Sums of pairs, pair by pair.
  lemma Pairs(a: bv32, b: bv32, c: bv32, d: bv32)
    ensures Plus(Plus(a, b), Plus(c, d)) == Plus(Plus(a, c), Plus(b, d))
  {
    hide Plus;
    Assoc(a, b, Plus(c, d));
    Assoc(b, c, d);
    Comm(b, c);
    Assoc(c, b, d);
    Assoc(a, c, Plus(b, d));
  }

  // Dividing one more byte, bit by bit.
  function Divide(crc: bv32, b: bv8): bv32 {
    Byte(Plus(crc, b as bv32))
  }

  // The reflected division of a message, bit by bit, from a given state.
  function Remainder(crc: bv32, data: seq<bv8>): bv32 {
    if data == [] then crc else Divide(Remainder(crc, data[..|data| - 1]), data[|data| - 1])
  }

  function Half(x: bv32): bv32 {
    x >> 1
  }

  predicate Odd(x: bv32) {
    x & 1 == 1
  }

  lemma HalfAffine(x: bv32, y: bv32)
    ensures Half(Plus(x, y)) == Plus(Half(x), Half(y)) && Odd(Plus(x, y)) == (Odd(x) != Odd(y))
  {
  }

  lemma BitIs(x: bv32)
    ensures Bit(x) == if Odd(x) then Plus(Half(x), POLYNOMIAL) else Half(x)
  {
  }

  lemma BitAffine(x: bv32, y: bv32)
    ensures Bit(Plus(x, y)) == Plus(Bit(x), Bit(y))
  {
    hide Plus, Half, Odd, Bit;
    BitIs(x);
    BitIs(y);
    BitIs(Plus(x, y));
    HalfAffine(x, y);
    var h, k, p := Half(x), Half(y), POLYNOMIAL;
    if Odd(x) && Odd(y) {
      Pairs(h, p, k, p);
      Self(Plus(h, k), Plus(p, p));
      Assoc(Plus(h, k), p, p);
      Self(Plus(h, k), p);
    } else if Odd(x) {
      Assoc(h, p, k);
      Comm(p, k);
      Assoc(h, k, p);
    } else if Odd(y) {
      Assoc(h, k, p);
    }
  }

  lemma ByteAffine(x: bv32, y: bv32)
    ensures Byte(Plus(x, y)) == Plus(Byte(x), Byte(y))
  {
    hide Bit, Plus;
    BitAffine(x, y);
    BitAffine(Bit(x), Bit(y));
    BitAffine(Bit(Bit(x)), Bit(Bit(y)));
    BitAffine(Bit(Bit(Bit(x))), Bit(Bit(Bit(y))));
    BitAffine(Bit(Bit(Bit(Bit(x)))), Bit(Bit(Bit(Bit(y)))));
    BitAffine(Bit(Bit(Bit(Bit(Bit(x))))), Bit(Bit(Bit(Bit(Bit(y))))));
    BitAffine(Bit(Bit(Bit(Bit(Bit(Bit(x)))))), Bit(Bit(Bit(Bit(Bit(Bit(y)))))));
    BitAffine(Bit(Bit(Bit(Bit(Bit(Bit(Bit(x))))))), Bit(Bit(Bit(Bit(Bit(Bit(Bit(y))))))));
  }

  // A multiple of 256 only moves down.
  lemma ByteShifts(x: bv32)
    requires x & 0xFF == 0
    ensures Byte(x) == x >> 8
  {
  }

  lemma LowAndHigh(crc: bv32, b: bv8)
    ensures var x := Plus(crc, b as bv32);
            && Plus(x & 0xFF, x & 0xFFFF_FF00) == x && x & 0xFF < 256
            && (x & 0xFFFF_FF00) & 0xFF == 0 && (x & 0xFFFF_FF00) >> 8 == crc >> 8
  {
  }

  function TableStep(crc: bv32, b: bv8): bv32 {
    (crc >> 8) ^ TableEntry((crc ^ (b as bv32)) & 0xFF)
  }

  // The table step is the division of a byte.
  lemma TableStepDivides(crc: bv32, b: bv8)
    ensures TableStep(crc, b) == Divide(crc, b)
  {
    hide Byte, TableEntry;
    assert crc ^ (b as bv32) == Plus(crc, b as bv32);
    assert (crc >> 8) ^ TableEntry((crc ^ (b as bv32)) & 0xFF) ==
             Plus(crc >> 8, TableEntry((crc ^ (b as bv32)) & 0xFF));
    LowAndHigh(crc, b);
    hide Plus;
    var x := Plus(crc, b as bv32);
    TableIsDivision(x & 0xFF);
    ByteAffine(x & 0xFF, x & 0xFFFF_FF00);
    ByteShifts(x & 0xFFFF_FF00);
    Comm(crc >> 8, Byte(x & 0xFF));
  }

  method UpdateCRC32(crc: bv32, data: seq<bv8>) returns (r: bv32)
    ensures r == Remainder(crc, data)
  {
    hide Divide, TableStep;
    r := crc;
    var i := 0;
    while i < |data|
      invariant i <= |data| && r == Remainder(crc, data[..i])
    {
      assert data[..i + 1][..i] == data[..i];
      TableStepDivides(r, data[i]);
      r := TableStep(r, data[i]);
      i := i + 1;
    }
    assert data[..i] == data;
  }

  // The complement.
  function FinalizeCRC32(crc: bv32): bv32 {
    crc ^ 0xFFFF_FFFF
  }

  lemma FinalizeInjective(x: bv32, y: bv32)
    requires FinalizeCRC32(x) == FinalizeCRC32(y)
    ensures x == y
  {
  }

  function Checksum(data: seq<bv8>): bv32 {
    FinalizeCRC32(Remainder(0xFFFF_FFFF, data))
  }

  method ComputeCRC32(data: seq<bv8>) returns (r: bv32)
    ensures r == Checksum(data)
  {
    var crc := UpdateCRC32(0xFFFF_FFFF, data);
    r := FinalizeCRC32(crc);
  }

  // ---- Laws ----

  // A message may be given in pieces.
  lemma {:induction false} Pieces(crc: bv32, a: seq<bv8>, b: seq<bv8>)
    ensures Remainder(crc, a + b) == Remainder(Remainder(crc, a), b)
    decreases |b|
  {
    hide Divide;
    if b == [] {
      assert a + b == a;
    } else {
      assert (a + b)[..|a + b| - 1] == a + b[..|b| - 1];
      Pieces(crc, a, b[..|b| - 1]);
    }
  }

  function Xor(a: seq<bv8>, b: seq<bv8>): (r: seq<bv8>)
    requires |a| == |b|
    ensures |r| == |a|
  {
    seq(|a|, i requires 0 <= i < |a| => a[i] ^ b[i])
  }

  lemma XorAsWord(x: bv8, y: bv8)
    ensures (x ^ y) as bv32 == Plus(x as bv32, y as bv32)
  {
  }

  lemma DivideAffine(c: bv32, d: bv32, x: bv8, y: bv8)
    ensures Divide(Plus(c, d), x ^ y) == Plus(Divide(c, x), Divide(d, y))
  {
    hide Byte, Plus;
    XorAsWord(x, y);
    Pairs(c, d, x as bv32, y as bv32);
    ByteAffine(Plus(c, x as bv32), Plus(d, y as bv32));
  }

  // The division is linear over exclusive or, for messages of the same length.
  lemma {:induction false} Affine(c: bv32, d: bv32, a: seq<bv8>, b: seq<bv8>)
    requires |a| == |b|
    ensures Remainder(Plus(c, d), Xor(a, b)) == Plus(Remainder(c, a), Remainder(d, b))
    decreases |a|
  {
    hide Divide, Plus;
    if a != [] {
      var n := |a| - 1;
      assert Xor(a, b)[..n] == Xor(a[..n], b[..n]);
      Affine(c, d, a[..n], b[..n]);
      DivideAffine(Remainder(c, a[..n]), Remainder(d, b[..n]), a[n], b[n]);
    }
  }

  // ---- Errors that are always seen ----

  lemma BitInjective(x: bv32, y: bv32)
    requires Bit(x) == Bit(y)
    ensures x == y
  {
  }

  lemma ByteInjective(x: bv32, y: bv32)
    requires Byte(x) == Byte(y)
    ensures x == y
  {
    hide Bit;
    BitInjective(Bit(Bit(Bit(Bit(Bit(Bit(Bit(x))))))), Bit(Bit(Bit(Bit(Bit(Bit(Bit(y))))))));
    BitInjective(Bit(Bit(Bit(Bit(Bit(Bit(x)))))), Bit(Bit(Bit(Bit(Bit(Bit(y)))))));
    BitInjective(Bit(Bit(Bit(Bit(Bit(x))))), Bit(Bit(Bit(Bit(Bit(y))))));
    BitInjective(Bit(Bit(Bit(Bit(x)))), Bit(Bit(Bit(Bit(y)))));
    BitInjective(Bit(Bit(Bit(x))), Bit(Bit(Bit(y))));
    BitInjective(Bit(Bit(x)), Bit(Bit(y)));
    BitInjective(Bit(x), Bit(y));
    BitInjective(x, y);
  }

  // States that differ stay different whatever follows.
  lemma {:induction false} StatesStayApart(c: bv32, d: bv32, data: seq<bv8>)
    requires Remainder(c, data) == Remainder(d, data)
    ensures c == d
    decreases |data|
  {
    if data != [] {
      var n := |data| - 1;
      var x, y := Remainder(c, data[..n]), Remainder(d, data[..n]);
      var b := data[n] as bv32;
      hide Byte, Plus;
      ByteInjective(Plus(x, b), Plus(y, b));
      Self(x, b);
      Self(y, b);
      StatesStayApart(c, d, data[..n]);
    }
  }

  function Up(x: bv32): bv32 {
    x << 8
  }

  lemma UpIs(rest: bv32)
    requires rest & 0xFF00_0000 == 0
    ensures Up(rest) & 0xFF == 0 && Up(rest) >> 8 == rest
  {
  }

  // Bytes that come in later can be added before the division of the earlier ones.
  lemma Later(x: bv32, rest: bv32)
    requires rest & 0xFF00_0000 == 0
    ensures Byte(Plus(x, Up(rest))) == Plus(Byte(x), rest)
  {
    UpIs(rest);
    hide Byte, Plus, Up;
    ByteAffine(x, Up(rest));
    ByteShifts(Up(rest));
  }

  // A byte below others.
  function Join(b: bv8, rest: bv32): bv32 {
    Plus(b as bv32, Up(rest))
  }

  // Four bytes, little-endian.
  function Word(w: seq<bv8>): bv32
    requires |w| == 4
  {
    Join(w[0], Tail3(w))
  }

  function Tail3(w: seq<bv8>): bv32
    requires |w| == 4
  {
    Join(w[1], Tail2(w))
  }

  function Tail2(w: seq<bv8>): bv32
    requires |w| == 4
  {
    Join(w[2], w[3] as bv32)
  }

  lemma JoinBounds(b: bv8, rest: bv32)
    ensures rest < 0x100 ==> Join(b, rest) < 0x1_0000
    ensures rest < 0x1_0000 ==> Join(b, rest) < 0x100_0000
    ensures rest < 0x100_0000 ==> rest & 0xFF00_0000 == 0
  {
  }

  lemma TailBounds(w: seq<bv8>)
    requires |w| == 4
    ensures Tail3(w) & 0xFF00_0000 == 0 && Tail2(w) & 0xFF00_0000 == 0 && (w[3] as bv32) & 0xFF00_0000 == 0
  {
    ByteBound(w[3]);
    hide Join;
    JoinBounds(w[2], w[3] as bv32);
    JoinBounds(w[1], Tail2(w));
    JoinBounds(w[0], Tail3(w));
  }

  lemma ByteBound(b: bv8)
    ensures b as bv32 < 0x100 && (b as bv32) & 0xFF00_0000 == 0
  {
  }

  lemma JoinInjective(b: bv8, c: bv8, x: bv32, y: bv32)
    requires Join(b, x) == Join(c, y) && x & 0xFF00_0000 == 0 && y & 0xFF00_0000 == 0
    ensures b == c && x == y
  {
  }

  // The division of one byte of a word leaves the word of the others.
  lemma OneOfWord(s: bv32, b: bv32, rest: bv32)
    requires rest & 0xFF00_0000 == 0
    ensures Byte(Plus(s, Plus(b, Up(rest)))) == Plus(Byte(Plus(s, b)), rest)
  {
    hide Byte, Plus, Up;
    Assoc(s, b, Up(rest));
    Later(Plus(s, b), rest);
  }

  lemma FourBytes(crc: bv32, w: seq<bv8>)
    requires |w| == 4
    ensures Remainder(crc, w) == Byte(Byte(Byte(Byte(Plus(crc, Word(w))))))
  {
    TailBounds(w);
    FourSteps(crc, w);
    hide Byte, Plus, Up, Remainder;
    OneOfWord(crc, w[0] as bv32, Tail3(w));
    var s1 := Divide(crc, w[0]);
    OneOfWord(s1, w[1] as bv32, Tail2(w));
    var s2 := Divide(s1, w[1]);
    OneOfWord(s2, w[2] as bv32, w[3] as bv32);
  }

  lemma FourSteps(crc: bv32, w: seq<bv8>)
    requires |w| == 4
    ensures Remainder(crc, w) == Divide(Divide(Divide(Divide(crc, w[0]), w[1]), w[2]), w[3])
  {
    hide Divide;
    assert w[..3][..2] == w[..2] && w[..2][..1] == w[..1] && w[..1][..0] == [];
    assert Remainder(crc, w[..1]) == Divide(crc, w[0]);
    assert Remainder(crc, w[..2]) == Divide(Remainder(crc, w[..1]), w[1]);
    assert Remainder(crc, w[..3]) == Divide(Remainder(crc, w[..2]), w[2]);
  }

  lemma WordInjective(v: seq<bv8>, w: seq<bv8>)
    requires |v| == |w| == 4 && Word(v) == Word(w)
    ensures v == w
  {
    TailBounds(v);
    TailBounds(w);
    hide Join;
    JoinInjective(v[0], w[0], Tail3(v), Tail3(w));
    JoinInjective(v[1], w[1], Tail2(v), Tail2(w));
    JoinInjective(v[2], w[2], v[3] as bv32, w[3] as bv32);
    WidenInjective(v[3], w[3]);
  }

  lemma WidenInjective(b: bv8, c: bv8)
    requires b as bv32 == c as bv32
    ensures b == c
  {
  }

  // From one state, different words of four bytes lead to different states.
  lemma FourBytesSeen(crc: bv32, v: seq<bv8>, w: seq<bv8>)
    requires |v| == |w| == 4 && Remainder(crc, v) == Remainder(crc, w)
    ensures v == w
  {
    hide Byte, Word, Remainder, Plus;
    FourBytes(crc, v);
    FourBytes(crc, w);
    var x, y := Plus(crc, Word(v)), Plus(crc, Word(w));
    ByteInjective(Byte(Byte(Byte(x))), Byte(Byte(Byte(y))));
    ByteInjective(Byte(Byte(x)), Byte(Byte(y)));
    ByteInjective(Byte(x), Byte(y));
    ByteInjective(x, y);
    Comm(crc, Word(v));
    Comm(crc, Word(w));
    Self(Word(v), crc);
    Self(Word(w), crc);
    WordInjective(v, w);
  }

  // Two messages that differ, but only within four consecutive bytes, have different checksums.
  lemma BurstSeen(before: seq<bv8>, v: seq<bv8>, w: seq<bv8>, after: seq<bv8>)
    requires |v| == |w| <= 4 && v != w
    ensures Checksum(before + v + after) != Checksum(before + w + after)
  {
    hide FinalizeCRC32, Remainder;
    if Checksum(before + v + after) == Checksum(before + w + after) {
      FinalizeInjective(Remainder(0xFFFF_FFFF, before + v + after), Remainder(0xFFFF_FFFF, before + w + after));
      SameStateSameBurst(before, v, w, after);
    }
  }

  lemma SameStateSameBurst(before: seq<bv8>, v: seq<bv8>, w: seq<bv8>, after: seq<bv8>)
    requires |v| == |w| <= 4
    requires Remainder(0xFFFF_FFFF, before + v + after) == Remainder(0xFFFF_FFFF, before + w + after)
    ensures v == w
  {
    hide Remainder;
    var s := Remainder(0xFFFF_FFFF, before);
    Pieces(0xFFFF_FFFF, before + v, after);
    Pieces(0xFFFF_FFFF, before + w, after);
    Pieces(0xFFFF_FFFF, before, v);
    Pieces(0xFFFF_FFFF, before, w);
    StatesStayApart(Remainder(s, v), Remainder(s, w), after);
    var zeros := seq(4 - |v|, _ => 0 as bv8);
    Pieces(s, v, zeros);
    Pieces(s, w, zeros);
    FourBytesSeen(s, v + zeros, w + zeros);
    assert v == (v + zeros)[..|v|] && w == (w + zeros)[..|w|];
  }

  lemma RemainderNext(crc: bv32, data: seq<bv8>, k: nat)
    requires k < |data|
    ensures Remainder(crc, data[..k + 1]) == Divide(Remainder(crc, data[..k]), data[k])
  {
    assert data[..k + 1][..k] == data[..k];
  }

  // The digits 1 to 9 have the check value of CRC-32.
  lemma CheckValue()
    ensures Checksum([0x31, 0x32, 0x33, 0x34, 0x35, 0x36, 0x37, 0x38, 0x39]) == 0xCBF4_3926
  {
    hide Remainder, Divide;
    var digits: seq<bv8> := [0x31, 0x32, 0x33, 0x34, 0x35, 0x36, 0x37, 0x38, 0x39];
    DigitSteps();
    assert digits[..0] == [] && Remainder(0xFFFF_FFFF, []) == 0xFFFF_FFFF by { NothingDivided(0xFFFF_FFFF); }
    RemainderNext(0xFFFF_FFFF, digits, 0);
    RemainderNext(0xFFFF_FFFF, digits, 1);
    RemainderNext(0xFFFF_FFFF, digits, 2);
    RemainderNext(0xFFFF_FFFF, digits, 3);
    RemainderNext(0xFFFF_FFFF, digits, 4);
    RemainderNext(0xFFFF_FFFF, digits, 5);
    RemainderNext(0xFFFF_FFFF, digits, 6);
    RemainderNext(0xFFFF_FFFF, digits, 7);
    RemainderNext(0xFFFF_FFFF, digits, 8);
    assert digits[..9] == digits;
  }

  lemma NothingDivided(crc: bv32)
    ensures Remainder(crc, []) == crc
  {
  }

  lemma DigitSteps()
    ensures Divide(0xFFFF_FFFF, 0x31) == 0x7C231048
    ensures Divide(0x7C231048, 0x32) == 0xB0ACBB32
    ensures Divide(0xB0ACBB32, 0x33) == 0x77B79C2D
    ensures Divide(0x77B79C2D, 0x34) == 0x641C1F5C
    ensures Divide(0x641C1F5C, 0x35) == 0x340AC5E3
    ensures Divide(0x340AC5E3, 0x36) == 0xF68D2C9E
    ensures Divide(0xF68D2C9E, 0x37) == 0xAFFC9660
    ensures Divide(0xAFFC9660, 0x38) == 0x651F2550
    ensures Divide(0x651F2550, 0x39) == 0x340BC6D9
  {
  }

  lemma PlusNothing(x: bv32, y: bv32)
    ensures Plus(x, y) == 0 <==> x == y
  {
    hide Plus;
    Self(x, y);
    Self(0, y);
    NothingPlus(y);
  }

  lemma NothingPlus(x: bv32)
    ensures Plus(0, x) == x
  {
  }

  // Exactly the changes that are multiples of the polynomial go unnoticed, whatever the message.
  lemma UnseenExactly(a: seq<bv8>, b: seq<bv8>)
    requires |a| == |b|
    ensures Checksum(a) == Checksum(b) <==> Remainder(0, Xor(a, b)) == 0
  {
    hide Remainder, FinalizeCRC32, Plus, Xor;
    var ones: bv32 := 0xFFFF_FFFF;
    PlusNothing(ones, ones);
    Affine(ones, ones, a, b);
    PlusNothing(Remainder(ones, a), Remainder(ones, b));
    if Checksum(a) == Checksum(b) { FinalizeInjective(Remainder(ones, a), Remainder(ones, b)); }
  }

  // Five bytes are too many: this change of a message of five zeros goes unnoticed.
  lemma FiveBytesMissed()
    ensures Checksum([0, 0, 0, 0, 0]) == Checksum([1, 0x96, 0x30, 0x07, 0x77])
  {
    hide Remainder, Checksum;
    var zeros: seq<bv8>, change: seq<bv8> := [0, 0, 0, 0, 0], [1, 0x96, 0x30, 0x07, 0x77];
    ChangeDivides();
    assert Xor(zeros, change) == change;
    UnseenExactly(zeros, change);
  }

  // The change is a multiple of the polynomial.
  lemma ChangeDivides()
    ensures Remainder(0, [1, 0x96, 0x30, 0x07, 0x77]) == 0
  {
    hide Remainder, Byte, Plus, Word;
    var rest: seq<bv8> := [0x96, 0x30, 0x07, 0x77];
    assert [1, 0x96, 0x30, 0x07, 0x77] == [1 as bv8] + rest;
    Pieces(0, [1], rest);
    OneByte(0, 1);
    FourBytes(Byte(1), rest);
    FirstEntry();
  }

  lemma OneByte(crc: bv32, b: bv8)
    ensures Remainder(crc, [b]) == Byte(Plus(crc, b as bv32))
  {
    hide Byte, Plus;
    assert [b][..0] == [];
  }

  lemma FirstEntry()
    ensures Byte(Plus(0, (1 as bv8) as bv32)) == Byte(1) && Byte(0) == 0
    ensures Plus(Byte(1), Word([0x96, 0x30, 0x07, 0x77])) == 0
  {
  }
}
