// Sparse vectors of blocks: the first block inline, the others in an overflow vector. The vector owns its
// blocks, which are values here; their operations are those proved for FlaggedArray.
module FlaggedVector {
  import DivMod
  import opened FlaggedArray

  // ---- Block and offset of an index ----

  function BlockOf(b: nat, i: nat): nat
    requires b > 0
  {
    if i < b then 0 else 1 + BlockOf(b, i - b)
  }

  function OffsetOf(b: nat, i: nat): (o: nat)
    requires b > 0
    ensures o < b
  {
    if i < b then i else OffsetOf(b, i - b)
  }

  function Start(b: nat, k: nat): nat {
    if k == 0 then 0 else Start(b, k - 1) + b
  }

  // They are the quotient and the remainder.
  lemma {:induction false} BlockIsQuotient(b: nat, i: nat)
    requires b > 0
    ensures BlockOf(b, i) == i / b && OffsetOf(b, i) == i % b
  {
    if i < b {
      DivMod.QuotientUnique(i, b, 0, i);
    } else {
      BlockIsQuotient(b, i - b);
      DivMod.Fundamental(i - b, b);
      DivMod.Distribute(b, (i - b) / b, 1);
      DivMod.QuotientUnique(i, b, (i - b) / b + 1, (i - b) % b);
    }
  }

  lemma {:induction false} Decompose(b: nat, i: nat)
    requires b > 0
    ensures Start(b, BlockOf(b, i)) + OffsetOf(b, i) == i
  {
    if i >= b { Decompose(b, i - b); }
  }

  lemma {:induction false} Compose(b: nat, k: nat, o: nat)
    requires b > 0 && o < b
    ensures BlockOf(b, Start(b, k) + o) == k && OffsetOf(b, Start(b, k) + o) == o
  {
    if k > 0 { Compose(b, k - 1, o); }
  }

  lemma {:induction false} StartMonotone(b: nat, j: nat, k: nat)
    requires j < k
    ensures Start(b, j) + b <= Start(b, k)
    decreases k
  {
    if j < k - 1 { StartMonotone(b, j, k - 1); }
  }

  lemma BlockMonotone(b: nat, i: nat, j: nat)
    requires b > 0 && i <= j
    ensures BlockOf(b, i) <= BlockOf(b, j)
  {
    hide BlockOf, OffsetOf, Start;
    Decompose(b, i);
    Decompose(b, j);
    if BlockOf(b, j) < BlockOf(b, i) { StartMonotone(b, BlockOf(b, j), BlockOf(b, i)); }
  }

  // ---- The vector's value ----

  // All blocks in a row.
  function Blocks<T>(first: Block<T>, overflow: seq<Block<T>>): (bs: seq<Block<T>>)
    ensures |bs| == |overflow| + 1
  {
    [first] + overflow
  }

  ghost predicate Sound<T>(b: nat, bs: seq<Block<T>>, size: nat) {
    && b > 0
    && (forall k :: 0 <= k < |bs| ==> bs[k].Valid(b))
    && (forall i: nat :: i < size ==> BlockOf(b, i) < |bs|)
    && (forall k: nat, o: nat :: k < |bs| && o in bs[k].flags ==> Start(b, k) + o < size)
  }

  datatype Slot<T> = Absent | Present(value: T)

  // What an index shows: the stored value if its flag is set.
  function Look<T>(b: nat, bs: seq<Block<T>>, i: nat): Slot<T>
    requires b > 0
  {
    var k, o := BlockOf(b, i), OffsetOf(b, i);
    if k < |bs| && bs[k].Has(o) && o < |bs[k].storage| then Present(bs[k].storage[o]) else Absent
  }

  // The partial map from indexes to values.
  ghost function Map<T>(b: nat, bs: seq<Block<T>>, size: nat): (m: map<nat, T>)
    requires Sound(b, bs, size)
    ensures forall i: nat :: i in m <==> Look(b, bs, i).Present?
    ensures forall i: nat :: i in m ==> i < size && Look(b, bs, i) == Present(m[i])
  {
    PresentBelow(b, bs, size);
    map i: nat | i < size && Look(b, bs, i).Present? :: Look(b, bs, i).value
  }

  lemma PresentBelow<T>(b: nat, bs: seq<Block<T>>, size: nat)
    requires Sound(b, bs, size)
    ensures forall i: nat :: Look(b, bs, i).Present? ==> i < size
  {
    hide BlockOf, OffsetOf, Start;
    forall i: nat | Look(b, bs, i).Present? ensures i < size {
      Decompose(b, i);
    }
  }

  // Every present slot, by block and offset.
  lemma SlotPresent<T>(b: nat, bs: seq<Block<T>>, k: nat, o: nat)
    requires b > 0 && o < b && k < |bs| && |bs[k].storage| == b
    ensures Look(b, bs, Start(b, k) + o) == if o in bs[k].flags then Present(bs[k].storage[o]) else Absent
  {
    Compose(b, k, o);
  }

  function Empty<T>(b: nat, initial: T): Block<T> {
    Block(seq(b, _ => initial), {})
  }

  class FlaggedVector<T> {
    const blockSize: nat
    const initial: T
    var first: Block<T>
    var overflow: seq<Block<T>>
    var size: nat

    ghost predicate Valid()
      reads this
    {
      Sound(blockSize, Blocks(first, overflow), size)
    }

    ghost function Contents(): map<nat, T>
      requires Valid()
      reads this
    {
      Map(blockSize, Blocks(first, overflow), size)
    }

    constructor (blockSize: nat, initial: T)
      requires blockSize > 0
      ensures Valid() && Contents() == map[] && size == 0 && this.blockSize == blockSize && this.initial == initial
    {
      this.blockSize, this.initial := blockSize, initial;
      first, overflow, size := Empty(blockSize, initial), [], 0;
    }

    function GetBlock(k: nat): Block<T>
      requires k <= |overflow|
      reads this
    {
      if k == 0 then first else overflow[k - 1]
    }

    // The block and the offset in it of an index.
    method Split(index: nat) returns (block: nat, offset: nat)
      requires blockSize > 0
      ensures block == BlockOf(blockSize, index) && offset == OffsetOf(blockSize, index)
    {
      BlockIsQuotient(blockSize, index);
      block, offset := index / blockSize, index % blockSize;
    }

    method PutBlock(k: nat, block: Block<T>)
      requires k <= |overflow|
      modifies this`first, this`overflow
      ensures Blocks(first, overflow) == old(Blocks(first, overflow))[k := block] && |overflow| == old(|overflow|)
    {
      if k == 0 { first := block; } else { overflow := overflow[k - 1 := block]; }
    }

    // Room for block k; new blocks have no members.
    method Grow(k: nat)
      requires Valid()
      modifies this`overflow
      ensures Valid() && k <= |overflow| && Contents() == old(Contents()) && |overflow| >= old(|overflow|)
    {
      hide BlockOf, OffsetOf, Start;
      if k > |overflow| {
        ghost var bs := Blocks(first, overflow);
        overflow := overflow + seq(k - |overflow|, _ => Empty(blockSize, initial));
        GrownSame(blockSize, bs, Blocks(first, overflow), size);
      }
    }

    method Set(index: nat, value: T)
      requires Valid()
      modifies this
      ensures Valid() && Contents() == old(Contents())[index := value]
      ensures size == if old(size) <= index then index + 1 else old(size)
    {
      hide Sound, BlockOf, OffsetOf, Start, Map;
      SoundBlocks(blockSize, Blocks(first, overflow), size);
      var block, offset := Split(index);
      Grow(block);
      ghost var bs := Blocks(first, overflow);
      SoundBlocks(blockSize, bs, size);
      assert GetBlock(block) == bs[block];
      PutBlock(block, SetAt(GetBlock(block), offset, value));
      WithSlot(blockSize, bs, size, index, value);
      size := if size < index + 1 then index + 1 else size;
    }

    method SetRange(start: nat, values: seq<T>)
      requires Valid()
      modifies this
      ensures Valid() && Contents() == Placed(old(Contents()), start, values)
      ensures size == if values != [] && old(size) < start + |values| then start + |values| else old(size)
    {
      hide Sound, BlockOf, OffsetOf, Start, Map, Look, Placed;
      if values == [] {
        NothingPlaced(Contents(), start);
        return;
      }
      SoundBlocks(blockSize, Blocks(first, overflow), size);
      var end := start + |values|;
      var last, _ := Split(end - 1);
      Grow(last);
      var size' := if size < end then end else size;
      Enlarged(blockSize, Blocks(first, overflow), size, size', end);
      PutAll(start, values, size');
      size := size';
    }

    // Values across blocks; `bound` is the size that the vector is about to have.
    method PutAll(start: nat, values: seq<T>, ghost bound: nat)
      requires Sound(blockSize, Blocks(first, overflow), bound) && start + |values| <= bound
      modifies this`first, this`overflow
      ensures Sound(blockSize, Blocks(first, overflow), bound)
      ensures Map(blockSize, Blocks(first, overflow), bound) ==
              Placed(Map(blockSize, old(Blocks(first, overflow)), bound), start, values)
    {
      hide Sound, BlockOf, OffsetOf, Start, Map, Look, Placed, Blocks;
      ghost var m := Map(blockSize, Blocks(first, overflow), bound);
      var at, rest := start, values;
      ghost var put := 0;
      NothingPlaced(m, start);
      while rest != []
        invariant put <= |values| && at == start + put && rest == values[put..]
        invariant Sound(blockSize, Blocks(first, overflow), bound)
        invariant Map(blockSize, Blocks(first, overflow), bound) == Placed(m, start, values[..put])
        decreases |rest|
      {
        SoundBlocks(blockSize, Blocks(first, overflow), bound);
        var block, offset := Split(at);
        var take := if |rest| < blockSize - offset then |rest| else blockSize - offset;
        PutPart(block, offset, rest[..take], at, bound);
        PlacedMore(m, start, values, put, rest, take, at, put + take);
        at, put := at + take, put + take;
        rest := rest[take..];
      }
      assert values[..put] == values;
    }

    // Values within one block.
    method PutPart(block: nat, offset: nat, values: seq<T>, ghost at: nat, ghost bound: nat)
      requires Sound(blockSize, Blocks(first, overflow), bound) && at < bound && at + |values| <= bound
      requires blockSize > 0 && block == BlockOf(blockSize, at) && offset == OffsetOf(blockSize, at)
      requires offset + |values| <= blockSize
      modifies this`first, this`overflow
      ensures Sound(blockSize, Blocks(first, overflow), bound)
      ensures Map(blockSize, Blocks(first, overflow), bound) ==
              Placed(Map(blockSize, old(Blocks(first, overflow)), bound), at, values)
    {
      hide BlockOf, OffsetOf, Start, Map, Look, SetRangeAt, Placed;
      ghost var bs := Blocks(first, overflow);
      SoundBlocks(blockSize, bs, bound);
      BlockExists(blockSize, bs, bound, at);
      hide Sound;
      assert GetBlock(block) == bs[block];
      PutBlock(block, SetRangeAt(GetBlock(block), offset, values));
      WithRange(blockSize, bs, bound, at, values);
    }

    method Has(index: nat) returns (r: bool)
      requires Valid()
      ensures r <==> index in Contents()
    {
      hide OffsetOf, Start, BlockOf, Sound;
      SoundBlocks(blockSize, Blocks(first, overflow), size);
      var block, offset := Split(index);
      if index >= size { return false; }
      BlockExists(blockSize, Blocks(first, overflow), size, index);
      assert GetBlock(block) == Blocks(first, overflow)[block];
      r := GetBlock(block).Has(offset);
    }

    method Get(index: nat) returns (v: T)
      requires Valid() && index in Contents()
      ensures v == Contents()[index]
    {
      hide OffsetOf, Start, BlockOf, Sound, Map;
      SoundBlocks(blockSize, Blocks(first, overflow), size);
      var block, offset := Split(index);
      BlockExists(blockSize, Blocks(first, overflow), size, index);
      assert GetBlock(block) == Blocks(first, overflow)[block];
      v := GetBlock(block).storage[offset];
    }

    // operator[]: absent slots read as the initial value, whatever they retain.
    method At(index: nat) returns (v: T)
      requires Valid() && index < size
      ensures v == if index in Contents() then Contents()[index] else initial
    {
      var has := Has(index);
      if has { v := Get(index); } else { v := initial; }
    }

    // Members go, blocks and their values stay.
    method Clear()
      requires Valid()
      modifies this
      ensures Valid() && Contents() == map[] && size == 0
    {
      hide BlockOf, OffsetOf, Start;
      ghost var bs := Blocks(first, overflow);
      first := Cleared(first);
      var k := 0;
      while k < |overflow|
        invariant k <= |overflow| && |overflow| + 1 == |bs| && first == Cleared(bs[0])
        invariant forall j :: 0 <= j < |overflow| ==> overflow[j] == if j < k then Cleared(bs[j + 1]) else bs[j + 1]
      {
        overflow := overflow[k := Cleared(overflow[k])];
        k := k + 1;
      }
      size := 0;
      forall i: nat ensures Look(blockSize, Blocks(first, overflow), i) == Absent { }
    }

    method ClearRange(start: nat, count: nat)
      requires Valid() && start <= size && count <= size - start
      modifies this`first, this`overflow
      ensures Valid() && Contents() == Removed(old(Contents()), start, start + count)
    {
      hide Sound, BlockOf, OffsetOf, Start, Map, Look, ClearRangeAt;
      ghost var m := Contents();
      var at, left := start, count;
      NothingRemoved(m, start);
      while left != 0
        invariant start <= at && 0 <= left && at + left == start + count <= size && Valid()
        invariant Contents() == Removed(m, start, at)
        decreases left
      {
        ghost var bs := Blocks(first, overflow);
        SoundBlocks(blockSize, bs, size);
        BlockExists(blockSize, bs, size, at);
        var block, offset := Split(at);
        var take := if left < blockSize - offset then left else blockSize - offset;
        assert GetBlock(block) == bs[block];
        PutBlock(block, ClearRangeAt(GetBlock(block), offset, take));
        WithoutRange(blockSize, bs, size, at, take);
        RemovedMore(m, start, at, take);
        at := at + take;
        left := left - take;
      }
    }

    method Reset(index: nat)
      requires Valid() && index < size
      modifies this`first, this`overflow
      ensures Valid() && Contents() == Removed(old(Contents()), index, index + 1)
    {
      ClearRange(index, 1);
    }

    // The values at 0, 1, 2, ... and nothing else.
    method Assign(values: seq<T>)
      requires Valid()
      modifies this
      ensures Valid() && size == |values| && Contents() == Placed(map[], 0, values)
    {
      hide Sound, Map;
      Clear();
      var k := 0;
      NothingPlaced<T>(map[], 0);
      while k < |values|
        invariant k <= |values| && Valid() && size == k
        invariant Contents() == Placed(map[], 0, values[..k])
      {
        Set(size, values[k]);
        assert values[..k + 1] == values[..k] + [values[k]];
        k := k + 1;
      }
      assert values[..k] == values;
    }

    // Move assignment: the members move over, the other vector is left without any.
    method MoveFrom(other: FlaggedVector<T>)
      requires Valid() && other.Valid() && other.blockSize == blockSize
      modifies this, other
      ensures Valid() && other.Valid() && Contents() == old(other.Contents()) && size == old(other.size)
      ensures other != this ==> other.Contents() == map[] && other.size == 0
    {
      if this == other { return; }
      hide BlockOf, OffsetOf, Start, Look, Map;
      assert Blocks(other.first, other.overflow)[0] == other.first;
      overflow := other.overflow;
      other.overflow := [];
      first := other.first;
      size := other.size;
      FirstAlone(blockSize, other.first);
      other.first := Cleared(other.first);
      other.size := 0;
    }
  }

  lemma SoundBlocks<T>(b: nat, bs: seq<Block<T>>, size: nat)
    requires Sound(b, bs, size)
    ensures b > 0 && forall k :: 0 <= k < |bs| ==> |bs[k].storage| == b
  {
  }

  lemma GrownSame<T>(b: nat, bs: seq<Block<T>>, bs': seq<Block<T>>, size: nat)
    requires Sound(b, bs, size) && bs <= bs'
    requires forall k :: |bs| <= k < |bs'| ==> bs'[k].Valid(b) && bs'[k].flags == {}
    ensures Sound(b, bs', size) && Map(b, bs', size) == Map(b, bs, size)
  {
    hide BlockOf, OffsetOf, Start;
  }

  lemma WithSlotSound<T>(b: nat, bs: seq<Block<T>>, size: nat, i: nat, v: T)
    requires Sound(b, bs, size) && BlockOf(b, i) < |bs| && |bs[BlockOf(b, i)].storage| == b
    ensures Sound(b, bs[BlockOf(b, i) := SetAt(bs[BlockOf(b, i)], OffsetOf(b, i), v)],
                  if size < i + 1 then i + 1 else size)
  {
    hide BlockOf, OffsetOf, Start;
    Decompose(b, i);
    forall j: nat | j < (if size < i + 1 then i + 1 else size) ensures BlockOf(b, j) < |bs| {
      if j >= size { BlockMonotone(b, j, i); }
    }
  }

  lemma SlotAt<T>(b: nat, bs: seq<Block<T>>, i: nat, v: T, j: nat)
    requires b > 0 && BlockOf(b, i) < |bs| && |bs[BlockOf(b, i)].storage| == b
    ensures Look(b, bs[BlockOf(b, i) := SetAt(bs[BlockOf(b, i)], OffsetOf(b, i), v)], j) ==
            if j == i then Present(v) else Look(b, bs, j)
  {
    hide BlockOf, OffsetOf, Start;
    Decompose(b, i);
    Decompose(b, j);
  }

  lemma WithSlot<T>(b: nat, bs: seq<Block<T>>, size: nat, i: nat, v: T)
    requires Sound(b, bs, size) && BlockOf(b, i) < |bs| && |bs[BlockOf(b, i)].storage| == b
    ensures var bs' := bs[BlockOf(b, i) := SetAt(bs[BlockOf(b, i)], OffsetOf(b, i), v)];
            var size' := if size < i + 1 then i + 1 else size;
            Sound(b, bs', size') && Map(b, bs', size') == Map(b, bs, size)[i := v]
  {
    hide BlockOf, OffsetOf, Start, Sound, Map, SetAt, Look;
    WithSlotSound(b, bs, size, i, v);
    SoundBlocks(b, bs, size);
    var bs' := bs[BlockOf(b, i) := SetAt(bs[BlockOf(b, i)], OffsetOf(b, i), v)];
    forall j: nat ensures Look(b, bs', j) == if j == i then Present(v) else Look(b, bs, j) {
      SlotAt(b, bs, i, v, j);
    }
  }

  // ---- Partial maps ----

  ghost function Placed<T>(m: map<nat, T>, start: nat, vs: seq<T>): (r: map<nat, T>)
    ensures forall i: nat :: i in r <==> i in m || start <= i < start + |vs|
    ensures forall i: nat :: i in r ==> r[i] == if start <= i < start + |vs| then vs[i - start] else m[i]
  {
    if vs == [] then m else Placed(m, start, vs[..|vs| - 1])[start + |vs| - 1 := vs[|vs| - 1]]
  }

  lemma NothingPlaced<T>(m: map<nat, T>, start: nat)
    ensures Placed(m, start, []) == m
  {
  }

  lemma PlacedMore<T>(m: map<nat, T>, start: nat, vs: seq<T>, k: nat, rest: seq<T>, n: nat, at: nat, k': nat)
    requires k' == k + n <= |vs| && rest == vs[k..] && at == start + k
    ensures Placed(Placed(m, start, vs[..k]), at, rest[..n]) == Placed(m, start, vs[..k'])
  {
    hide Placed;
    var a, b := Placed(Placed(m, start, vs[..k]), at, rest[..n]), Placed(m, start, vs[..k']);
    forall i: nat | start <= i < start + k' ensures i in a && a[i] == vs[i - start] {
      if i >= at { assert rest[..n][i - at] == vs[i - start]; }
    }
    forall i: nat ensures i in a <==> i in b {
    }
    forall i: nat | i in b ensures a[i] == b[i] {
    }
  }

  ghost function Removed<T>(m: map<nat, T>, low: nat, high: nat): map<nat, T> {
    map i <- m | !(low <= i < high) :: m[i]
  }

  lemma NothingRemoved<T>(m: map<nat, T>, low: nat)
    ensures Removed(m, low, low) == m
  {
  }

  lemma RemovedMore<T>(m: map<nat, T>, low: nat, mid: nat, n: nat)
    requires low <= mid
    ensures Removed(Removed(m, low, mid), mid, mid + n) == Removed(m, low, mid + n)
  {
  }

  // ---- Ranges within a block ----

  lemma BlockExists<T>(b: nat, bs: seq<Block<T>>, size: nat, i: nat)
    requires Sound(b, bs, size) && i < size
    ensures BlockOf(b, i) < |bs|
  {
  }

  lemma Enlarged<T>(b: nat, bs: seq<Block<T>>, size: nat, size': nat, end: nat)
    requires Sound(b, bs, size) && 0 < end && BlockOf(b, end - 1) < |bs|
    requires size' == if size < end then end else size
    ensures Sound(b, bs, size') && Map(b, bs, size') == Map(b, bs, size)
  {
    hide BlockOf, OffsetOf, Start, Map, Look;
    forall i: nat | i < size' ensures BlockOf(b, i) < |bs| {
      if i >= size { BlockMonotone(b, i, end - 1); }
    }
    assert Sound(b, bs, size');
    SameLooks(b, bs, size, bs, size');
  }

  lemma SameLooks<T>(b: nat, bs: seq<Block<T>>, size: nat, bs': seq<Block<T>>, size': nat)
    requires Sound(b, bs, size) && Sound(b, bs', size')
    requires forall i: nat :: Look(b, bs', i) == Look(b, bs, i)
    ensures Map(b, bs', size') == Map(b, bs, size)
  {
    hide Sound, Look, Map;
  }

  // The indexes of a range that stays in one block.
  lemma InBlock(b: nat, at: nat, n: nat, j: nat)
    requires b > 0 && OffsetOf(b, at) + n <= b
    ensures at <= j < at + n <==>
            BlockOf(b, j) == BlockOf(b, at) && OffsetOf(b, at) <= OffsetOf(b, j) < OffsetOf(b, at) + n
    ensures at <= j < at + n ==> OffsetOf(b, j) == OffsetOf(b, at) + (j - at)
  {
    hide BlockOf, OffsetOf, Start;
    Decompose(b, at);
    Decompose(b, j);
    if at <= j < at + n { Compose(b, BlockOf(b, at), OffsetOf(b, at) + (j - at)); }
  }

  lemma WithRangeAt<T>(b: nat, bs: seq<Block<T>>, at: nat, vs: seq<T>, j: nat)
    requires b > 0 && BlockOf(b, at) < |bs| && |bs[BlockOf(b, at)].storage| == b && OffsetOf(b, at) + |vs| <= b
    ensures Look(b, bs[BlockOf(b, at) := SetRangeAt(bs[BlockOf(b, at)], OffsetOf(b, at), vs)], j) ==
            if at <= j < at + |vs| then Present(vs[j - at]) else Look(b, bs, j)
  {
    hide BlockOf, OffsetOf, Start;
    InBlock(b, at, |vs|, j);
  }

  lemma WithRangeSound<T>(b: nat, bs: seq<Block<T>>, size: nat, at: nat, vs: seq<T>)
    requires Sound(b, bs, size) && BlockOf(b, at) < |bs| && |bs[BlockOf(b, at)].storage| == b
    requires OffsetOf(b, at) + |vs| <= b && at + |vs| <= size
    ensures Sound(b, bs[BlockOf(b, at) := SetRangeAt(bs[BlockOf(b, at)], OffsetOf(b, at), vs)], size)
  {
    hide BlockOf, OffsetOf, Start;
    Decompose(b, at);
  }

  lemma WithRange<T>(b: nat, bs: seq<Block<T>>, size: nat, at: nat, vs: seq<T>)
    requires Sound(b, bs, size) && BlockOf(b, at) < |bs| && |bs[BlockOf(b, at)].storage| == b
    requires OffsetOf(b, at) + |vs| <= b && at + |vs| <= size
    ensures var bs' := bs[BlockOf(b, at) := SetRangeAt(bs[BlockOf(b, at)], OffsetOf(b, at), vs)];
            Sound(b, bs', size) && Map(b, bs', size) == Placed(Map(b, bs, size), at, vs)
  {
    hide BlockOf, OffsetOf, Start, Sound, Map, SetRangeAt, Look, Placed;
    WithRangeSound(b, bs, size, at, vs);
    SoundBlocks(b, bs, size);
    var bs' := bs[BlockOf(b, at) := SetRangeAt(bs[BlockOf(b, at)], OffsetOf(b, at), vs)];
    forall j: nat ensures Look(b, bs', j) == if at <= j < at + |vs| then Present(vs[j - at]) else Look(b, bs, j) {
      WithRangeAt(b, bs, at, vs, j);
    }
  }

  lemma WithoutRangeAt<T>(b: nat, bs: seq<Block<T>>, at: nat, n: nat, j: nat)
    requires b > 0 && BlockOf(b, at) < |bs| && OffsetOf(b, at) + n <= b
    ensures Look(b, bs[BlockOf(b, at) := ClearRangeAt(bs[BlockOf(b, at)], OffsetOf(b, at), n)], j) ==
            if at <= j < at + n then Absent else Look(b, bs, j)
  {
    hide BlockOf, OffsetOf, Start;
    InBlock(b, at, n, j);
  }

  lemma WithoutRange<T>(b: nat, bs: seq<Block<T>>, size: nat, at: nat, n: nat)
    requires Sound(b, bs, size) && BlockOf(b, at) < |bs| && OffsetOf(b, at) + n <= b
    ensures var bs' := bs[BlockOf(b, at) := ClearRangeAt(bs[BlockOf(b, at)], OffsetOf(b, at), n)];
            Sound(b, bs', size) && Map(b, bs', size) == Removed(Map(b, bs, size), at, at + n)
  {
    hide BlockOf, OffsetOf, Start, Map, Look;
    var bs' := bs[BlockOf(b, at) := ClearRangeAt(bs[BlockOf(b, at)], OffsetOf(b, at), n)];
    assert Sound(b, bs', size);
    hide Sound, ClearRangeAt;
    forall j: nat ensures Look(b, bs', j) == if at <= j < at + n then Absent else Look(b, bs, j) {
      WithoutRangeAt(b, bs, at, n, j);
    }
  }

  lemma FirstAlone<T>(b: nat, first: Block<T>)
    requires b > 0 && first.Valid(b)
    ensures Sound(b, Blocks(Cleared(first), []), 0) && Map(b, Blocks(Cleared(first), []), 0) == map[]
  {
    hide BlockOf, OffsetOf, Start;
  }
}
