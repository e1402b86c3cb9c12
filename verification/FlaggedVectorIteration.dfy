// The index and range iterators of sparse vectors, which run block by block.
module FlaggedVectorIteration {
  import Bits = FlaggedBits
  import Tree = FlaggedTree
  import opened FlaggedArray
  import opened FlaggedVector

  // ---- What a block's iterators yield ----

  function Offsets(flags: set<nat>, n: nat): seq<nat> {
    if n == 0 then [] else if n - 1 in flags then Offsets(flags, n - 1) + [n - 1] else Offsets(flags, n - 1)
  }

  // One more offset: the last run grows, or a new one starts.
  function Extended(rs: seq<(nat, nat)>, o: nat): seq<(nat, nat)> {
    if rs != [] && rs[|rs| - 1].0 + rs[|rs| - 1].1 == o
    then rs[|rs| - 1 := (rs[|rs| - 1].0, rs[|rs| - 1].1 + 1)]
    else rs + [(o, 1)]
  }

  // Maximal runs, as first offset and count.
  function Runs(flags: set<nat>, n: nat): seq<(nat, nat)> {
    if n == 0 then []
    else
      var rs := Runs(flags, n - 1);
      if n - 1 in flags then Extended(rs, n - 1) else rs
  }

  lemma {:induction false} OffsetsAre(flags: set<nat>, n: nat)
    ensures forall o: nat :: o in Offsets(flags, n) <==> o < n && o in flags
    ensures forall i, j :: 0 <= i < j < |Offsets(flags, n)| ==> Offsets(flags, n)[i] < Offsets(flags, n)[j]
  {
    if n > 0 {
      OffsetsAre(flags, n - 1);
      var os := Offsets(flags, n - 1);
      forall i | 0 <= i < |os| ensures os[i] < n - 1 { assert os[i] in os; }
    }
  }

  predicate InRun(r: (nat, nat), o: nat) {
    r.0 <= o < r.0 + r.1
  }

  ghost predicate InSome(rs: seq<(nat, nat)>, o: nat) {
    exists i :: 0 <= i < |rs| && InRun(rs[i], o)
  }

  // Runs are apart by at least one offset, so each is maximal.
  ghost predicate Apart(rs: seq<(nat, nat)>, n: nat) {
    && (forall i :: 0 <= i < |rs| ==> rs[i].1 > 0 && rs[i].0 + rs[i].1 <= n)
    && (forall i, j :: 0 <= i < j < |rs| ==> rs[i].0 + rs[i].1 < rs[j].0)
  }

  lemma ExtendedApart(rs: seq<(nat, nat)>, o: nat)
    requires Apart(rs, o)
    ensures Apart(Extended(rs, o), o + 1)
  {
  }

  lemma ApartWithin(rs: seq<(nat, nat)>, n: nat)
    requires Apart(rs, n)
    ensures Apart(rs, n + 1)
  {
  }

  lemma {:induction false} RunsApart(flags: set<nat>, n: nat)
    ensures Apart(Runs(flags, n), n)
  {
    hide Apart, Extended;
    if n == 0 {
      NoneApart();
    } else {
      RunsApart(flags, n - 1);
      if n - 1 in flags { ExtendedApart(Runs(flags, n - 1), n - 1); } else { ApartWithin(Runs(flags, n - 1), n - 1); }
    }
  }

  lemma NoneApart()
    ensures Apart([], 0)
  {
  }

  lemma {:induction false} RunsCover(flags: set<nat>, n: nat, o: nat)
    ensures InSome(Runs(flags, n), o) <==> o < n && o in flags
  {
    hide Extended;
    if n > 0 {
      hide InSome;
      RunsCover(flags, n - 1, o);
      RunsApart(flags, n - 1);
      if n - 1 in flags { ExtendedCovers(Runs(flags, n - 1), n - 1, o); }
    }
  }

  lemma ExtendedCovers(rs: seq<(nat, nat)>, end: nat, o: nat)
    requires Apart(rs, end)
    ensures InSome(Extended(rs, end), o) <==> InSome(rs, o) || o == end
  {
    hide InSome;
    if rs != [] && rs[|rs| - 1].0 + rs[|rs| - 1].1 == end {
      LongerRun(rs, end, o);
    } else {
      OneMoreRun(rs, (end, 1), o);
    }
  }

  lemma OneMoreRun(rs: seq<(nat, nat)>, r: (nat, nat), o: nat)
    ensures InSome(rs + [r], o) <==> InSome(rs, o) || InRun(r, o)
  {
    hide InRun;
    if InSome(rs, o) {
      var i :| 0 <= i < |rs| && InRun(rs[i], o);
      assert InRun((rs + [r])[i], o);
    }
    if InRun(r, o) { assert InRun((rs + [r])[|rs|], o); }
  }

  lemma LongerRun(rs: seq<(nat, nat)>, end: nat, o: nat)
    requires rs != [] && rs[|rs| - 1].0 + rs[|rs| - 1].1 == end
    ensures InSome(rs[|rs| - 1 := (rs[|rs| - 1].0, rs[|rs| - 1].1 + 1)], o) <==> InSome(rs, o) || o == end
  {
    var k := |rs| - 1;
    assert rs == rs[..k] + [rs[k]];
    assert rs[k := (rs[k].0, rs[k].1 + 1)] == rs[..k] + [(rs[k].0, rs[k].1 + 1)];
    OneMoreRun(rs[..k], rs[k], o);
    OneMoreRun(rs[..k], (rs[k].0, rs[k].1 + 1), o);
  }

  // Runs that are apart are determined by the offsets in them.
  lemma {:induction false} RunsUnique(a: seq<(nat, nat)>, b: seq<(nat, nat)>, n: nat)
    requires Apart(a, n) && Apart(b, n)
    requires forall o: nat :: InSome(a, o) <==> InSome(b, o)
    ensures a == b
    decreases |a|
  {
    hide InSome;
    if a == [] || b == [] {
      if a != [] { FirstOffset(a, n); NoRunHolds(a[0].0); }
      if b != [] { FirstOffset(b, n); NoRunHolds(b[0].0); }
    } else {
      var k, l := |a| - 1, |b| - 1;
      SameLastRun(a, b, n);
      SameLastRun(b, a, n);
      assert a[k] == b[l];
      forall o: nat ensures InSome(a[..k], o) <==> InSome(b[..l], o) {
        WithoutLastRun(a, n, o);
        WithoutLastRun(b, n, o);
      }
      RunsUnique(a[..k], b[..l], n);
      assert a == a[..k] + [a[k]] && b == b[..l] + [b[l]];
    }
  }

  lemma NoRunHolds(o: nat)
    ensures !InSome([], o)
  {
  }

  lemma FirstOffset(rs: seq<(nat, nat)>, n: nat)
    requires Apart(rs, n) && rs != []
    ensures InSome(rs, rs[0].0)
  {
    assert InRun(rs[0], rs[0].0);
  }

  lemma WithoutLastRun(rs: seq<(nat, nat)>, n: nat, o: nat)
    requires Apart(rs, n) && rs != []
    ensures InSome(rs[..|rs| - 1], o) <==> InSome(rs, o) && o < rs[|rs| - 1].0
  {
    var k := |rs| - 1;
    assert rs == rs[..k] + [rs[k]];
    OneMoreRun(rs[..k], rs[k], o);
    if InSome(rs[..k], o) {
      var i :| 0 <= i < k && InRun(rs[..k][i], o);
      assert rs[i].0 + rs[i].1 < rs[k].0;
    }
  }

  // The last run of b does not reach beyond the last run of a, nor begin later.
  lemma SameLastRun(a: seq<(nat, nat)>, b: seq<(nat, nat)>, n: nat)
    requires Apart(a, n) && Apart(b, n) && a != [] && b != []
    requires forall o: nat :: InSome(a, o) <==> InSome(b, o)
    ensures var x, y := a[|a| - 1], b[|b| - 1];
            y.0 + y.1 <= x.0 + x.1 && (y.0 + y.1 == x.0 + x.1 ==> y.0 <= x.0)
  {
    hide InSome;
    var x, y := a[|a| - 1], b[|b| - 1];
    InLastRun(b, n, y.0 + y.1 - 1);
    Beyond(a, n, y.0 + y.1 - 1);
    if y.0 + y.1 == x.0 + x.1 && x.0 < y.0 {
      InLastRun(a, n, y.0 - 1);
      JustBefore(b, n);
    }
  }

  lemma InLastRun(rs: seq<(nat, nat)>, n: nat, o: nat)
    requires Apart(rs, n) && rs != []
    ensures InRun(rs[|rs| - 1], o) ==> InSome(rs, o)
  {
  }

  lemma Beyond(rs: seq<(nat, nat)>, n: nat, o: nat)
    requires Apart(rs, n) && rs != []
    ensures rs[|rs| - 1].0 + rs[|rs| - 1].1 <= o ==> !InSome(rs, o)
  {
  }

  lemma JustBefore(rs: seq<(nat, nat)>, n: nat)
    requires Apart(rs, n) && rs != []
    ensures rs[|rs| - 1].0 > 0 ==> !InSome(rs, rs[|rs| - 1].0 - 1)
  {
  }

  // What the bit set of a block yields are the runs and offsets above: they are the only ones.
  lemma BlockRanges(bits: Bits.FlaggedBits, runs: seq<(nat, nat)>)
    requires bits.Valid() && Tree.RunsUpTo(bits.shape, bits.rows, runs, bits.shape.count)
    ensures runs == Runs(bits.Contents(), bits.shape.count)
  {
    hide Runs;
    var flags, n := bits.Contents(), bits.shape.count;
    RunsApart(flags, n);
    forall o: nat ensures InSome(runs, o) <==> InSome(Runs(flags, n), o) {
      RunsCover(flags, n, o);
      CoveredExactly(bits, runs, o);
    }
    RunsUnique(runs, Runs(flags, n), n);
  }

  lemma CoveredExactly(bits: Bits.FlaggedBits, runs: seq<(nat, nat)>, o: nat)
    requires bits.Valid() && Tree.RunsUpTo(bits.shape, bits.rows, runs, bits.shape.count)
    ensures InSome(runs, o) <==> o in bits.Contents()
  {
    var g, rows := bits.shape, bits.rows;
    hide Tree.BitAt;
    if InSome(runs, o) {
      var i :| 0 <= i < |runs| && InRun(runs[i], o);
      assert Tree.MaximalRun(g, rows, runs[i].0, runs[i].0 + runs[i].1);
    }
    if o in bits.Contents() {
      var i :| 0 <= i < |runs| && runs[i].0 <= o < runs[i].0 + runs[i].1;
      assert InRun(runs[i], o);
    }
  }

  lemma BlockIndexes(bits: Bits.FlaggedBits, visited: seq<nat>)
    requires bits.Valid() && Tree.Ascending(visited) && forall n: nat :: n in visited <==> n in bits.Contents()
    ensures visited == Offsets(bits.Contents(), bits.shape.count)
  {
    hide Offsets;
    OffsetsAre(bits.Contents(), bits.shape.count);
    Tree.AscendingUnique(visited, Offsets(bits.Contents(), bits.shape.count));
  }

  // ---- Indexes of the whole vector ----

  function Shifted(os: seq<nat>, start: nat): (r: seq<nat>)
    ensures |r| == |os|
  {
    seq(|os|, i requires 0 <= i < |os| => start + os[i])
  }

  // The indexes of the blocks from k on.
  ghost function IndexesFrom<T>(b: nat, bs: seq<Block<T>>, k: nat): seq<nat>
    decreases |bs| - k
  {
    if k >= |bs| then [] else Shifted(Offsets(bs[k].flags, b), Start(b, k)) + IndexesFrom(b, bs, k + 1)
  }

  ghost predicate NoneFrom<T>(bs: seq<Block<T>>, k: nat) {
    forall j :: k <= j < |bs| ==> bs[j].flags == {}
  }

  lemma {:induction false} NoOffsets(flags: set<nat>, n: nat)
    requires flags == {}
    ensures Offsets(flags, n) == []
  {
    if n > 0 { NoOffsets(flags, n - 1); }
  }

  lemma {:induction false} NoIndexes<T>(b: nat, bs: seq<Block<T>>, k: nat)
    requires NoneFrom(bs, k)
    ensures IndexesFrom(b, bs, k) == []
    decreases |bs| - k
  {
    if k < |bs| {
      NoOffsets(bs[k].flags, b);
      NoIndexes(b, bs, k + 1);
    }
  }

  // Blocks that start at or after the size have no members.
  lemma NoneBeyond<T>(b: nat, bs: seq<Block<T>>, size: nat, k: nat)
    requires Sound(b, bs, size) && size <= Start(b, k)
    ensures NoneFrom(bs, k)
  {
    forall j | k <= j < |bs| ensures bs[j].flags == {} {
      if k < j { StartMonotone(b, k, j); }
      forall o: nat ensures o !in bs[j].flags { }
    }
  }

  lemma ShiftedHolds(offsets: seq<nat>, start: nat, i: nat)
    ensures i in Shifted(offsets, start) <==> start <= i && i - start in offsets
  {
    var here := Shifted(offsets, start);
    if i in here {
      var t :| 0 <= t < |here| && here[t] == i;
      assert offsets[t] in offsets;
    }
    if start <= i && i - start in offsets {
      var t :| 0 <= t < |offsets| && offsets[t] == i - start;
      assert here[t] == i;
    }
  }

  lemma {:induction false} IndexesAre<T>(b: nat, bs: seq<Block<T>>, size: nat, k: nat)
    requires Sound(b, bs, size)
    ensures Tree.Ascending(IndexesFrom(b, bs, k))
    ensures forall i: nat :: i in IndexesFrom(b, bs, k) <==> Start(b, k) <= i && Look(b, bs, i).Present?
    decreases |bs| - k
  {
    hide BlockOf, OffsetOf, Start, Offsets, Look;
    if k >= |bs| {
      forall i: nat ensures !(Start(b, k) <= i && Look(b, bs, i).Present?) { LookWhere(b, bs, size, k, i); }
    } else {
      IndexesAre(b, bs, size, k + 1);
      var here, later := Shifted(Offsets(bs[k].flags, b), Start(b, k)), IndexesFrom(b, bs, k + 1);
      OffsetsAre(bs[k].flags, b);
      StartNext(b, k);
      forall i: nat
        ensures i in here <==> Start(b, k) <= i < Start(b, k + 1) && Look(b, bs, i).Present?
      {
        LookHere(b, bs, size, k, i);
        ShiftedHolds(Offsets(bs[k].flags, b), Start(b, k), i);
      }
      AscendingJoin(here, later, Start(b, k + 1));
    }
  }

  lemma StartNext(b: nat, k: nat)
    ensures Start(b, k + 1) == Start(b, k) + b
  {
  }

  lemma AscendingJoin(a: seq<nat>, c: seq<nat>, mid: nat)
    requires Tree.Ascending(a) && Tree.Ascending(c) && (forall i: nat :: i in a ==> i < mid)
             && forall i: nat :: i in c ==> mid <= i
    ensures Tree.Ascending(a + c)
  {
    forall i, j | 0 <= i < j < |a + c| ensures (a + c)[i] < (a + c)[j] {
      if i < |a| <= j { assert a[i] in a && c[j - |a|] in c; }
    }
  }

  // The block of a present index exists and is its own.
  lemma LookWhere<T>(b: nat, bs: seq<Block<T>>, size: nat, k: nat, i: nat)
    requires Sound(b, bs, size) && |bs| <= k
    ensures Start(b, k) <= i ==> !Look(b, bs, i).Present?
  {
    hide OffsetOf, Start;
    Decompose(b, i);
    if BlockOf(b, i) < k { StartMonotone(b, BlockOf(b, i), k); }
  }

  lemma LookHere<T>(b: nat, bs: seq<Block<T>>, size: nat, k: nat, i: nat)
    requires Sound(b, bs, size) && k < |bs|
    ensures Start(b, k) <= i < Start(b, k) + b ==>
              Look(b, bs, i) ==
              if i - Start(b, k) in bs[k].flags then Present(bs[k].storage[i - Start(b, k)]) else Absent
  {
    if Start(b, k) <= i < Start(b, k) + b { SlotPresent(b, bs, k, i - Start(b, k)); }
  }

  class IndexIterator<T> {
    const owner: FlaggedVector<T>
    var block: nat
    var rest: seq<nat>   // what the iterator of the current block still has to yield

    // What is still to come.
    ghost function Remaining(): seq<nat>
      reads this, owner
    {
      Shifted(rest, Start(owner.blockSize, block))
        + IndexesFrom(owner.blockSize, Blocks(owner.first, owner.overflow), block + 1)
    }

    ghost predicate Valid()
      reads this, owner
    {
      owner.Valid() && block <= |owner.overflow| && (rest == [] ==> Remaining() == [])
    }

    constructor (owner: FlaggedVector<T>)
      requires owner.Valid()
      ensures Valid() && this.owner == owner
      ensures Remaining() == IndexesFrom(owner.blockSize, Blocks(owner.first, owner.overflow), 0)
    {
      this.owner, block := owner, 0;
      rest := Offsets(owner.first.flags, owner.blockSize);
      new;
      SkipEmptyBlocks();
    }

    predicate AtEnd()
      reads this
    {
      rest == []
    }

    method SkipEmptyBlocks()
      requires owner.Valid() && block <= |owner.overflow|
      modifies this
      ensures Valid() && Remaining() == old(Remaining())
    {
      hide Sound, Offsets, BlockOf, OffsetOf, Start;
      ghost var b, bs := owner.blockSize, Blocks(owner.first, owner.overflow);
      while rest == [] && Start(owner.blockSize, block + 1) < owner.size
        invariant owner.Valid() && block <= |owner.overflow| && Remaining() == old(Remaining())
        decreases |owner.overflow| - block
      {
        BlockBefore(b, bs, owner.size, block + 1);
        assert owner.GetBlock(block + 1) == bs[block + 1];
        block := block + 1;
        rest := Offsets(owner.GetBlock(block).flags, owner.blockSize);
      }
      if rest == [] {
        NoneBeyond(b, bs, owner.size, block + 1);
        NoIndexes(b, bs, block + 1);
      }
    }

    lemma Finished()
      requires Valid() && AtEnd()
      ensures Remaining() == []
    {
    }

    method Next() returns (index: nat)
      requires Valid() && !AtEnd()
      modifies this
      ensures Valid() && old(Remaining()) == [index] + Remaining()
    {
      hide Start, Offsets, Sound;
      index := Start(owner.blockSize, block) + rest[0];
      ghost var before := Remaining();
      rest := rest[1..];
      assert before == [index] + Remaining();
      SkipEmptyBlocks();
    }
  }

  lemma BlockBefore<T>(b: nat, bs: seq<Block<T>>, size: nat, k: nat)
    requires Sound(b, bs, size) && Start(b, k) < size
    ensures k < |bs|
  {
    Compose(b, k, 0);
    BlockExists(b, bs, size, Start(b, k));
  }

  // Iteration yields exactly the indexes with values, in ascending order.
  method CollectIndexes<T>(v: FlaggedVector<T>) returns (visited: seq<nat>)
    requires v.Valid()
    ensures Tree.Ascending(visited) && forall i: nat :: i in visited <==> i in v.Contents()
  {
    hide Sound, Map, IndexesFrom, Shifted, IndexIterator.Remaining, IndexIterator.Valid;
    var it := new IndexIterator(v);
    ghost var all := it.Remaining();
    visited := [];
    while !it.AtEnd()
      invariant it.Valid() && it.owner == v && all == visited + it.Remaining()
      decreases |all| - |visited|
    {
      var index := it.Next();
      visited := visited + [index];
    }
    it.Finished();
    assert visited == all;
    IndexesAre(v.blockSize, Blocks(v.first, v.overflow), v.size, 0);
  }

  // ---- Populated ranges ----

  // Consecutive values, within one block.
  datatype Populated<T> = Populated(first: nat, values: seq<T>)

  function RangesOf<T>(block: Block<T>, start: nat, runs: seq<(nat, nat)>): seq<Populated<T>>
    requires forall i :: 0 <= i < |runs| ==> runs[i].0 + runs[i].1 <= |block.storage|
  {
    seq(|runs|, i requires 0 <= i < |runs| =>
      Populated(start + runs[i].0, block.storage[runs[i].0..runs[i].0 + runs[i].1]))
  }

  function BlockRuns<T>(block: Block<T>): (rs: seq<(nat, nat)>)
    ensures forall i :: 0 <= i < |rs| ==> rs[i].0 + rs[i].1 <= |block.storage|
  {
    RunsApart(block.flags, |block.storage|);
    Runs(block.flags, |block.storage|)
  }

  ghost function RangesFrom<T>(b: nat, bs: seq<Block<T>>, k: nat): seq<Populated<T>>
    decreases |bs| - k
  {
    if k >= |bs| then []
    else RangesOf(bs[k], Start(b, k), BlockRuns(bs[k])) + RangesFrom(b, bs, k + 1)
  }

  // What a populated range says is what the vector holds.
  ghost predicate Shows<T>(r: Populated<T>, b: nat, bs: seq<Block<T>>)
    requires b > 0
  {
    r.values != [] && forall t :: 0 <= t < |r.values| ==> Look(b, bs, r.first + t) == Present(r.values[t])
  }

  ghost predicate Holds<T>(r: Populated<T>, i: nat) {
    r.first <= i < r.first + |r.values|
  }

  // A range stays within one block, and ends only at a block boundary or beside a slot without a value.
  ghost predicate Maximal<T>(r: Populated<T>, b: nat, bs: seq<Block<T>>)
    requires b > 0 && r.values != []
  {
    var end := r.first + |r.values|;
    && BlockOf(b, r.first) == BlockOf(b, end - 1)
    && (OffsetOf(b, r.first) == 0 || Look(b, bs, r.first - 1) == Absent)
    && (OffsetOf(b, end) == 0 || Look(b, bs, end) == Absent)
  }

  lemma RunEndsFree(flags: set<nat>, n: nat, i: nat)
    requires i < |Runs(flags, n)|
    ensures var (first, count) := Runs(flags, n)[i];
            && 0 < count && first + count <= n
            && (first > 0 ==> first - 1 !in flags) && (first + count < n ==> first + count !in flags)
  {
    RunsApart(flags, n);
    var rs := Runs(flags, n);
    hide Runs;
    if rs[i].0 > 0 { RunsCover(flags, n, rs[i].0 - 1); }
    if rs[i].0 + rs[i].1 < n { RunsCover(flags, n, rs[i].0 + rs[i].1); }
  }

  lemma RunIsMaximal<T>(b: nat, bs: seq<Block<T>>, k: nat, i: nat)
    requires b > 0 && k < |bs| && |bs[k].storage| == b && i < |BlockRuns(bs[k])|
    ensures var rs := RangesOf(bs[k], Start(b, k), BlockRuns(bs[k]));
            rs[i].values != [] && Maximal(rs[i], b, bs)
  {
    hide BlockOf, OffsetOf, Start, Runs, Look;
    RunEndsFree(bs[k].flags, b, i);
    var (first, count) := BlockRuns(bs[k])[i];
    Compose(b, k, first);
    Compose(b, k, first + count - 1);
    if first > 0 { SlotPresent(b, bs, k, first - 1); }
    if first + count < b {
      SlotPresent(b, bs, k, first + count);
    } else {
      StartNext(b, k);
      Compose(b, k + 1, 0);
    }
  }

  lemma RangesOfBlock<T>(b: nat, bs: seq<Block<T>>, size: nat, k: nat)
    requires Sound(b, bs, size) && k < |bs|
    ensures var rs := RangesOf(bs[k], Start(b, k), BlockRuns(bs[k]));
            && (forall i :: 0 <= i < |rs| ==> Shows(rs[i], b, bs) && Maximal(rs[i], b, bs))
            && (forall i :: 0 <= i < |rs| ==>
                  Start(b, k) <= rs[i].first && rs[i].first + |rs[i].values| <= Start(b, k) + b)
            && (forall i, j :: 0 <= i < j < |rs| ==> rs[i].first + |rs[i].values| < rs[j].first)
  {
    hide BlockOf, OffsetOf, Start, Runs, Look, Maximal;
    var runs := BlockRuns(bs[k]);
    RunsApart(bs[k].flags, b);
    var rs := RangesOf(bs[k], Start(b, k), runs);
    forall i, t | 0 <= i < |rs| && 0 <= t < |rs[i].values|
      ensures Look(b, bs, rs[i].first + t) == Present(rs[i].values[t])
    {
      RunsCover(bs[k].flags, b, runs[i].0 + t);
      assert InRun(runs[i], runs[i].0 + t);
      SlotPresent(b, bs, k, runs[i].0 + t);
    }
    forall i | 0 <= i < |rs| ensures rs[i].values != [] && Maximal(rs[i], b, bs) { RunIsMaximal(b, bs, k, i); }
  }

  lemma RangesOfBlockCover<T>(b: nat, bs: seq<Block<T>>, size: nat, k: nat, i: nat)
    requires Sound(b, bs, size) && k < |bs| && Start(b, k) <= i < Start(b, k) + b && Look(b, bs, i).Present?
    ensures exists j :: 0 <= j < |RangesOf(bs[k], Start(b, k), BlockRuns(bs[k]))|
                        && Holds(RangesOf(bs[k], Start(b, k), BlockRuns(bs[k]))[j], i)
  {
    hide BlockOf, OffsetOf, Start, Runs, Look;
    LookHere(b, bs, size, k, i);
    RunsCover(bs[k].flags, b, i - Start(b, k));
    var j :| 0 <= j < |BlockRuns(bs[k])| && InRun(BlockRuns(bs[k])[j], i - Start(b, k));
    assert Holds(RangesOf(bs[k], Start(b, k), BlockRuns(bs[k]))[j], i);
  }

  // The ranges of the blocks from k on: right values, maximal, ascending and disjoint, covering every index.
  ghost predicate RangesRight<T>(rs: seq<Populated<T>>, b: nat, bs: seq<Block<T>>, low: nat)
    requires b > 0
  {
    && (forall i :: 0 <= i < |rs| ==> Shows(rs[i], b, bs) && Maximal(rs[i], b, bs) && low <= rs[i].first)
    && (forall i, j :: 0 <= i < j < |rs| ==> rs[i].first + |rs[i].values| <= rs[j].first)
    && (forall i: nat :: low <= i && Look(b, bs, i).Present? ==> exists j :: 0 <= j < |rs| && Holds(rs[j], i))
  }

  lemma {:induction false} RangesAre<T>(b: nat, bs: seq<Block<T>>, size: nat, k: nat)
    requires Sound(b, bs, size)
    ensures RangesRight(RangesFrom(b, bs, k), b, bs, Start(b, k))
    decreases |bs| - k
  {
    hide BlockOf, OffsetOf, Start, Look, RangesOf, Shows, Maximal, BlockRuns, Sound;
    SoundBlocks(b, bs, size);
    if k >= |bs| {
      forall i: nat ensures !(Start(b, k) <= i && Look(b, bs, i).Present?) { LookWhere(b, bs, size, k, i); }
    } else {
      RangesAre(b, bs, size, k + 1);
      StartNext(b, k);
      RangesOfBlock(b, bs, size, k);
      var here, later := RangesOf(bs[k], Start(b, k), BlockRuns(bs[k])), RangesFrom(b, bs, k + 1);
      forall i: nat | Start(b, k) <= i && Look(b, bs, i).Present?
        ensures exists j :: 0 <= j < |here + later| && Holds((here + later)[j], i)
      {
        if i < Start(b, k + 1) {
          RangesOfBlockCover(b, bs, size, k, i);
          var j :| 0 <= j < |here| && Holds(here[j], i);
          assert Holds((here + later)[j], i);
        } else {
          var j :| 0 <= j < |later| && Holds(later[j], i);
          assert Holds((here + later)[|here| + j], i);
        }
      }
    }
  }

  lemma {:induction false} NoRuns(flags: set<nat>, n: nat)
    requires flags == {}
    ensures Runs(flags, n) == []
  {
    if n > 0 { NoRuns(flags, n - 1); }
  }

  lemma {:induction false} NoRanges<T>(b: nat, bs: seq<Block<T>>, k: nat)
    requires NoneFrom(bs, k)
    ensures RangesFrom(b, bs, k) == []
    decreases |bs| - k
  {
    if k < |bs| {
      NoRuns(bs[k].flags, |bs[k].storage|);
      NoRanges(b, bs, k + 1);
    }
  }

  class RangeIterator<T> {
    const owner: FlaggedVector<T>
    var block: nat
    var runs: seq<(nat, nat)>   // what the range iterator of the current block still has to yield

    ghost predicate RunsFit()
      reads this, owner
    {
      && owner.Valid() && block <= |owner.overflow|
      && forall i :: 0 <= i < |runs| ==> runs[i].0 + runs[i].1 <= |owner.GetBlock(block).storage|
    }

    // What is still to come.
    ghost function Remaining(): seq<Populated<T>>
      requires RunsFit()
      reads this, owner
    {
      RangesOf(owner.GetBlock(block), Start(owner.blockSize, block), runs)
      + RangesFrom(owner.blockSize, Blocks(owner.first, owner.overflow), block + 1)
    }

    ghost predicate Valid()
      reads this, owner
    {
      RunsFit() && (runs == [] ==> Remaining() == [])
    }

    constructor (owner: FlaggedVector<T>)
      requires owner.Valid()
      ensures Valid() && RunsFit() && this.owner == owner
      ensures Remaining() == RangesFrom(owner.blockSize, Blocks(owner.first, owner.overflow), 0)
    {
      this.owner, block := owner, 0;
      runs := BlockRuns(owner.first);
      new;
      SkipEmptyBlocks();
    }

    predicate AtEnd()
      reads this
    {
      runs == []
    }

    method SkipEmptyBlocks()
      requires RunsFit()
      modifies this
      ensures Valid() && Remaining() == old(Remaining())
    {
      hide Sound, Runs, BlockOf, OffsetOf, Start;
      ghost var b, bs := owner.blockSize, Blocks(owner.first, owner.overflow);
      while runs == [] && Start(owner.blockSize, block + 1) < owner.size
        invariant RunsFit() && Remaining() == old(Remaining())
        decreases |owner.overflow| - block
      {
        BlockBefore(b, bs, owner.size, block + 1);
        assert owner.GetBlock(block + 1) == bs[block + 1];
        block := block + 1;
        runs := BlockRuns(owner.GetBlock(block));
      }
      if runs == [] {
        NoneBeyond(b, bs, owner.size, block + 1);
        NoRanges(b, bs, block + 1);
      }
    }

    lemma Finished()
      requires Valid() && AtEnd()
      ensures Remaining() == []
    {
    }

    method Next() returns (range: Populated<T>)
      requires Valid() && !AtEnd()
      modifies this
      ensures Valid() && RunsFit() && old(Remaining()) == [range] + Remaining()
    {
      hide Start, Runs, Sound;
      var (first, count) := runs[0];
      range := Populated(Start(owner.blockSize, block) + first, owner.GetBlock(block).storage[first..first + count]);
      ghost var before := Remaining();
      runs := runs[1..];
      assert before == [range] + Remaining();
      SkipEmptyBlocks();
    }
  }

  // Iteration yields ranges of the right values, ascending and disjoint, that cover exactly the members; each is
  // as long as its block allows.
  method CollectRanges<T>(v: FlaggedVector<T>) returns (ranges: seq<Populated<T>>)
    requires v.Valid()
    ensures v.blockSize > 0 && RangesRight(ranges, v.blockSize, Blocks(v.first, v.overflow), 0)
  {
    hide Sound, RangesFrom, RangesOf, RangeIterator.Remaining, RangeIterator.Valid, RangesRight;
    var it := new RangeIterator(v);
    ghost var all := it.Remaining();
    ranges := [];
    while !it.AtEnd()
      invariant it.Valid() && it.owner == v && it.RunsFit() && all == ranges + it.Remaining()
      decreases |all| - |ranges|
    {
      var range := it.Next();
      ranges := ranges + [range];
    }
    it.Finished();
    assert ranges == all;
    SoundBlocks(v.blockSize, Blocks(v.first, v.overflow), v.size);
    RangesAre(v.blockSize, Blocks(v.first, v.overflow), v.size, 0);
  }
}
