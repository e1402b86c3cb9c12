// The bit set as the class stores it: all levels in one array of words, updated in place.
module FlaggedBits {
  import opened Bits
  import opened DivMod
  import opened FlaggedTree

  // LEVEL_OFFSETS: where each level starts in the array.
  function LevelOffset(g: Shape, level: nat): nat {
    if level == 0 then 0 else LevelOffset(g, level - 1) + LevelBits(g, level)
  }

  lemma {:induction false} LevelOffsetMonotone(g: Shape, low: nat, high: nat)
    requires low <= high
    ensures LevelOffset(g, low) <= LevelOffset(g, high)
    decreases high
  {
    if low < high { LevelOffsetMonotone(g, low, high - 1); }
  }

  ghost predicate AreLevelOffsets(g: Shape, offsets: seq<nat>) {
    forall l {:trigger offsets[l]} :: 0 <= l < |offsets| ==> offsets[l] == LevelOffset(g, l)
  }

  predicate HasWord(rows: Rows, level: nat, word: nat) {
    level < |rows| && word < |rows[level]|
  }

  // The array holds the rows one after the other.
  ghost predicate Flat(g: Shape, rows: Rows, words: seq<nat>) {
    && |words| == LevelOffset(g, |rows|)
    && forall l: nat, k: nat :: HasWord(rows, l, k) ==>
         LevelOffset(g, l) + k < |words| && words[LevelOffset(g, l) + k] == rows[l][k]
  }

  lemma FlatPut(g: Shape, rows: Rows, words: seq<nat>, level: nat, word: nat, value: nat)
    requires RowsFit(g, rows) && Flat(g, rows, words) && HasWord(rows, level, word)
    ensures LevelOffset(g, level) + word < |words|
    ensures Flat(g, Put(rows, level, word, value), words[LevelOffset(g, level) + word := value])
  {
    var after := Put(rows, level, word, value);
    forall l: nat, k: nat | HasWord(after, l, k)
      ensures HasWord(rows, l, k)
      ensures LevelOffset(g, l) + k == LevelOffset(g, level) + word ==> l == level && k == word
    {
      if l < level {
        LevelOffsetMonotone(g, l + 1, level);
      } else if l > level {
        LevelOffsetMonotone(g, level + 1, l);
      }
    }
  }

  ghost function ZeroRows(g: Shape): Rows {
    seq(Levels(g), (l: nat) => seq(LevelBits(g, l + 1), _ => 0))
  }

  lemma ZeroRowsFlat(g: Shape, words: seq<nat>)
    requires |words| == LevelOffset(g, Levels(g)) && forall i :: 0 <= i < |words| ==> words[i] == 0
    ensures Flat(g, ZeroRows(g), words)
    ensures Shaped(g, ZeroRows(g)) && Consistent(g, ZeroRows(g)) && Members(g, ZeroRows(g)) == {}
  {
    var rows := ZeroRows(g);
    forall l: nat, k: nat | HasWord(rows, l, k) ensures LevelOffset(g, l) + k < |words| {
      LevelOffsetMonotone(g, l + 1, |rows|);
    }
    AllZero(g, rows);
  }

  class FlaggedBits {
    const shape: Shape
    const levelCount: nat
    const levelOffsets: seq<nat>
    const words: array<nat>
    ghost var rows: Rows

    ghost predicate LayoutOk() {
      && levelCount == Levels(shape)
      && |levelOffsets| == levelCount + 1
      && AreLevelOffsets(shape, levelOffsets)
    }

    ghost predicate Stored()
      reads this, words
    {
      LayoutOk() && Shaped(shape, rows) && Flat(shape, rows, words[..])
    }

    ghost predicate Valid()
      reads this, words
    {
      Stored() && Consistent(shape, rows)
    }

    // The indexes that are set.
    ghost function Contents(): (s: set<nat>)
      reads this
    {
      Members(shape, rows)
    }

    // The words of a level number LEVEL_OFFSETS[level + 1] - LEVEL_OFFSETS[level].
    lemma WordsOfLevel(level: nat)
      requires Stored() && level < levelCount
      ensures levelOffsets[level + 1] - levelOffsets[level] == |rows[level]|
      ensures levelOffsets[0] == 0
    {
      assert LevelOffset(shape, level + 1) == LevelOffset(shape, level) + LevelBits(shape, level + 1);
    }

    // words_[LEVEL_OFFSETS[level] + word], read and written.
    method Load(level: nat, word: nat) returns (value: nat)
      requires Stored() && HasWord(rows, level, word)
      ensures value == WordAt(rows, level, word) && value == rows[level][word]
    {
      value := words[levelOffsets[level] + word];
    }

    method Store(level: nat, word: nat, value: nat)
      requires Stored() && HasWord(rows, level, word) && value < Pow2(shape.wordBits)
      modifies this`rows, words
      ensures Stored() && rows == Put(old(rows), level, word, value)
    {
      ghost var before := words[..];
      FlatPut(shape, rows, before, level, word, value);
      PutWord(shape, rows, level, word, value);
      words[levelOffsets[level] + word] := value;
      assert words[..] == before[levelOffsets[level] + word := value];
      rows := Put(rows, level, word, value);
    }

    // LEVEL_COUNT and LEVEL_OFFSETS, as the class computes them at compile time.
    static method Layout(g: Shape) returns (levels: nat, offsets: seq<nat>)
      ensures levels == Levels(g) && |offsets| == levels + 1
      ensures AreLevelOffsets(g, offsets)
    {
      levels := 1;
      var bits: nat := g.count;
      while bits > g.wordBits
        invariant levels >= 1
        invariant levels + LevelsFor(bits, g.wordBits) == Levels(g) + 1
        decreases bits
      {
        CeilDivShrinks(bits, g.wordBits);
        CeilDivIsQuotient(bits, g.wordBits);
        bits := bits / g.wordBits + (if bits % g.wordBits != 0 then 1 else 0);
        levels := levels + 1;
      }
      offsets := [0];
      bits := g.count;
      for level := 0 to levels
        invariant bits == LevelBits(g, level)
        invariant |offsets| == level + 1
        invariant AreLevelOffsets(g, offsets)
      {
        CeilDivIsQuotient(bits, g.wordBits);
        bits := bits / g.wordBits + (if bits % g.wordBits != 0 then 1 else 0);
        var next := offsets[level] + bits;
        assert next == LevelOffset(g, level + 1);
        offsets := offsets + [next];
      }
    }

    // All bits start clear.
    constructor (g: Shape)
      ensures Valid() && shape == g && Contents() == {} && fresh(words)
    {
      var levels, offsets := Layout(g);
      shape := g;
      levelCount := levels;
      levelOffsets := offsets;
      words := new nat[offsets[levels]](_ => 0);
      rows := ZeroRows(g);
      new;
      ZeroRowsFlat(g, words[..]);
    }

    method Set(index: nat)
      requires Valid() && index < shape.count
      modifies this`rows, words
      ensures Valid() && Contents() == old(Contents()) + {index}
    {
      ghost var start := rows;
      var n := index;
      for level := 0 to levelCount
        invariant Stored() && Raising(shape, start, rows, level, n, index)
      {
        RaiseStep(shape, start, rows, level, n, index);
        RaiseFits(shape, rows, level, n);
        var word := WordOf(shape, n);
        var previous := Load(level, word);
        Store(level, word, Or(previous, MaskOf(shape, n)));
        if previous != 0 {
          RaiseDone(shape, start, rows, level + 1, word, index);
          return;
        }
        n := word;
      }
      RaiseDone(shape, start, rows, levelCount, n, index);
    }

    // The part of a range of `left` indexes from `at` on that lies in the word of `at`.
    function Take(at: nat, left: nat): (take: nat)
      requires left > 0
      ensures 1 <= take <= left && OffsetOf(shape, at) + take <= shape.wordBits
    {
      if left < shape.wordBits - OffsetOf(shape, at) then left else shape.wordBits - OffsetOf(shape, at)
    }

    method SetRange(first: nat, length: nat)
      requires Valid() && first <= shape.count && length <= shape.count - first
      modifies this`rows, words
      ensures Valid()
      ensures Contents() == old(Contents()) + Interval(first, first + length)
    {
      hide Levels, LevelBits, Interval, Or, Bit;
      var at, left := first, length;
      while left != 0
        invariant first <= at && at + left == first + length
        invariant Valid()
        invariant Contents() == old(Contents()) + Interval(first, at)
      {
        var take := Take(at, left);
        Set(at);
        FillStep(shape, rows, at, take);
        var word := WordOf(shape, at);
        var previous := Load(0, word);
        Store(0, word, Or(previous, RunMask(shape, OffsetOf(shape, at), take)));
        IntervalSplit(old(Contents()), first, at, at + take);
        at := at + take;
        left := left - take;
      }
    }

    // reset(index). A range reset calls it with the word of `index` emptied and its summary pending.
    method Reset(index: nat)
      requires Stored() && index < shape.count
      requires Consistent(shape, rows) || Lowering(shape, rows, rows, 0, index, index)
      modifies this`rows, words
      ensures Valid() && Contents() == old(Contents()) - {index}
    {
      ghost var start := rows;
      var n := index;
      if Consistent(shape, rows) { StartLowering(shape, rows, index); }
      for level := 0 to levelCount
        invariant Stored() && Lowering(shape, start, rows, level, n, index)
      {
        LowerStep(shape, start, rows, level, n, index);
        LowerFits(shape, rows, level, n);
        var word := WordOf(shape, n);
        var previous := Load(level, word);
        Store(level, word, And(previous, Not(shape.wordBits, MaskOf(shape, n))));
        var left := Load(level, word);
        if left != 0 { return; }
        n := word;
      }
      LowerDone(shape, start, rows, levelCount, n, index);
    }

    method ResetRange(first: nat, length: nat)
      requires Valid() && first <= shape.count && length <= shape.count - first
      modifies this`rows, words
      ensures Valid()
      ensures Contents() == old(Contents()) - Interval(first, first + length)
    {
      hide Levels, LevelBits, Interval, And, Bit;
      var at, left := first, length;
      while left != 0
        invariant first <= at && at + left == first + length
        invariant Valid()
        invariant Contents() == old(Contents()) - Interval(first, at)
      {
        var take := Take(at, left);
        EraseStep(shape, rows, at, take);
        var word := WordOf(shape, at);
        var previous := Load(0, word);
        var mask := RunMask(shape, OffsetOf(shape, at), take);
        Store(0, word, And(previous, Not(shape.wordBits, mask)));
        var now := Load(0, word);
        if previous != 0 && now == 0 {
          Reset(at);
        }
        IntervalSplit(old(Contents()), first, at, at + take);
        at := at + take;
        left := left - take;
      }
    }

    method ResetAll()
      requires Valid()
      modifies this`rows, words
      ensures Valid() && Contents() == {}
    {
      if shape.count != 0 {
        ghost var before := rows;
        TopLevel(shape);
        ClearWord(levelCount - 1, 0);
        TopClears(shape, before, rows);
      }
    }

    // Snapshot each parent before clearing its children.
    method ClearWord(level: nat, word: nat)
      requires Stored() && InBounds(shape, rows)
      requires HasWord(rows, level, word) && LinkedUnder(shape, rows, level, word)
      modifies this`rows, words
      ensures Stored() && InBounds(shape, rows)
      ensures ClearedUnder(shape, old(rows), rows, level, word)
      decreases level
    {
      ghost var start := rows;
      var remaining := Load(level, word);
      PutWord(shape, rows, level, word, 0);
      Store(level, word, 0);
      ZeroedInBounds(shape, start, rows);
      if level == 0 { return; }
      StartClearing(shape, start, rows, level, word);
      while remaining != 0
        invariant Stored() && InBounds(shape, rows)
        invariant Clearing(shape, start, rows, level, word, remaining)
        decreases remaining
      {
        ghost var now := rows;
        var child := IndexOf(shape, word, CountrZero(remaining));
        ChildInRange(shape, start, level, word, remaining);
        PendingChildLinked(shape, start, now, level, word, remaining, child);
        WidthIsLevelBits(shape, start, level);
        ClearWord(level - 1, child);
        ClearChild(shape, start, now, rows, level, word, remaining, child);
        AndLess(remaining);
        remaining := And(remaining, remaining - 1);
      }
      DoneClearing(shape, start, rows, level, word);
    }

    method Test(index: nat) returns (r: bool)
      requires Valid()
      ensures r <==> index in Contents()
    {
      if index < shape.count {
        WordOfBit(shape, rows, 0, index);
        MemberBit(shape, rows, index);
        var word := Load(0, WordOf(shape, index));
        r := And(word, MaskOf(shape, index)) != 0;
      } else {
        r := false;
      }
    }

    method None() returns (r: bool)
      requires Valid()
      ensures r <==> Contents() == {}
    {
      TopWordDecides(shape, rows);
      TopLevel(shape);
      if shape.count == 0 {
        r := true;
      } else {
        r := words[words.Length - 1] == 0;
      }
    }

    method FindNext(level: nat, first: nat) returns (r: nat)
      requires Valid() && level < levelCount
      ensures NextBit(shape, rows, level, first, r)
      decreases levelCount - level
    {
      var start := WordOf(shape, first);
      var word := start;
      WordsOfLevel(level);
      var wordCount := levelOffsets[level + 1] - levelOffsets[level];
      if word >= wordCount {
        PastTheLastWord(shape, rows, level, first);
        NothingInLevel(shape, rows, level, first);
        return shape.count;
      }
      var stored := Load(level, word);
      var remaining := Tail(shape, stored, OffsetOf(shape, first));
      TailIsRest(shape, rows, level, first);
      WordsAscend(shape, first);
      if remaining == 0 {
        RestOfWordEmpty(shape, rows, level, first, word);
        if level + 1 == levelCount {
          TopWordIsLast(shape, rows, level, first);
          NothingInLevel(shape, rows, level, first);
          return shape.count;
        }
        word := FindNext(level + 1, start + 1);
        SummaryAnswers(shape, rows, level, start + 1, word);
        if word >= wordCount {
          NothingInLevel(shape, rows, level, first);
          return shape.count;
        }
        remaining := Load(level, word);
        WholeWordIsRest(shape, rows, level, first, word);
      }
      FoundInWord(shape, rows, level, first, word, remaining);
      r := IndexOf(shape, word, CountrZero(remaining));
    }

    method Count() returns (result: nat)
      requires Valid()
      ensures result == |Contents()|
    {
      result := 0;
      WordsOfLevel(0);
      for word := 0 to levelOffsets[1]
        invariant result == Rank(shape, rows, IndexOf(shape, word, 0))
      {
        assert HasWord(rows, 0, word);
        var stored := Load(0, word);
        WordAddsPopcount(shape, rows, word);
        result := result + Popcount(stored);
      }
      AllMembersBelow(shape, rows);
    }

    method All() returns (r: bool)
      requires Valid()
      ensures r <==> Contents() == Interval(0, shape.count)
    {
      var count := Count();
      FullSet(Contents(), shape.count);
      r := count == shape.count;
    }
  }

  // Iterator: yields the members in ascending order.
  class IndexCursor {
    const owner: FlaggedBits
    var word: nat
    var remaining: nat
    ghost var from: nat

    ghost predicate Valid()
      reads this, owner, owner.words
    {
      owner.Valid() && StandsAt(owner.shape, owner.rows, from, word, remaining)
    }

    predicate AtEnd()
      reads this
    {
      remaining == 0
    }

    function Current(): nat
      requires !AtEnd()
      reads this
    {
      IndexOf(owner.shape, word, CountrZero(remaining))
    }

    constructor (bits: FlaggedBits)
      requires bits.Valid()
      ensures Valid() && owner == bits && from == 0
    {
      owner := bits;
      word, remaining, from := 0, 0, 0;
      new;
      LoadWord(0);
    }

    // Moves to the first nonzero word at or after `first`.
    method LoadWord(first: nat)
      requires owner.Valid()
      requires forall n: nat :: first <= WordOf(owner.shape, n) ==> from <= n
      requires forall n: nat :: from <= n && WordOf(owner.shape, n) < first ==> !BitAt(owner.shape, owner.rows, 0, n)
      modifies this`word, this`remaining
      ensures Valid()
    {
      if owner.levelCount == 1 {
        word := first;
      } else {
        word := owner.FindNext(1, first);
        SummaryAnswers(owner.shape, owner.rows, 0, first, word);
      }
      OnlyTopWord(owner.shape, owner.rows);
      owner.WordsOfLevel(0);
      if word < owner.levelOffsets[1] {
        remaining := owner.Load(0, word);
      } else {
        remaining := 0;
      }
      WordLoaded(owner.shape, owner.rows, from, word);
    }

    method MoveNext()
      requires Valid() && !AtEnd()
      modifies this
      ensures Valid() && from == old(Current()) + 1
    {
      DropLowest(owner.shape, owner.rows, from, word, remaining);
      from := Current() + 1;
      remaining := And(remaining, remaining - 1);
      if remaining == 0 {
        RestOfWordEmpty(owner.shape, owner.rows, 0, from, word);
        LaterWords(owner.shape, from - 1);
        LoadWord(word + 1);
      }
    }
  }

  // RangeIterator: yields the maximal runs of members in ascending order.
  class RangeCursor {
    const owner: FlaggedBits
    var first: nat
    var end: nat

    ghost predicate Valid()
      reads this, owner, owner.words
    {
      && owner.Valid()
      && (AtEnd() ==> end == owner.shape.count)
      && (!AtEnd() ==> MaximalRun(owner.shape, owner.rows, first, end))
    }

    predicate AtEnd()
      reads this
    {
      first == owner.shape.count
    }

    constructor (bits: FlaggedBits)
      requires bits.Valid()
      ensures Valid() && owner == bits
      ensures forall n: nat :: n < first ==> !BitAt(bits.shape, bits.rows, 0, n)
    {
      owner := bits;
      first, end := 0, 0;
      new;
      Advance();
    }

    // operator++ without the guard of MoveNext: also runs from the initial position.
    method Advance()
      requires owner.Valid() && end <= owner.shape.count
      requires end == 0 || !BitAt(owner.shape, owner.rows, 0, end)
      modifies this
      ensures Valid() && old(end) <= first
      ensures forall n: nat :: old(end) <= n < first ==> !BitAt(owner.shape, owner.rows, 0, n)
    {
      ghost var g, rows := owner.shape, owner.rows;
      first := owner.FindNext(0, end);
      end := first;
      ghost var found := first;
      while end < owner.shape.count
        invariant first == found && found <= end <= g.count
        invariant forall n: nat :: first <= n < end ==> BitAt(g, rows, 0, n)
        decreases g.count - end
      {
        var offset := OffsetOf(owner.shape, end);
        WordOfBit(g, rows, 0, end);
        var stored := owner.Load(0, WordOf(owner.shape, end));
        var run := CountrOne(Shr(stored, offset));
        ExtendRun(g, rows, first, end, run);
        end := end + run;
        if run != owner.shape.wordBits - offset { break; }
      }
      RunEnds(g, rows, old(end), first, end);
    }

    method MoveNext()
      requires Valid() && !AtEnd()
      modifies this
      ensures Valid() && old(end) <= first
      ensures forall n: nat :: old(end) <= n < first ==> !BitAt(owner.shape, owner.rows, 0, n)
    {
      Advance();
    }
  }

  // A loop over indexes() visits exactly the members, in ascending order.
  method CollectIndexes(bits: FlaggedBits) returns (visited: seq<nat>)
    requires bits.Valid()
    ensures Ascending(visited) && forall n: nat :: n in visited <==> n in bits.Contents()
  {
    var cursor := new IndexCursor(bits);
    visited := [];
    while !cursor.AtEnd()
      invariant cursor.Valid() && cursor.owner == bits && fresh(cursor)
      invariant Ascending(visited)
      invariant forall n: nat :: n in visited ==> n < cursor.from
      invariant forall n: nat :: n < cursor.from ==> (n in visited <==> n in bits.Contents())
      decreases bits.shape.count - cursor.from, if cursor.AtEnd() then 0 else 1
    {
      FoundInWord(bits.shape, bits.rows, 0, cursor.from, cursor.word, cursor.remaining);
      AppendIndex(visited, cursor.Current());
      visited := visited + [cursor.Current()];
      cursor.MoveNext();
    }
  }

  // A loop over ranges() visits exactly the maximal runs, in ascending order.
  method CollectRanges(bits: FlaggedBits) returns (runs: seq<(nat, nat)>)
    requires bits.Valid()
    ensures RunsUpTo(bits.shape, bits.rows, runs, bits.shape.count)
  {
    hide RunsUpTo, BitAt, FlaggedBits.Valid;
    EmptyRuns(bits.shape, bits.rows);
    var cursor := new RangeCursor(bits);
    runs := [];
    ghost var g, rows, high: nat := bits.shape, bits.rows, 0;
    while !cursor.AtEnd()
      invariant cursor.Valid() && cursor.owner == bits && fresh(cursor) && bits.rows == rows
      invariant RunsUpTo(g, rows, runs, high)
      invariant high <= cursor.first && (|runs| > 0 ==> !BitAt(g, rows, 0, high))
      invariant forall n: nat :: high <= n < cursor.first ==> !BitAt(g, rows, 0, n)
      decreases g.count - cursor.first
    {
      AppendRun(g, rows, runs, high, cursor.first, cursor.end);
      runs := runs + [(cursor.first, cursor.end - cursor.first)];
      high := cursor.end;
      cursor.MoveNext();
    }
    FinishRuns(g, rows, runs, high);
  }
}
