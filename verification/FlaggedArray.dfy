// Storage plus membership flags: the block of which sparse vectors are made.
module FlaggedArray {
  import Tree = FlaggedTree
  import Bits = FlaggedBits

  // The value of a block. Slots outside `flags` keep whatever was stored there last.
  datatype Block<T> = Block(storage: seq<T>, flags: set<nat>) {
    ghost predicate Valid(size: nat) {
      |storage| == size && forall o <- flags :: o < size
    }

    predicate Has(o: nat) {
      o in flags
    }
  }

  function SetAt<T>(b: Block<T>, o: nat, v: T): Block<T>
    requires o < |b.storage|
  {
    Block(b.storage[o := v], b.flags + {o})
  }

  function Overlay<T>(s: seq<T>, first: nat, vs: seq<T>): (r: seq<T>)
    requires first + |vs| <= |s|
    ensures |r| == |s|
  {
    s[..first] + vs + s[first + |vs|..]
  }

  lemma OverlayNext<T>(s: seq<T>, first: nat, vs: seq<T>, i: nat)
    requires first + |vs| <= |s| && i < |vs|
    ensures Overlay(s, first, vs[..i])[first + i := vs[i]] == Overlay(s, first, vs[..i + 1])
  {
  }

  lemma OverlayNothing<T>(s: seq<T>, first: nat)
    requires first <= |s|
    ensures Overlay(s, first, []) == s
  {
  }

  function SetRangeAt<T>(b: Block<T>, first: nat, vs: seq<T>): Block<T>
    requires first + |vs| <= |b.storage|
  {
    Block(Overlay(b.storage, first, vs), b.flags + Tree.Interval(first, first + |vs|))
  }

  function ClearRangeAt<T>(b: Block<T>, first: nat, count: nat): Block<T> {
    b.(flags := b.flags - Tree.Interval(first, first + count))
  }

  function Cleared<T>(b: Block<T>): Block<T> {
    b.(flags := {})
  }

  class FlaggedArray<T> {
    const size: nat
    const storage: array<T>
    const flags: Bits.FlaggedBits

    ghost predicate Valid()
      reads this, storage, flags, flags.words
    {
      storage as object != flags.words && storage.Length == size && flags.Valid() && flags.shape.count == size
    }

    ghost function Value(): (b: Block<T>)
      requires Valid()
      reads this, storage, flags, flags.words
      ensures b.Valid(size)
    {
      Block(storage[..], flags.Contents())
    }

    constructor (shape: Tree.Shape, initial: T)
      ensures Valid() && size == shape.count && Value() == Block(seq(shape.count, _ => initial), {})
      ensures fresh(storage) && fresh(flags) && fresh(flags.words)
    {
      size := shape.count;
      var s := new T[shape.count](_ => initial);
      storage := s;
      var f := new Bits.FlaggedBits(shape);
      flags := f;
      new;
      assert storage[..] == seq(shape.count, _ => initial);
    }

    method Set(index: nat, value: T)
      requires Valid() && index < size
      modifies storage, flags, flags.words
      ensures Valid() && Value() == SetAt(old(Value()), index, value)
    {
      storage[index] := value;
      flags.Set(index);
    }

    method SetRange(first: nat, values: seq<T>)
      requires Valid() && first <= size && |values| <= size - first
      modifies storage, flags, flags.words
      ensures Valid() && Value() == SetRangeAt(old(Value()), first, values)
    {
      hide Overlay;
      ghost var before := storage[..];
      OverlayNothing(before, first);
      var i := 0;
      while i < |values|
        invariant i <= |values| && flags.Valid() && flags.Contents() == old(flags.Contents())
        invariant storage[..] == Overlay(before, first, values[..i])
      {
        OverlayNext(before, first, values, i);
        storage[first + i] := values[i];
        i := i + 1;
      }
      assert values[..i] == values;
      flags.SetRange(first, |values|);
    }

    method Has(index: nat) returns (r: bool)
      requires Valid()
      ensures r <==> Value().Has(index)
    {
      if index >= size { return false; }
      r := flags.Test(index);
    }

    method Get(index: nat) returns (v: T)
      requires Valid() && Value().Has(index)
      ensures v == Value().storage[index]
    {
      v := storage[index];
    }

    method Reset(index: nat)
      requires Valid() && index < size
      modifies flags, flags.words
      ensures Valid() && Value() == ClearRangeAt(old(Value()), index, 1)
    {
      assert Tree.Interval(index, index + 1) == {index};
      flags.Reset(index);
    }

    method Clear()
      requires Valid()
      modifies flags, flags.words
      ensures Valid() && Value() == Cleared(old(Value()))
    {
      flags.ResetAll();
    }

    method ClearRange(first: nat, count: nat)
      requires Valid() && first <= size && count <= size - first
      modifies flags, flags.words
      ensures Valid() && Value() == ClearRangeAt(old(Value()), first, count)
    {
      flags.ResetRange(first, count);
    }

    method IsEmpty() returns (r: bool)
      requires Valid()
      ensures r <==> Value().flags == {}
    {
      r := flags.None();
    }

    method IsComplete() returns (r: bool)
      requires Valid()
      ensures r <==> Value().flags == Tree.Interval(0, size)
    {
      r := flags.All();
    }
  }
}
