// A sort for any total order, standing in for std::sort: all that callers may rely on is that the result
// is an ordered permutation.
module Sorting {

  ghost predicate TotalOrder<T(!new)>(le: (T, T) -> bool) {
    && (forall a: T, b: T :: le(a, b) || le(b, a))
    && (forall a: T, b: T, c: T :: le(a, b) && le(b, c) ==> le(a, c))
  }

  ghost predicate Sorted<T(!new)>(s: seq<T>, le: (T, T) -> bool) {
    forall i, j :: 0 <= i < j < |s| ==> le(s[i], s[j])
  }

  function InsertSorted<T>(s: seq<T>, x: T, le: (T, T) -> bool): seq<T> {
    if s == [] || le(s[|s| - 1], x) then s + [x]
    else InsertSorted(s[..|s| - 1], x, le) + [s[|s| - 1]]
  }

  lemma {:induction false} InsertSortedHas<T>(s: seq<T>, x: T, le: (T, T) -> bool)
    ensures multiset(InsertSorted(s, x, le)) == multiset(s) + multiset{x}
    decreases |s|
  {
    if s != [] && !le(s[|s| - 1], x) {
      assert s == s[..|s| - 1] + [s[|s| - 1]];
      InsertSortedHas(s[..|s| - 1], x, le);
    }
  }

  lemma {:induction false} InsertSortedOk<T(!new)>(s: seq<T>, x: T, le: (T, T) -> bool)
    requires TotalOrder(le) && Sorted(s, le)
    ensures Sorted(InsertSorted(s, x, le), le)
    ensures var r := InsertSorted(s, x, le);
            r != [] && r[|r| - 1] == if s == [] || le(s[|s| - 1], x) then x else s[|s| - 1]
    decreases |s|
  {
    if s != [] {
      var front, last := s[..|s| - 1], s[|s| - 1];
      if le(last, x) {
        forall i | 0 <= i < |s| ensures le(s[i], x) {
          assert i < |s| - 1 ==> le(s[i], last);
        }
      } else {
        InsertSortedOk(front, x, le);
        var r := InsertSorted(front, x, le);
        assert le(r[|r| - 1], last);
        forall i | 0 <= i < |r| ensures le(r[i], last) {
          assert i < |r| - 1 ==> le(r[i], r[|r| - 1]);
        }
      }
    }
  }

  method Sort<T(!new)>(s: seq<T>, le: (T, T) -> bool) returns (r: seq<T>)
    requires TotalOrder(le)
    ensures Sorted(r, le) && multiset(r) == multiset(s)
  {
    r := [];
    var i := 0;
    while i < |s|
      invariant i <= |s| && Sorted(r, le) && multiset(r) == multiset(s[..i])
    {
      assert s[..i + 1] == s[..i] + [s[i]];
      InsertSortedOk(r, s[i], le);
      InsertSortedHas(r, s[i], le);
      r := InsertSorted(r, s[i], le);
      i := i + 1;
    }
    assert s[..|s|] == s;
  }

  // A permutation has the last element somewhere; without it the rest is a permutation of the rest.
  lemma MultisetAt<T>(s: seq<T>, k: nat)
    requires k < |s|
    ensures multiset(s[..k] + s[k + 1..]) == multiset(s) - multiset{s[k]}
  {
    assert s == s[..k] + [s[k]] + s[k + 1..];
  }

  lemma WithoutOne<T>(a: seq<T>, c: seq<T>) returns (k: nat)
    requires |a| > 0 && multiset(a) == multiset(c)
    ensures k < |c| && c[k] == a[|a| - 1]
    ensures multiset(a[..|a| - 1]) == multiset(c[..k] + c[k + 1..])
  {
    var n := |a| - 1;
    MultisetAt(a, n);
    assert a[n] in multiset(c);
    k :| 0 <= k < |c| && c[k] == a[n];
    MultisetAt(c, k);
    assert a[..n] + a[n + 1..] == a[..n];
  }
}
