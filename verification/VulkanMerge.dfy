// Merging injected descriptors into the descriptor sets of a game's Vulkan pipeline layout.
module VulkanMerge {
  import Sorting

  const MAX_UINT32 := 0xFFFF_FFFF
  const WRAP := 0x1_0000_0000

  // `visibility` is the set of shader stage bits.
  datatype Range = Range(binding: nat, count: nat, arraySize: nat, kind: nat, visibility: set<nat>)

  // A parameter of a layout: a descriptor table, or another kind that holds `count` of something.
  datatype Param = Table(ranges: seq<Range>) | OtherParam(kind: nat, count: nat)

  // The last binding of a nonempty range, in 32-bit arithmetic.
  function Last(r: Range): int {
    if r.count == MAX_UINT32 then MAX_UINT32
    else
      var last := r.binding + r.count - r.arraySize;
      if last < 0 then last + WRAP else if last >= WRAP then last - WRAP else last
  }

  predicate CoversBinding(r: Range, b: nat) {
    r.count != 0 && r.binding <= b <= Last(r)
  }

  predicate Simple(r: Range) {
    r.count == 1 && r.arraySize == 1 && r.binding < WRAP
  }

  datatype Merge = Merged(ranges: seq<Range>) | Conflict | Malformed

  // The first range that covers a binding.
  function FirstCover(rs: seq<Range>, b: nat): (i: nat)
    ensures i <= |rs|
    ensures i < |rs| ==> CoversBinding(rs[i], b)
    ensures forall j :: 0 <= j < i ==> !CoversBinding(rs[j], b)
  {
    if rs == [] then 0
    else
      var i := FirstCover(rs[..|rs| - 1], b);
      if i < |rs| - 1 || CoversBinding(rs[|rs| - 1], b) then i else |rs|
  }

  function MergeOne(rs: seq<Range>, injected: Range): Merge {
    if injected.count != 1 || injected.arraySize != 1 then Malformed
    else
      var i := FirstCover(rs, injected.binding);
      if i == |rs| then Merged(rs + [injected])
      else if rs[i].kind != injected.kind then Conflict
      else Merged(rs[i := rs[i].(visibility := rs[i].visibility + injected.visibility)])
  }

  function MergeAll(rs: seq<Range>, injected: seq<Range>): Merge {
    if injected == [] then Merged(rs)
    else
      match MergeAll(rs, injected[..|injected| - 1])
      case Merged(rs') => MergeOne(rs', injected[|injected| - 1])
      case Conflict => Conflict
      case Malformed => Malformed
  }

  // ---- Which ranges cover a binding ----

  function CoverCount(rs: seq<Range>, b: nat): nat {
    if rs == [] then 0
    else CoverCount(rs[..|rs| - 1], b) + if CoversBinding(rs[|rs| - 1], b) then 1 else 0
  }

  ghost predicate Disjoint(rs: seq<Range>) {
    forall b: nat :: CoverCount(rs, b) <= 1
  }

  ghost predicate Injects(injected: seq<Range>, b: nat) {
    exists i :: 0 <= i < |injected| && injected[i].binding == b
  }

  lemma {:induction false} CoveredSomewhere(rs: seq<Range>, b: nat)
    ensures CoverCount(rs, b) > 0 <==> exists i :: 0 <= i < |rs| && CoversBinding(rs[i], b)
    ensures CoverCount(rs, b) > 0 <==> FirstCover(rs, b) < |rs|
  {
    if rs != [] { CoveredSomewhere(rs[..|rs| - 1], b); }
  }

  lemma {:induction false} CoverUpdate(rs: seq<Range>, i: nat, r: Range, b: nat)
    requires i < |rs| && CoversBinding(r, b) == CoversBinding(rs[i], b)
    ensures CoverCount(rs[i := r], b) == CoverCount(rs, b)
    decreases |rs|
  {
    var n := |rs| - 1;
    if i < n {
      assert rs[i := r][..n] == rs[..n][i := r];
      CoverUpdate(rs[..n], i, r, b);
    } else {
      assert rs[i := r][..n] == rs[..n];
    }
  }

  lemma SimpleCovers(r: Range, b: nat)
    requires Simple(r)
    ensures CoversBinding(r, b) <==> b == r.binding
  {
  }

  // One injected binding: it is covered afterwards, nothing else changes cover.
  lemma MergeOneCovers(rs: seq<Range>, injected: Range, b: nat)
    requires Simple(injected) && MergeOne(rs, injected).Merged?
    ensures var rs' := MergeOne(rs, injected).ranges;
            CoverCount(rs', b) == if b == injected.binding && CoverCount(rs, b) == 0 then 1 else CoverCount(rs, b)
  {
    hide Last;
    var i := FirstCover(rs, injected.binding);
    CoveredSomewhere(rs, injected.binding);
    SimpleCovers(injected, b);
    if i == |rs| {
      assert (rs + [injected])[..|rs|] == rs;
    } else {
      var r := rs[i].(visibility := rs[i].visibility + injected.visibility);
      SameCover(rs[i], r, b);
      CoverUpdate(rs, i, r, b);
    }
  }

  lemma SameCover(r: Range, r': Range, b: nat)
    requires r'.binding == r.binding && r'.count == r.count && r'.arraySize == r.arraySize
    ensures CoversBinding(r', b) == CoversBinding(r, b)
  {
  }

  ghost predicate AllSimple(injected: seq<Range>) {
    forall i :: 0 <= i < |injected| ==> Simple(injected[i])
  }

  // The merged table covers exactly the union of the bindings, and stays disjoint.
  lemma {:induction false} MergeCoversUnion(rs: seq<Range>, injected: seq<Range>, b: nat)
    requires AllSimple(injected) && MergeAll(rs, injected).Merged?
    ensures var rs' := MergeAll(rs, injected).ranges;
            CoverCount(rs', b) == if Injects(injected, b) && CoverCount(rs, b) == 0 then 1 else CoverCount(rs, b)
    decreases |injected|
  {
    hide CoverCount, Simple, MergeOne;
    if injected != [] {
      var front, last := injected[..|injected| - 1], injected[|injected| - 1];
      MergeCoversUnion(rs, front, b);
      MergeOneCovers(MergeAll(rs, front).ranges, last, b);
      assert Injects(injected, b) <==> Injects(front, b) || last.binding == b by { InjectsLast(injected, b); }
    }
  }

  lemma InjectsLast(injected: seq<Range>, b: nat)
    requires |injected| > 0
    ensures Injects(injected, b) <==> Injects(injected[..|injected| - 1], b) || injected[|injected| - 1].binding == b
  {
    var front := injected[..|injected| - 1];
    if Injects(injected, b) && injected[|injected| - 1].binding != b {
      var i :| 0 <= i < |injected| && injected[i].binding == b;
      assert front[i].binding == b;
    }
    if Injects(front, b) {
      var i :| 0 <= i < |front| && front[i].binding == b;
      assert injected[i].binding == b;
    }
  }

  lemma MergeStaysDisjoint(rs: seq<Range>, injected: seq<Range>)
    requires AllSimple(injected) && MergeAll(rs, injected).Merged? && Disjoint(rs)
    ensures Disjoint(MergeAll(rs, injected).ranges)
  {
    hide CoverCount, MergeAll;
    forall b: nat ensures CoverCount(MergeAll(rs, injected).ranges, b) <= 1 {
      MergeCoversUnion(rs, injected, b);
    }
  }

  // A range that only gained visibility.
  predicate Grown(r: Range, r': Range) {
    r' == r.(visibility := r'.visibility) && r.visibility <= r'.visibility
  }

  // The game's ranges come first and keep everything but visibility, which only grows; what follows are
  // injected ranges.
  lemma {:induction false} MergeKeepsOriginals(rs: seq<Range>, injected: seq<Range>)
    requires MergeAll(rs, injected).Merged?
    ensures var rs' := MergeAll(rs, injected).ranges;
            && |rs| <= |rs'|
            && (forall i :: 0 <= i < |rs| ==> Grown(rs[i], rs'[i]))
            && (forall i :: |rs| <= i < |rs'| ==> exists j :: 0 <= j < |injected| && Grown(injected[j], rs'[i]))
    decreases |injected|
  {
    hide FirstCover, CoversBinding;
    if injected != [] {
      var front, last := injected[..|injected| - 1], injected[|injected| - 1];
      MergeKeepsOriginals(rs, front);
      var before, rs' := MergeAll(rs, front).ranges, MergeAll(rs, injected).ranges;
      forall i | |rs| <= i < |rs'| ensures exists j :: 0 <= j < |injected| && Grown(injected[j], rs'[i]) {
        if i == |before| {
          assert Grown(injected[|injected| - 1], rs'[i]);
        } else {
          var j :| 0 <= j < |front| && Grown(front[j], before[i]);
          assert Grown(injected[j], rs'[i]);
        }
      }
    }
  }

  // Every injected descriptor finds a range of its type that covers it and is visible to it.
  lemma {:induction false} InjectedServed(rs: seq<Range>, injected: seq<Range>, j: nat) returns (i: nat)
    requires AllSimple(injected) && MergeAll(rs, injected).Merged? && j < |injected|
    ensures var rs' := MergeAll(rs, injected).ranges;
            && i < |rs'| && CoversBinding(rs'[i], injected[j].binding)
            && rs'[i].kind == injected[j].kind && injected[j].visibility <= rs'[i].visibility
    decreases |injected|
  {
    var n := |injected| - 1;
    var before := MergeAll(rs, injected[..n]).ranges;
    if j == n {
      i := FirstCover(before, injected[n].binding);
      if i == |before| { SimpleCovers(injected[n], injected[n].binding); }
    } else {
      i := InjectedServed(rs, injected[..n], j);
    }
  }

  // ---- When merging fails ----

  ghost predicate ClashesWithTable(rs: seq<Range>, injected: seq<Range>) {
    exists i, j :: 0 <= i < |rs| && 0 <= j < |injected|
                   && CoversBinding(rs[i], injected[j].binding) && rs[i].kind != injected[j].kind
  }

  ghost predicate ClashesWithin(injected: seq<Range>) {
    exists j, k ::
      0 <= j < k < |injected| && injected[j].binding == injected[k].binding
      && injected[j].kind != injected[k].kind
  }

  lemma {:induction false} TwoCovers(rs: seq<Range>, i: nat, k: nat, b: nat)
    requires i < k < |rs| && CoversBinding(rs[i], b) && CoversBinding(rs[k], b)
    ensures CoverCount(rs, b) >= 2
    decreases |rs|
  {
    hide CoversBinding;
    var n := |rs| - 1;
    if k < n {
      TwoCovers(rs[..n], i, k, b);
    } else {
      CoveredSomewhere(rs[..n], b);
      assert rs[..n][i] == rs[i];
    }
  }

  lemma OnlyCover(rs: seq<Range>, i: nat, b: nat)
    requires Disjoint(rs) && i < |rs| && CoversBinding(rs[i], b)
    ensures FirstCover(rs, b) == i
  {
    hide CoversBinding, CoverCount;
    var k := FirstCover(rs, b);
    assert CoverCount(rs, b) <= 1;
    if k < i { TwoCovers(rs, k, i, b); }
  }

  lemma {:induction false} NeverMalformed(rs: seq<Range>, injected: seq<Range>)
    requires AllSimple(injected)
    ensures MergeAll(rs, injected) != Malformed
    decreases |injected|
  {
    if injected != [] { NeverMalformed(rs, injected[..|injected| - 1]); }
  }

  lemma MalformedOne(rs: seq<Range>, injected: Range)
    ensures MergeOne(rs, injected) == Malformed <==> !(injected.count == 1 && injected.arraySize == 1)
  {
  }

  // Merging gives up exactly at an injected range that is not a single descriptor, reached without a conflict.
  lemma {:induction false} MalformedExactly(rs: seq<Range>, injected: seq<Range>)
    ensures MergeAll(rs, injected) == Malformed <==>
            exists k :: 0 <= k < |injected| && !(injected[k].count == 1 && injected[k].arraySize == 1)
                        && MergeAll(rs, injected[..k]).Merged?
    decreases |injected|
  {
    hide MergeOne;
    if injected != [] {
      var n := |injected| - 1;
      MalformedExactly(rs, injected[..n]);
      if MergeAll(rs, injected[..n]).Merged? { MalformedOne(MergeAll(rs, injected[..n]).ranges, injected[n]); }
      hide MergeAll;
      assert MergeAll(rs, injected) == Malformed <==>
             MergeAll(rs, injected[..n]) == Malformed
             || (MergeAll(rs, injected[..n]).Merged? && !(injected[n].count == 1 && injected[n].arraySize == 1));
      forall k | 0 <= k < n ensures injected[..n][..k] == injected[..k] && injected[..n][k] == injected[k] {
      }
      if MergeAll(rs, injected[..n]) == Malformed {
        var k :| 0 <= k < n && !(injected[..n][k].count == 1 && injected[..n][k].arraySize == 1)
                 && MergeAll(rs, injected[..n][..k]).Merged?;
        assert injected[..n][k] == injected[k] && MergeAll(rs, injected[..k]).Merged?;
      }
    }
  }

  // An unbounded range covers all bindings from its first on; another one as many as its count exceeds its array size
  // by, and one.
  lemma RangeCovers(r: Range, b: nat)
    requires r.count != 0 && r.binding <= MAX_UINT32 && b <= MAX_UINT32
    ensures r.count == MAX_UINT32 ==> (CoversBinding(r, b) <==> r.binding <= b)
    ensures r.count < MAX_UINT32 && r.arraySize <= r.count && r.binding + r.count <= MAX_UINT32 ==>
              (CoversBinding(r, b) <==> 0 <= b - r.binding <= r.count - r.arraySize)
  {
  }

  // What the last injected range meets is what the game's table or an earlier injected range has there.
  lemma LastMeets(rs: seq<Range>, injected: seq<Range>, i: nat)
    requires |injected| > 0 && AllSimple(injected)
    requires var front := MergeAll(rs, injected[..|injected| - 1]);
             front.Merged? && i < |front.ranges| && CoversBinding(front.ranges[i], injected[|injected| - 1].binding)
    ensures var r := MergeAll(rs, injected[..|injected| - 1]).ranges[i];
            var b := injected[|injected| - 1].binding;
            || (i < |rs| && CoversBinding(rs[i], b) && rs[i].kind == r.kind)
            || exists j :: 0 <= j < |injected| - 1 && injected[j].binding == b && injected[j].kind == r.kind
  {
    var front, b := injected[..|injected| - 1], injected[|injected| - 1].binding;
    MergeKeepsOriginals(rs, front);
    var rs' := MergeAll(rs, front).ranges;
    hide MergeAll, Last;
    if i < |rs| {
      SameCover(rs[i], rs'[i], b);
    } else {
      var j :| 0 <= j < |front| && Grown(front[j], rs'[i]);
      SameCover(front[j], rs'[i], b);
      SimpleCovers(front[j], b);
      assert injected[j] == front[j];
    }
  }

  // A set is left alone exactly when an injected descriptor disagrees in type with the game's range at its
  // binding, or with another injected descriptor of the same binding.
  lemma {:induction false} ConflictExactly(rs: seq<Range>, injected: seq<Range>)
    requires AllSimple(injected) && Disjoint(rs)
    ensures MergeAll(rs, injected) == Conflict <==> ClashesWithTable(rs, injected) || ClashesWithin(injected)
    decreases |injected|
  {
    if injected != [] {
      var n := |injected| - 1;
      var front := injected[..n];
      ConflictExactly(rs, front);
      NeverMalformed(rs, front);
      ClashesGrow(rs, injected);
      if MergeAll(rs, front).Merged? {
        LastConflict(rs, injected);
      }
    }
  }

  lemma ClashesGrow(rs: seq<Range>, injected: seq<Range>)
    requires |injected| > 0
    ensures var front := injected[..|injected| - 1];
            && (ClashesWithTable(rs, front) ==> ClashesWithTable(rs, injected))
            && (ClashesWithin(front) ==> ClashesWithin(injected))
  {
    hide CoversBinding;
    var front := injected[..|injected| - 1];
    if ClashesWithTable(rs, front) {
      var i, j :| 0 <= i < |rs| && 0 <= j < |front| && CoversBinding(rs[i], front[j].binding)
        && rs[i].kind != front[j].kind;
      assert CoversBinding(rs[i], injected[j].binding);
    }
    if ClashesWithin(front) {
      var j, k :| 0 <= j < k < |front| && front[j].binding == front[k].binding && front[j].kind != front[k].kind;
      assert injected[j] == front[j] && injected[k] == front[k];
    }
  }

  lemma LastConflict(rs: seq<Range>, injected: seq<Range>)
    requires |injected| > 0 && AllSimple(injected) && Disjoint(rs)
    requires MergeAll(rs, injected[..|injected| - 1]).Merged?
    requires var front := injected[..|injected| - 1]; !ClashesWithTable(rs, front) && !ClashesWithin(front)
    ensures MergeAll(rs, injected) == Conflict <==> ClashesWithTable(rs, injected) || ClashesWithin(injected)
  {
    hide CoversBinding, Disjoint, CoverCount;
    var n := |injected| - 1;
    var front, last := injected[..n], injected[n];
    var rs' := MergeAll(rs, front).ranges;
    MergeStaysDisjoint(rs, front);
    var i := FirstCover(rs', last.binding);
    if MergeAll(rs, injected) == Conflict {
      LastMeets(rs, injected, i);
    }
    LastClash(rs, injected);
    if i' :| 0 <= i' < |rs| && CoversBinding(rs[i'], last.binding) && rs[i'].kind != last.kind {
      MergeKeepsOriginals(rs, front);
      SameCover(rs[i'], rs'[i'], last.binding);
      OnlyCover(rs', i', last.binding);
    } else if j :| 0 <= j < n && front[j].binding == last.binding && front[j].kind != last.kind {
      var i' := InjectedServed(rs, front, j);
      OnlyCover(rs', i', last.binding);
    }
  }

  // A clash that is not among the first ones involves the last injected range.
  lemma LastClash(rs: seq<Range>, injected: seq<Range>)
    requires |injected| > 0
    ensures var n := |injected| - 1;
            var front, last := injected[..n], injected[n];
            && (ClashesWithTable(rs, injected) <==>
                ClashesWithTable(rs, front)
                || exists i :: 0 <= i < |rs| && CoversBinding(rs[i], last.binding) && rs[i].kind != last.kind)
            && (ClashesWithin(injected) <==>
                ClashesWithin(front)
                || exists j :: 0 <= j < n && front[j].binding == last.binding && front[j].kind != last.kind)
  {
    hide CoversBinding;
    var n := |injected| - 1;
    var front, last := injected[..n], injected[n];
    assert forall j :: 0 <= j < n ==> injected[j] == front[j];
    if ClashesWithTable(rs, injected) && !ClashesWithTable(rs, front) {
      var i, j :| 0 <= i < |rs| && 0 <= j < |injected|
                  && CoversBinding(rs[i], injected[j].binding) && rs[i].kind != injected[j].kind;
      assert j == n;
    }
    if ClashesWithin(injected) && !ClashesWithin(front) {
      var j, k :| 0 <= j < k < |injected| && injected[j].binding == injected[k].binding
        && injected[j].kind != injected[k].kind;
      assert k == n;
    }
    ClashesGrow(rs, injected);
    if i :| 0 <= i < |rs| && CoversBinding(rs[i], last.binding) && rs[i].kind != last.kind {
      assert CoversBinding(rs[i], injected[n].binding);
    }
    if j :| 0 <= j < n && front[j].binding == last.binding && front[j].kind != last.kind {
      assert injected[j].binding == injected[n].binding;
    }
  }

  // ---- Sorting the merged table ----

  predicate SortedByBinding(rs: seq<Range>) {
    forall i, j :: 0 <= i < j < |rs| ==> rs[i].binding <= rs[j].binding
  }

  method SortRanges(rs: seq<Range>) returns (s: seq<Range>)
    ensures SortedByBinding(s) && multiset(s) == multiset(rs)
  {
    s := Sorting.Sort(rs, (a: Range, b: Range) => a.binding <= b.binding);
  }

  lemma {:induction false} CoverOfParts(a: seq<Range>, c: seq<Range>, b: nat)
    ensures CoverCount(a + c, b) == CoverCount(a, b) + CoverCount(c, b)
    decreases |c|
  {
    if c == [] {
      assert a + c == a;
    } else {
      assert (a + c)[..|a + c| - 1] == a + c[..|c| - 1];
      CoverOfParts(a, c[..|c| - 1], b);
    }
  }

  // Cover does not depend on the order of the table.
  lemma {:induction false} CoverOfPermutation(a: seq<Range>, c: seq<Range>, b: nat)
    requires multiset(a) == multiset(c)
    ensures CoverCount(a, b) == CoverCount(c, b)
    decreases |a|
  {
    if a == [] {
      assert |c| == |multiset(c)| == 0;
    } else {
      var n := |a| - 1;
      var k := Sorting.WithoutOne(a, c);
      CoverOfPermutation(a[..n], c[..k] + c[k + 1..], b);
      assert c == c[..k] + [c[k]] + c[k + 1..];
      CoverOfParts(c[..k] + [c[k]], c[k + 1..], b);
      CoverOfParts(c[..k], [c[k]], b);
      CoverOfParts(c[..k], c[k + 1..], b);
      assert [c[k]][..0] == [];
    }
  }

  // ---- All sets ----

  const PUSH_CONSTANTS := 1

  // The parameters that are descriptor sets, in order.
  method GetVulkanDescriptorSetParamIndexes(params: seq<Param>) returns (indexes: seq<nat>)
    ensures forall s, t :: 0 <= s < t < |indexes| ==> indexes[s] < indexes[t]
    ensures forall p: nat :: p in indexes <==>
            p < |params| && !(params[p].OtherParam? && params[p].kind == PUSH_CONSTANTS)
  {
    indexes := [];
    var p := 0;
    while p < |params|
      invariant p <= |params| && forall s, t :: 0 <= s < t < |indexes| ==> indexes[s] < indexes[t]
      invariant forall s :: 0 <= s < |indexes| ==> indexes[s] < p
      invariant forall q: nat :: q in indexes <==> q < p && !(params[q].OtherParam? && params[q].kind == PUSH_CONSTANTS)
    {
      if !(params[p].OtherParam? && params[p].kind == PUSH_CONSTANTS) { indexes := indexes + [p]; }
      p := p + 1;
    }
  }

  predicate Mergeable(original: Param, injected: Param) {
    original.Table? && injected.Table? && injected.ranges != []
  }

  // What becomes of one parameter: tables merge unless a type conflicts, everything else stays.
  ghost predicate Outcome(original: Param, injected: Param, result: Param) {
    if !Mergeable(original, injected) then result == original
    else
      match MergeAll(original.ranges, injected.ranges)
      case Merged(rs) => result.Table? && SortedByBinding(result.ranges) && multiset(result.ranges) == multiset(rs)
      case Conflict => result == original
      case Malformed => false
  }

  // `existing` holds, for each descriptor set of the game's layout, the index of its parameter.
  method MergeVulkanDescriptorParameters(injected: seq<Param>, existing: seq<nat>,
                                         params: array<Param>) returns (ok: bool)
    requires forall s :: 0 <= s < |existing| ==> existing[s] < params.Length
    requires forall s, t :: 0 <= s < t < |existing| ==> existing[s] != existing[t]
    modifies params
    ensures ok <==>
            forall s :: 0 <= s < |injected| && s < |existing| && Mergeable(old(params[existing[s]]), injected[s]) ==>
                      !MergeAll(old(params[existing[s]]).ranges, injected[s].ranges).Malformed?
    ensures ok ==> forall s :: 0 <= s < |injected| && s < |existing| ==>
                     Outcome(old(params[existing[s]]), injected[s], params[existing[s]])
    ensures forall p ::
              0 <= p < params.Length
              && p !in existing[..if |injected| < |existing| then |injected| else |existing|] ==>
              params[p] == old(params[p])
  {
    hide MergeAll, SortedByBinding;
    var sets := if |injected| < |existing| then |injected| else |existing|;
    var s := 0;
    while s < sets
      invariant s <= sets
      invariant forall t :: 0 <= t < s ==> Outcome(old(params[existing[t]]), injected[t], params[existing[t]])
      invariant forall p :: 0 <= p < params.Length && p !in existing[..s] ==> params[p] == old(params[p])
    {
      var at := existing[s];
      assert existing[..s + 1] == existing[..s] + [at];
      assert at !in existing[..s];
      if Mergeable(params[at], injected[s]) {
        var result := MergeSet(params[at].ranges, injected[s].ranges);
        match result {
          case Malformed => return false;
          case Conflict =>
          case Merged(rs) =>
            var sorted := SortRanges(rs);
            params[at] := Table(sorted);
        }
      }
      s := s + 1;
    }
    ok := true;
  }

  // The injected ranges of one set, one after the other, into a copy of the game's table.
  method MergeSet(original: seq<Range>, injected: seq<Range>) returns (result: Merge)
    ensures result == MergeAll(original, injected)
  {
    var merged := original;
    var j := 0;
    while j < |injected|
      invariant j <= |injected| && MergeAll(original, injected[..j]) == Merged(merged)
    {
      var r := injected[j];
      assert injected[..j + 1][..j] == injected[..j];
      if r.count != 1 || r.arraySize != 1 {
        FailureStays(original, injected, j + 1);
        return Malformed;
      }
      var i := 0;
      while i < |merged| && !CoversBinding(merged[i], r.binding)
        invariant i <= |merged| && forall k :: 0 <= k < i ==> !CoversBinding(merged[k], r.binding)
      {
        i := i + 1;
      }
      FirstCoverIs(merged, r.binding, i);
      if i == |merged| {
        merged := merged + [r];
      } else if merged[i].kind != r.kind {
        FailureStays(original, injected, j + 1);
        return Conflict;
      } else {
        merged := merged[i := merged[i].(visibility := merged[i].visibility + r.visibility)];
      }
      j := j + 1;
    }
    assert injected[..|injected|] == injected;
    result := Merged(merged);
  }

  lemma FirstCoverIs(rs: seq<Range>, b: nat, i: nat)
    requires i <= |rs| && (i < |rs| ==> CoversBinding(rs[i], b))
    requires forall k :: 0 <= k < i ==> !CoversBinding(rs[k], b)
    ensures FirstCover(rs, b) == i
  {
  }

  lemma {:induction false} FailureStays(rs: seq<Range>, injected: seq<Range>, j: nat)
    requires j <= |injected| && !MergeAll(rs, injected[..j]).Merged?
    ensures MergeAll(rs, injected) == MergeAll(rs, injected[..j])
    decreases |injected| - j
  {
    if j == |injected| {
      assert injected[..j] == injected;
    } else {
      assert injected[..j + 1][..j] == injected[..j];
      FailureStays(rs, injected, j + 1);
    }
  }

  // A merged set: sorted, disjoint, covering exactly the game's bindings and the injected ones; every range
  // of the game is still there with its type and at least its visibility.
  lemma MergedSetIsUnion(original: Param, injected: Param, result: Param)
    requires Outcome(original, injected, result)
    requires original.Table? && injected.Table? && injected.ranges != []
    requires AllSimple(injected.ranges) && Disjoint(original.ranges)
    requires !ClashesWithTable(original.ranges, injected.ranges) && !ClashesWithin(injected.ranges)
    ensures result.Table? && SortedByBinding(result.ranges) && Disjoint(result.ranges)
    ensures forall b: nat :: CoverCount(result.ranges, b) > 0 <==>
                               CoverCount(original.ranges, b) > 0 || Injects(injected.ranges, b)
    ensures forall r <- original.ranges :: exists r' :: r' in result.ranges && Grown(r, r')
  {
    hide CoverCount, MergeAll, SortedByBinding, Simple;
    NeverMalformed(original.ranges, injected.ranges);
    ConflictExactly(original.ranges, injected.ranges);
    var rs := MergeAll(original.ranges, injected.ranges).ranges;
    forall b: nat
      ensures CoverCount(result.ranges, b) <= 1
      ensures CoverCount(result.ranges, b) > 0 <==> CoverCount(original.ranges, b) > 0 || Injects(injected.ranges, b)
    {
      MergeCoversUnion(original.ranges, injected.ranges, b);
      CoverOfPermutation(result.ranges, rs, b);
    }
    MergeKeepsOriginals(original.ranges, injected.ranges);
    forall r | r in original.ranges ensures exists r' :: r' in result.ranges && Grown(r, r') {
      var i :| 0 <= i < |original.ranges| && original.ranges[i] == r;
      assert rs[i] in multiset(result.ranges);
      assert Grown(r, rs[i]);
    }
  }

  // A set with a clash keeps the game's table.
  lemma ClashKeepsTable(original: Param, injected: Param, result: Param)
    requires Outcome(original, injected, result)
    requires original.Table? && injected.Table? && injected.ranges != []
    requires AllSimple(injected.ranges) && Disjoint(original.ranges)
    requires ClashesWithTable(original.ranges, injected.ranges) || ClashesWithin(injected.ranges)
    ensures result == original
  {
    hide Disjoint, MergeAll;
    ConflictExactly(original.ranges, injected.ranges);
  }
}
