// Packing the view bindings of custom shaders into descriptor ranges, where each ends up in the pipeline
// layout, and delivering descriptors in runs. For devices other than Vulkan.
module DescriptorPacking {
  import DivMod
  import Sorting

  // A shader's register; `kind` is the descriptor type.
  datatype View = View(kind: nat, slot: nat, space: nat)

  // `count` registers from `register` on, at bindings from `binding` on.
  datatype Range = Range(kind: nat, space: nat, register: nat, count: nat, binding: nat)

  predicate InRange(r: Range, v: View) {
    r.kind == v.kind && r.space == v.space && r.register <= v.slot < r.register + r.count
  }

  // The first range of a view's kind and space.
  function RangeOf(rs: seq<Range>, v: View): (i: nat)
    ensures i <= |rs|
    ensures i < |rs| ==> rs[i].kind == v.kind && rs[i].space == v.space
    ensures forall j :: 0 <= j < i ==> !(rs[j].kind == v.kind && rs[j].space == v.space)
  {
    if rs == [] then 0
    else
      var i := RangeOf(rs[..|rs| - 1], v);
      var last := rs[|rs| - 1];
      if i < |rs| - 1 || (last.kind == v.kind && last.space == v.space) then i else |rs|
  }

  // A range widened to hold one more register.
  function Widened(r: Range, v: View): Range
    requires r.count > 0
  {
    var low := DivMod.Min(r.register, v.slot);
    r.(register := low, count := DivMod.Max(r.register + r.count - 1, v.slot) - low + 1)
  }

  predicate Packed(rs: seq<Range>) {
    && (forall i :: 0 <= i < |rs| ==> rs[i].count > 0)
    && (forall i, j :: 0 <= i < j < |rs| ==> (rs[i].kind, rs[i].space) != (rs[j].kind, rs[j].space))
  }

  function AddView(rs: seq<Range>, v: View): (r: seq<Range>)
    requires Packed(rs)
    ensures Packed(r)
  {
    var i := RangeOf(rs, v);
    if i == |rs| then rs + [Range(v.kind, v.space, v.slot, 1, 0)] else rs[i := Widened(rs[i], v)]
  }

  function Hulls(views: seq<View>): (rs: seq<Range>)
    ensures Packed(rs)
  {
    if views == [] then [] else AddView(Hulls(views[..|views| - 1]), views[|views| - 1])
  }

  // ---- The ranges are the register hulls of each kind and space ----

  ghost predicate Contains(rs: seq<Range>, v: View) {
    exists i :: 0 <= i < |rs| && InRange(rs[i], v)
  }

  lemma {:induction false} ViewsContained(views: seq<View>, k: nat)
    requires k < |views|
    ensures Contains(Hulls(views), views[k])
    decreases |views|
  {
    var n := |views| - 1;
    var rs := Hulls(views[..n]);
    var i := RangeOf(rs, views[n]);
    if k == n {
      if i == |rs| {
        assert InRange((rs + [Range(views[n].kind, views[n].space, views[n].slot, 1, 0)])[|rs|], views[n]);
      } else {
        assert InRange(rs[i := Widened(rs[i], views[n])][i], views[n]);
      }
    } else {
      ViewsContained(views[..n], k);
      var j :| 0 <= j < |rs| && InRange(rs[j], views[..n][k]);
      assert InRange(Hulls(views)[j], views[k]);
    }
  }

  // Each range begins and ends at a register some view uses.
  ghost predicate Tight(r: Range, views: seq<View>) {
    && r.count > 0
    && View(r.kind, r.register, r.space) in views
    && View(r.kind, r.register + r.count - 1, r.space) in views
  }

  lemma {:induction false} RangesTight(views: seq<View>, i: nat)
    requires i < |Hulls(views)|
    ensures Tight(Hulls(views)[i], views)
    decreases |views|
  {
    var n := |views| - 1;
    var front, v := views[..n], views[n];
    var rs := Hulls(front);
    assert views == front + [v];
    if i < |rs| { RangesTight(front, i); }
  }

  // OnInitDevice: one pass over all view bindings, then ordering, then bindings one after the other.
  method PackRanges(views: seq<View>) returns (rs: seq<Range>)
    ensures Packed(rs) && Consecutive(rs) && Sorting.Sorted(rs, RangeBefore)
    ensures forall v :: Contains(rs, v) <==> Contains(Hulls(views), v)
    ensures forall v <- views :: Contains(rs, v)
    ensures forall i :: 0 <= i < |rs| ==> Tight(rs[i], views)
  {
    hide Packed, Tight, Contains;
    var ranges := HullRanges(views);
    var sorted := Sorting.Sort(ranges, RangeBefore);
    SortedSame(ranges, sorted);
    rs := NumberBindings(sorted);
    NumberedSame(sorted, rs);
    NumberedSorted(sorted, rs);
    forall v | v in views ensures Contains(ranges, v) {
      var k :| 0 <= k < |views| && views[k] == v;
      ViewsContained(views, k);
    }
    forall i | 0 <= i < |rs| ensures Tight(rs[i], views) {
      SortedTight(views, sorted, i);
      NumberedTight(sorted[i], rs[i], views);
    }
  }

  method HullRanges(views: seq<View>) returns (rs: seq<Range>)
    ensures rs == Hulls(views)
  {
    hide Hulls, RangeOf, Packed;
    rs := [];
    var k := 0;
    NoHulls();
    while k < |views|
      invariant k <= |views| && rs == Hulls(views[..k])
    {
      HullsNext(views, k);
      var v := views[k];
      var i := FindRange(rs, v);
      if i < |rs| { CountPositive(rs, i); }
      if i == |rs| {
        rs := rs + [Range(v.kind, v.space, v.slot, 1, 0)];
      } else {
        var low, high := DivMod.Min(rs[i].register, v.slot), DivMod.Max(rs[i].register + rs[i].count - 1, v.slot);
        rs := rs[i := rs[i].(register := low, count := high - low + 1)];
      }
      k := k + 1;
    }
    assert views[..|views|] == views;
  }

  lemma NoHulls()
    ensures Hulls([]) == []
  {
  }

  lemma HullsNext(views: seq<View>, k: nat)
    requires k < |views|
    ensures Packed(Hulls(views[..k])) && Hulls(views[..k + 1]) == AddView(Hulls(views[..k]), views[k])
  {
    assert views[..k + 1][..k] == views[..k];
  }

  lemma CountPositive(rs: seq<Range>, i: nat)
    requires Packed(rs) && i < |rs|
    ensures rs[i].count > 0
  {
  }

  method FindRange(rs: seq<Range>, v: View) returns (i: nat)
    ensures i == RangeOf(rs, v)
  {
    i := 0;
    while i < |rs| && !(rs[i].kind == v.kind && rs[i].space == v.space)
      invariant i <= |rs| && forall j :: 0 <= j < i ==> !(rs[j].kind == v.kind && rs[j].space == v.space)
    {
      i := i + 1;
    }
    RangeOfIs(rs, v, i);
  }

  lemma RangeOfIs(rs: seq<Range>, v: View, i: nat)
    requires i <= |rs| && (i < |rs| ==> rs[i].kind == v.kind && rs[i].space == v.space)
    requires forall j :: 0 <= j < i ==> !(rs[j].kind == v.kind && rs[j].space == v.space)
    ensures RangeOf(rs, v) == i
  {
  }

  predicate RangeBefore(a: Range, b: Range) {
    if a.kind != b.kind then a.kind < b.kind
    else if a.space != b.space then a.space < b.space
    else a.register <= b.register
  }

  // Bindings follow one another without gaps from 0.
  ghost predicate Consecutive(rs: seq<Range>) {
    && (rs != [] ==> rs[0].binding == 0)
    && (forall i :: 0 < i < |rs| ==> rs[i].binding == rs[i - 1].binding + rs[i - 1].count)
  }

  method NumberBindings(rs: seq<Range>) returns (r: seq<Range>)
    ensures |r| == |rs| && Consecutive(r)
    ensures forall i :: 0 <= i < |rs| ==> r[i] == rs[i].(binding := r[i].binding)
  {
    r := [];
    var binding := 0;
    var i := 0;
    while i < |rs|
      invariant i <= |rs| && |r| == i && Consecutive(r)
      invariant binding == if i == 0 then 0 else r[i - 1].binding + r[i - 1].count
      invariant forall k :: 0 <= k < i ==> r[k] == rs[k].(binding := r[k].binding)
    {
      r := r + [rs[i].(binding := binding)];
      binding := binding + rs[i].count;
      i := i + 1;
    }
  }

  // Ordering keeps what the ranges contain and that kinds and spaces are distinct.
  lemma SortedSame(rs: seq<Range>, sorted: seq<Range>)
    requires multiset(sorted) == multiset(rs) && Packed(rs)
    ensures Packed(sorted) && forall v :: Contains(sorted, v) <==> Contains(rs, v)
  {
    hide InRange;
    forall i | 0 <= i < |sorted| ensures sorted[i].count > 0 {
      assert sorted[i] in multiset(rs);
    }
    forall i, j | 0 <= i < j < |sorted| ensures (sorted[i].kind, sorted[i].space) != (sorted[j].kind, sorted[j].space) {
      PermutedDistinct(rs, sorted, i, j);
    }
    forall v ensures Contains(sorted, v) <==> Contains(rs, v) {
      if Contains(sorted, v) {
        var i :| 0 <= i < |sorted| && InRange(sorted[i], v);
        assert sorted[i] in multiset(rs);
      }
      if Contains(rs, v) {
        var i :| 0 <= i < |rs| && InRange(rs[i], v);
        assert rs[i] in multiset(sorted);
      }
    }
  }

  lemma PermutedDistinct(rs: seq<Range>, sorted: seq<Range>, i: nat, j: nat)
    requires multiset(sorted) == multiset(rs) && Packed(rs) && i < j < |sorted|
    ensures (sorted[i].kind, sorted[i].space) != (sorted[j].kind, sorted[j].space)
  {
    var a, b := sorted[i], sorted[j];
    assert a in multiset(rs) && b in multiset(rs);
    if a == b {
      assert sorted == sorted[..j] + [b] + sorted[j + 1..];
      assert sorted[..j][i] == a;
      assert multiset(sorted)[a] >= 2;
      OnceInPacked(rs, a);
    } else {
      var k :| 0 <= k < |rs| && rs[k] == a;
      var l :| 0 <= l < |rs| && rs[l] == b;
      assert k < l || l < k;
    }
  }

  lemma {:induction false} OnceInPacked(rs: seq<Range>, r: Range)
    requires Packed(rs)
    ensures multiset(rs)[r] <= 1
    decreases |rs|
  {
    if rs != [] {
      var front, last := rs[..|rs| - 1], rs[|rs| - 1];
      assert rs == front + [last];
      OnceInPacked(front, r);
      if r == last { assert r !in front; }
    }
  }

  lemma SortedTight(views: seq<View>, sorted: seq<Range>, i: nat)
    requires multiset(sorted) == multiset(Hulls(views)) && i < |sorted|
    ensures Tight(sorted[i], views)
  {
    assert sorted[i] in multiset(Hulls(views));
    var k :| 0 <= k < |Hulls(views)| && Hulls(views)[k] == sorted[i];
    RangesTight(views, k);
  }

  lemma NumberedTight(r: Range, r': Range, views: seq<View>)
    requires r' == r.(binding := r'.binding) && Tight(r, views)
    ensures Tight(r', views)
  {
  }

  lemma NumberedSame(rs: seq<Range>, rs': seq<Range>)
    requires |rs| == |rs'| && Packed(rs) && forall i :: 0 <= i < |rs| ==> rs'[i] == rs[i].(binding := rs'[i].binding)
    ensures Packed(rs') && forall v :: Contains(rs', v) <==> Contains(rs, v)
  {
    forall v ensures Contains(rs', v) <==> Contains(rs, v) {
      if Contains(rs', v) {
        var i :| 0 <= i < |rs'| && InRange(rs'[i], v);
        assert InRange(rs[i], v);
      }
      if Contains(rs, v) {
        var i :| 0 <= i < |rs| && InRange(rs[i], v);
        assert InRange(rs'[i], v);
      }
    }
  }

  // ---- Where each register ends up ----

  // The layout parameter and the binding of a register.
  type Locations = map<View, (nat, nat)>

  lemma NumberedSorted(rs: seq<Range>, rs': seq<Range>)
    requires |rs| == |rs'| && Sorting.Sorted(rs, RangeBefore)
    requires forall i :: 0 <= i < |rs| ==> rs'[i] == rs[i].(binding := rs'[i].binding)
    ensures Sorting.Sorted(rs', RangeBefore)
  {
  }

  // OnInitPipelineLayout: all registers of all ranges.
  method Locate(rs: seq<Range>, param: nat) returns (m: Locations)
    requires Packed(rs)
    ensures Located(m, rs, param)
  {
    hide Packed, Contains;
    m := map[];
    var i := 0;
    NothingLocated(rs, param);
    while i < |rs|
      invariant i <= |rs| && Located(m, rs[..i], param)
    {
      m := LocateRange(m, rs, i, param);
      i := i + 1;
    }
    assert rs[..|rs|] == rs;
  }

  lemma NothingLocated(rs: seq<Range>, param: nat)
    ensures Located(map[], rs[..0], param)
  {
  }

  method LocateRange(before: Locations, rs: seq<Range>, i: nat, param: nat) returns (m: Locations)
    requires Packed(rs) && i < |rs| && Located(before, rs[..i], param)
    ensures Located(m, rs[..i + 1], param)
  {
    hide Packed, Located, Contains;
    m := before;
    var offset := 0;
    var r := rs[i];
    while offset < r.count
      invariant offset <= r.count
      invariant forall v :: v in m <==> v in before || (InRange(r, v) && v.slot < r.register + offset)
      invariant forall v :: v in before ==> m[v] == before[v]
      invariant forall v :: InRange(r, v) && v.slot < r.register + offset ==>
                  m[v] == (param, r.binding + (v.slot - r.register))
    {
      var v := View(r.kind, r.register + offset, r.space);
      NotBefore(before, rs, i, param, v);
      m := m[v := (param, r.binding + offset)];
      offset := offset + 1;
    }
    LocatedNext(before, m, rs, i, param);
  }

  lemma LocatedNext(before: Locations, m: Locations, rs: seq<Range>, i: nat, param: nat)
    requires i < |rs| && Located(before, rs[..i], param)
    requires forall v :: v in m <==> v in before || InRange(rs[i], v)
    requires forall v :: v in before ==> m[v] == before[v]
    requires forall v :: InRange(rs[i], v) ==> m[v] == (param, rs[i].binding + (v.slot - rs[i].register))
    ensures Located(m, rs[..i + 1], param)
  {
    hide InRange, Contains;
    ContainsNext(rs, i);
    forall k, v | 0 <= k < i + 1 && InRange(rs[..i + 1][k], v)
      ensures v in m && m[v] == (param, rs[k].binding + (v.slot - rs[k].register))
    {
      if k < i { BeforeStays(before, rs, i, param, k, v); }
    }
  }

  lemma BeforeStays(before: Locations, rs: seq<Range>, i: nat, param: nat, k: nat, v: View)
    requires k < i <= |rs| && Located(before, rs[..i], param) && InRange(rs[k], v)
    ensures v in before && before[v] == (param, rs[k].binding + (v.slot - rs[k].register))
  {
    hide InRange;
    assert rs[..i][k] == rs[k];
    assert Contains(rs[..i], v);
  }

  lemma NotBefore(before: Locations, rs: seq<Range>, i: nat, param: nat, v: View)
    requires Packed(rs) && i < |rs| && Located(before, rs[..i], param) && InRange(rs[i], v)
    ensures v !in before
  {
    forall k | 0 <= k < i ensures !InRange(rs[..i][k], v) {
      assert (rs[k].kind, rs[k].space) != (rs[i].kind, rs[i].space);
    }
  }

  lemma ContainsNext(rs: seq<Range>, i: nat)
    requires i < |rs|
    ensures forall v :: Contains(rs[..i + 1], v) <==> Contains(rs[..i], v) || InRange(rs[i], v)
  {
    hide InRange;
    forall v ensures Contains(rs[..i + 1], v) <==> Contains(rs[..i], v) || InRange(rs[i], v) {
      if Contains(rs[..i], v) {
        var k :| 0 <= k < i && InRange(rs[..i][k], v);
        assert InRange(rs[..i + 1][k], v);
      }
      if InRange(rs[i], v) { assert InRange(rs[..i + 1][i], v); }
      if Contains(rs[..i + 1], v) && !InRange(rs[i], v) {
        var k :| 0 <= k < i + 1 && InRange(rs[..i + 1][k], v);
        assert InRange(rs[..i][k], v);
      }
    }
  }

  ghost predicate Located(m: Locations, rs: seq<Range>, param: nat) {
    && (forall v :: v in m <==> Contains(rs, v))
    && (forall k, v :: 0 <= k < |rs| && InRange(rs[k], v) ==>
          m[v] == (param, rs[k].binding + (v.slot - rs[k].register)))
  }

  // The end of the first i ranges' bindings.
  function BindingEnd(rs: seq<Range>, i: nat): nat
    requires i <= |rs|
  {
    if i == 0 then 0 else rs[i - 1].binding + rs[i - 1].count
  }

  lemma {:induction false} LaterBinding(rs: seq<Range>, i: nat, j: nat)
    requires Consecutive(rs) && i < j < |rs|
    ensures rs[i].binding + rs[i].count <= rs[j].binding
    decreases j
  {
    if i < j - 1 { LaterBinding(rs, i, j - 1); }
  }

  // Different registers have different locations.
  lemma LocationsInjective(m: Locations, rs: seq<Range>, param: nat, v: View, w: View)
    requires Located(m, rs, param) && Consecutive(rs) && v in m && w in m && m[v] == m[w]
    ensures v == w
  {
    var i :| 0 <= i < |rs| && InRange(rs[i], v);
    var j :| 0 <= j < |rs| && InRange(rs[j], w);
    if i < j { LaterBinding(rs, i, j); }
    if j < i { LaterBinding(rs, j, i); }
  }

  lemma {:induction false} RangeOfBinding(rs: seq<Range>, n: nat, b: nat) returns (i: nat)
    requires Consecutive(rs) && Packed(rs) && n <= |rs| && b < BindingEnd(rs, n)
    ensures i < n && rs[i].binding <= b < rs[i].binding + rs[i].count
    decreases n
  {
    if rs[n - 1].binding <= b {
      i := n - 1;
    } else {
      i := RangeOfBinding(rs, n - 1, b);
    }
  }

  // The bindings used are exactly 0 up to the total count: the ranges partition them.
  lemma BindingInUse(m: Locations, rs: seq<Range>, param: nat, b: nat)
    requires Located(m, rs, param) && Consecutive(rs) && Packed(rs) && b < BindingEnd(rs, |rs|)
    ensures exists v :: v in m && m[v] == (param, b)
  {
    var i := RangeOfBinding(rs, |rs|, b);
    hide Consecutive, Packed;
    var v := View(rs[i].kind, rs[i].register + (b - rs[i].binding), rs[i].space);
    assert InRange(rs[i], v);
    assert m[v] == (param, b);
  }

  lemma BindingBelowEnd(m: Locations, rs: seq<Range>, param: nat, v: View)
    requires Located(m, rs, param) && Consecutive(rs) && v in m
    ensures m[v].1 < BindingEnd(rs, |rs|)
  {
    var i :| 0 <= i < |rs| && InRange(rs[i], v);
    if i < |rs| - 1 { LaterBinding(rs, i, |rs| - 1); }
  }

  lemma LocationsFillBindings(m: Locations, rs: seq<Range>, param: nat, b: nat)
    requires Located(m, rs, param) && Consecutive(rs) && Packed(rs)
    ensures b < BindingEnd(rs, |rs|) <==> exists v :: v in m && m[v] == (param, b)
  {
    hide Located, Consecutive, Packed, BindingEnd;
    if b < BindingEnd(rs, |rs|) { BindingInUse(m, rs, param, b); }
    if v :| v in m && m[v] == (param, b) { BindingBelowEnd(m, rs, param, v); }
  }

  // ---- Delivering descriptors in runs ----

  const CONSTANT_BUFFER := 0

  // A descriptor waiting for delivery; constant buffers use `constants`, other kinds `view`.
  datatype Pending = Pending(param: nat, binding: nat, kind: nat, view: nat, constants: nat)

  // One update of consecutive bindings.
  datatype Update = Update(param: nat, binding: nat, kind: nat, descriptors: seq<nat>)

  // What arrives where.
  datatype Delivery = Delivery(param: nat, binding: nat, kind: nat, descriptor: nat)

  function Wanted(p: Pending): Delivery {
    Delivery(p.param, p.binding, p.kind, if p.kind == CONSTANT_BUFFER then p.constants else p.view)
  }

  function Arrivals(u: Update): (ds: seq<Delivery>)
    ensures |ds| == |u.descriptors|
  {
    seq(|u.descriptors|, k requires 0 <= k < |u.descriptors| =>
      Delivery(u.param, u.binding + k, u.kind, u.descriptors[k]))
  }

  // Two updates that could have gone out as one.
  predicate Continues(u: Update, next: Update) {
    next.param == u.param && next.kind == u.kind && next.binding == u.binding + |u.descriptors|
  }

  // A descriptor that does not carry an update on.
  predicate Breaks(u: Update, p: Pending) {
    p.param != u.param || p.kind != u.kind || p.binding != u.binding + |u.descriptors|
  }

  ghost predicate Maximal(us: seq<Update>) {
    forall k :: 0 < k < |us| ==> !Continues(us[k - 1], us[k])
  }

  function AllArrivals(us: seq<Update>): seq<Delivery> {
    if us == [] then [] else AllArrivals(us[..|us| - 1]) + Arrivals(us[|us| - 1])
  }

  function AllWanted(ps: seq<Pending>): (ds: seq<Delivery>)
    ensures |ds| == |ps|
  {
    seq(|ps|, k requires 0 <= k < |ps| => Wanted(ps[k]))
  }

  predicate PendingBefore(a: Pending, b: Pending) {
    if a.param != b.param then a.param < b.param
    else if a.kind != b.kind then a.kind < b.kind
    else a.binding <= b.binding
  }

  // Of one descriptor per view, as the shader's callbacks return them; 0 is null.
  datatype Bound = Bound(view: View, resource: nat, constants: nat)

  class DescriptorPusher {
    // Reused from draw to draw, with whatever earlier ones left in them.
    var pending: seq<Pending>
    var views: seq<nat>
    var constants: seq<nat>

    constructor ()
    {
      pending, views, constants := [], [], [];
    }

    // Nothing is delivered when a location or a descriptor is missing; otherwise every descriptor arrives at
    // its own location, exactly once, and nothing else does.
    method PushDescriptors(bound: seq<Bound>, locations: Locations) returns (missing: bool, updates: seq<Update>)
      modifies this
      ensures missing <==>
              exists k :: 0 <= k < |bound|
                          && (bound[k].view !in locations || (bound[k].resource == 0 && bound[k].constants == 0))
      ensures missing ==> updates == []
      ensures !missing ==> multiset(AllArrivals(updates)) == multiset(Due(bound, locations))
      ensures Maximal(updates)
    {
      updates := [];
      var count := 0;
      if |pending| < |bound| { pending := pending + seq(|bound| - |pending|, _ => Pending(0, 0, 0, 0, 0)); }
      while count < |bound|
        invariant count <= |bound| <= |pending|
        invariant forall k :: 0 <= k < count ==>
                    bound[k].view in locations && !(bound[k].resource == 0 && bound[k].constants == 0)
        invariant forall k :: 0 <= k < count ==> pending[k] == Request(bound[k], locations)
      {
        var b := bound[count];
        if b.view !in locations || (b.resource == 0 && b.constants == 0) { return true, []; }
        pending := pending[count := Request(b, locations)];
        count := count + 1;
      }
      assert pending[..count] == Requests(bound, locations);
      var sorted := Sorting.Sort(pending[..count], PendingBefore);
      assert |sorted| == |multiset(sorted)| == |pending[..count]|;
      pending := sorted + pending[count..];
      WantedPermuted(Requests(bound, locations), sorted);
      if |views| < count { views, constants := seq(count, _ => 0), seq(count, _ => 0); }
      if |constants| < count { constants := seq(count, _ => 0); }
      updates := SendRuns(sorted);
      RequestsAreDue(bound, locations);
      missing := false;
    }

    // From the layout to a draw: the bindings of all shaders are packed and located, and the descriptors of some
    // of them are pushed. Different registers get different locations, and only a null descriptor keeps the draw
    // from getting every descriptor at its own.
    method PackAndPush(declared: seq<View>, param: nat, bound: seq<Bound>)
      returns (locations: Locations, missing: bool, updates: seq<Update>)
      requires forall b <- bound :: b.view in declared
      modifies this
      ensures forall b <- bound :: b.view in locations
      ensures forall v, w :: v in locations && w in locations && locations[v] == locations[w] ==> v == w
      ensures missing <==> exists k :: 0 <= k < |bound| && bound[k].resource == 0 && bound[k].constants == 0
      ensures missing ==> updates == []
      ensures !missing ==> multiset(AllArrivals(updates)) == multiset(Due(bound, locations))
      ensures Maximal(updates)
    {
      hide *;
      var rs := PackRanges(declared);
      locations := Locate(rs, param);
      NoneMissing(declared, rs, locations, param, bound);
      forall v, w | v in locations && w in locations && locations[v] == locations[w] ensures v == w {
        LocationsInjective(locations, rs, param, v, w);
      }
      missing, updates := PushDescriptors(bound, locations);
    }

    // Consecutive bindings of one parameter and kind go out together.
    method SendRuns(sorted: seq<Pending>) returns (updates: seq<Update>)
      requires |sorted| <= |views| && |sorted| <= |constants|
      modifies this`views, this`constants
      ensures AllArrivals(updates) == AllWanted(sorted) && Maximal(updates)
    {
      updates := [];
      var begin := 0;
      while begin < |sorted|
        invariant begin <= |sorted| && |sorted| <= |views| && |sorted| <= |constants|
        invariant AllArrivals(updates) == AllWanted(sorted[..begin]) && Maximal(updates)
        invariant updates != [] && begin < |sorted| ==> Breaks(updates[|updates| - 1], sorted[begin])
      {
        var u := FillRun(sorted[begin..]);
        var n := |u.descriptors|;
        assert sorted[begin..][..n] == sorted[begin..begin + n];
        WantedJoined(sorted, begin, n);
        ArrivalsLast(updates, u);
        updates := updates + [u];
        begin := begin + n;
      }
      assert sorted[..|sorted|] == sorted;
    }

    // The longest run of consecutive bindings at the front, gathered in the reused vectors.
    method FillRun(rest: seq<Pending>) returns (u: Update)
      requires 0 < |rest| <= |views| && |rest| <= |constants|
      modifies this`views, this`constants
      ensures |views| == old(|views|) && |constants| == old(|constants|)
      ensures 0 < |u.descriptors| <= |rest| && Arrivals(u) == AllWanted(rest[..|u.descriptors|])
      ensures u.param == rest[0].param && u.kind == rest[0].kind && u.binding == rest[0].binding
      ensures |u.descriptors| < |rest| ==> Breaks(u, rest[|u.descriptors|])
    {
      var first := rest[0];
      views := views[0 := first.view];
      constants := constants[0 := first.constants];
      var n := 1;
      while n < |rest| && rest[n].param == first.param && rest[n].kind == first.kind
            && rest[n].binding == rest[n - 1].binding + 1
        invariant 1 <= n <= |rest| && |views| == old(|views|) && |constants| == old(|constants|)
        invariant forall k :: 0 <= k < n ==> views[k] == rest[k].view && constants[k] == rest[k].constants
        invariant forall k :: 0 <= k < n ==>
                    rest[k].param == first.param && rest[k].kind == first.kind && rest[k].binding == first.binding + k
      {
        views := views[n := rest[n].view];
        constants := constants[n := rest[n].constants];
        n := n + 1;
      }
      u := Update(first.param, first.binding, first.kind,
                  if first.kind == CONSTANT_BUFFER then constants[..n] else views[..n]);
      assert Arrivals(u) == AllWanted(rest[..n]);
    }
  }

  // Of each descriptor: its location, its kind, and the constant buffer for that kind, else the resource.
  function Due(bound: seq<Bound>, locations: Locations): seq<Delivery>
    requires forall k :: 0 <= k < |bound| ==> bound[k].view in locations
  {
    seq(|bound|, k requires 0 <= k < |bound| =>
      var (param, binding) := locations[bound[k].view];
      Delivery(param, binding, bound[k].view.kind,
               if bound[k].view.kind == CONSTANT_BUFFER then bound[k].constants else bound[k].resource))
  }

  lemma RequestsAreDue(bound: seq<Bound>, locations: Locations)
    requires forall k :: 0 <= k < |bound| ==> bound[k].view in locations
    ensures AllWanted(Requests(bound, locations)) == Due(bound, locations)
  {
  }

  function Request(b: Bound, locations: Locations): Pending
    requires b.view in locations
  {
    Pending(locations[b.view].0, locations[b.view].1, b.view.kind, b.resource, b.constants)
  }

  function Requests(bound: seq<Bound>, locations: Locations): seq<Pending>
    requires forall k :: 0 <= k < |bound| ==> bound[k].view in locations
  {
    seq(|bound|, k requires 0 <= k < |bound| => Request(bound[k], locations))
  }

  lemma ArrivalsLast(us: seq<Update>, u: Update)
    ensures AllArrivals(us + [u]) == AllArrivals(us) + Arrivals(u)
  {
    assert (us + [u])[..|us|] == us;
  }

  lemma WantedJoined(ps: seq<Pending>, begin: nat, n: nat)
    requires begin + n <= |ps|
    ensures AllWanted(ps[..begin + n]) == AllWanted(ps[..begin]) + AllWanted(ps[begin..begin + n])
  {
  }

  lemma {:induction false} WantedPermuted(a: seq<Pending>, b: seq<Pending>)
    requires multiset(a) == multiset(b)
    ensures multiset(AllWanted(a)) == multiset(AllWanted(b))
    decreases |a|
  {
    if a == [] {
      assert |b| == |multiset(b)| == 0;
    } else {
      var n := |a| - 1;
      var k := Sorting.WithoutOne(a, b);
      WantedPermuted(a[..n], b[..k] + b[k + 1..]);
      WantedSplit(a, n);
      WantedSplit(b, k);
      assert a[..n] + a[n + 1..] == a[..n];
    }
  }

  lemma WantedSplit(ps: seq<Pending>, k: nat)
    requires k < |ps|
    ensures multiset(AllWanted(ps)) == multiset(AllWanted(ps[..k] + ps[k + 1..])) + multiset{Wanted(ps[k])}
  {
    assert AllWanted(ps) == AllWanted(ps[..k]) + [Wanted(ps[k])] + AllWanted(ps[k + 1..]);
    assert AllWanted(ps[..k] + ps[k + 1..]) == AllWanted(ps[..k]) + AllWanted(ps[k + 1..]);
  }

  // Packing the bindings of all shaders leaves no descriptor of any shader without a location.
  lemma NoneMissing(views: seq<View>, rs: seq<Range>, locations: Locations, param: nat, bound: seq<Bound>)
    requires (forall v <- views :: Contains(rs, v)) && Located(locations, rs, param)
    requires forall b <- bound :: b.view in views
    ensures forall b <- bound :: b.view in locations
  {
    hide Contains;
  }
}
