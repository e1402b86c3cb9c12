// Where the injected push constants of a Vulkan pipeline layout are placed, and how the place is recovered
// from the finished parameters when the layout was not cloned.
module PushConstants {
  import DivMod

  // Ranges are counted in dwords; `visibility` is the set of shader stage bits.
  datatype Param = Constants(binding: nat, count: nat, visibility: set<nat>) | DescriptorSet(id: nat)

  datatype Settings = Settings(
    slots: nat,                // the size of the injection
    alignment: nat,
    relevant: set<nat>,        // the stages that need the constants
    allowMultiple: bool,
    allowUndersized: bool
  )

  const BUDGET := 64

  function End(p: Param): nat {
    if p.Constants? then p.binding + p.count else 0
  }

  // What one pass over the parameters finds: how many push-constant ranges there are and where the last one
  // ends, whether one serves all relevant stages, the stages not served, and the range to expand.
  datatype Scan = Scan(ranges: nat, end: nat, full: bool, unused: set<nat>, expand: int)

  function ScanTo(params: seq<Param>, relevant: set<nat>, n: nat): Scan
    requires n <= |params|
  {
    if n == 0 then Scan(0, 0, false, relevant, -1)
    else
      var s, p := ScanTo(params, relevant, n - 1), params[n - 1];
      if p.DescriptorSet? then s
      else
        var s' := s.(ranges := s.ranges + 1, end := DivMod.Max(s.end, End(p)));
        if s.full then s'
        else
          s'.(full := relevant <= p.visibility,
              unused := s.unused - p.visibility,
              expand := if relevant <= p.visibility || p.visibility * relevant != {} then n - 1 else s.expand)
  }

  function AlignUp(offset: nat, alignment: nat): (r: nat)
    ensures offset <= r
  {
    if alignment == 0 || offset % alignment == 0 then offset else offset + (alignment - offset % alignment)
  }

  // Either the layout is left as it is, or it gets new parameters; `offset` is where the injection starts.
  datatype Creation = Unchanged | Created(params: seq<Param>, index: nat, offset: nat)

  // OnCreatePipelineLayout for Vulkan; `sets` are descriptor sets to append.
  method OnCreatePipelineLayout(params: seq<Param>, settings: Settings, sets: seq<Param>) returns (c: Creation)
    requires settings.slots > 0
    ensures c == Creating(params, settings, sets)
  {
    var ranges, end, full, unused, expand := 0, 0, false, settings.relevant, -1;
    var i := 0;
    while i < |params|
      invariant i <= |params| && Scan(ranges, end, full, unused, expand) == ScanTo(params, settings.relevant, i)
    {
      var p := params[i];
      if p.Constants? {
        ranges := ranges + 1;
        end := DivMod.Max(end, p.binding + p.count);
        if !full {
          full := settings.relevant <= p.visibility;
          unused := unused - p.visibility;
          if full || p.visibility * settings.relevant != {} { expand := i; }
        }
      }
      i := i + 1;
    }
    FullMeansExpand(params, settings.relevant, |params|);
    var expanding := expand != -1 && full;
    if ranges != 0 && !settings.allowMultiple && !expanding { return Unchanged; }
    var offset := AlignUp(end, settings.alignment);
    var cost := if settings.slots < BUDGET then settings.slots else BUDGET;
    if settings.slots > BUDGET && !settings.allowUndersized { return Unchanged; }
    if expanding {
      var p := params[expand];
      EndCovers(params, settings.relevant, |params|, expand);
      return Created(params[expand := p.(count := offset - p.binding + cost)] + sets, expand, offset);
    }
    return Created(params + [Constants(offset, cost, unused)] + sets, |params|, offset);
  }

  function Creating(params: seq<Param>, settings: Settings, sets: seq<Param>): Creation {
    var s := ScanTo(params, settings.relevant, |params|);
    if (s.ranges != 0 && !settings.allowMultiple && !s.full)
       || (settings.slots > BUDGET && !settings.allowUndersized)
    then Unchanged
    else
      var offset := AlignUp(s.end, settings.alignment);
      var cost := if settings.slots < BUDGET then settings.slots else BUDGET;
      FullMeansExpand(params, settings.relevant, |params|);
      if s.full then
        var p := params[s.expand];
        EndCovers(params, settings.relevant, |params|, s.expand);
        Created(params[s.expand := p.(count := offset - p.binding + cost)] + sets, s.expand, offset)
      else Created(params + [Constants(offset, cost, s.unused)] + sets, |params|, offset)
  }

  lemma {:induction false} FullMeansExpand(params: seq<Param>, relevant: set<nat>, n: nat)
    requires n <= |params|
    ensures var s := ScanTo(params, relevant, n);
            s.full ==> 0 <= s.expand < n && params[s.expand].Constants? && relevant <= params[s.expand].visibility
  {
    if n > 0 { FullMeansExpand(params, relevant, n - 1); }
  }

  // No range ends after the scanned end.
  lemma {:induction false} EndCovers(params: seq<Param>, relevant: set<nat>, n: nat, i: nat)
    requires i < n <= |params|
    ensures End(params[i]) <= ScanTo(params, relevant, n).end
  {
    if i < n - 1 { EndCovers(params, relevant, n - 1, i); }
  }

  // ---- Recovery from the finished parameters ----

  datatype Recovery = NotFound | Found(index: nat, offset: int)

  function MaxEnd(params: seq<Param>, n: nat): nat
    requires n <= |params|
  {
    if n == 0 then 0 else DivMod.Max(MaxEnd(params, n - 1), End(params[n - 1]))
  }

  // The range that the injection is taken to be in.
  predicate Candidate(p: Param, settings: Settings, end: nat) {
    p.Constants? && End(p) == end && p.count >= settings.slots && p.visibility * settings.relevant != {}
  }

  // OnInitPipelineLayout for Vulkan without cloning.
  method OnInitPipelineLayout(params: seq<Param>, settings: Settings) returns (r: Recovery)
    ensures r == Recovering(params, settings)
  {
    var end := 0;
    var i := 0;
    while i < |params|
      invariant i <= |params| && end == MaxEnd(params, i)
    {
      if params[i].Constants? { end := DivMod.Max(end, params[i].binding + params[i].count); }
      i := i + 1;
    }
    var index := -1;
    i := 0;
    while i < |params| && index == -1
      invariant i <= |params| && -1 <= index
      invariant if index == -1 then forall j :: 0 <= j < i ==> !Candidate(params[j], settings, end)
                else index < |params| && Candidate(params[index], settings, end)
                     && forall j :: 0 <= j < index ==> !Candidate(params[j], settings, end)
    {
      if Candidate(params[i], settings, end) { index := i; }
      i := i + 1;
    }
    FirstCandidateIs(params, settings, end, if index == -1 then |params| else index);
    if index == -1 { return NotFound; }
    var p := params[index];
    r := Found(index, if p.count > settings.slots then p.binding + p.count - settings.slots else p.binding);
  }

  function FirstCandidate(params: seq<Param>, settings: Settings, end: nat, i: nat): (k: nat)
    requires i <= |params|
    ensures i <= k <= |params| && (k < |params| ==> Candidate(params[k], settings, end))
    ensures forall j :: i <= j < k ==> !Candidate(params[j], settings, end)
    decreases |params| - i
  {
    if i == |params| || Candidate(params[i], settings, end) then i else FirstCandidate(params, settings, end, i + 1)
  }

  lemma FirstCandidateIs(params: seq<Param>, settings: Settings, end: nat, k: nat)
    requires k <= |params| && (k < |params| ==> Candidate(params[k], settings, end))
    requires forall j :: 0 <= j < k ==> !Candidate(params[j], settings, end)
    ensures FirstCandidate(params, settings, end, 0) == k
  {
  }

  function Recovering(params: seq<Param>, settings: Settings): Recovery {
    var end := MaxEnd(params, |params|);
    var i := FirstCandidate(params, settings, end, 0);
    if i == |params| then NotFound
    else
      var p := params[i];
      Found(i, if p.count > settings.slots then p.binding + p.count - settings.slots else p.binding)
  }

  // ---- What the placement guarantees ----

  lemma AlignedUp(offset: nat, alignment: nat)
    ensures alignment != 0 ==> AlignUp(offset, alignment) % alignment == 0
    ensures AlignUp(offset, alignment) < offset + DivMod.Max(alignment, 1)
  {
    if alignment != 0 && offset % alignment != 0 {
      DivMod.Fundamental(offset, alignment);
      DivMod.Distribute(alignment, offset / alignment, 1);
      DivMod.QuotientUnique(AlignUp(offset, alignment), alignment, offset / alignment + 1, 0);
    }
  }

  // The injected slots are aligned and overlap no push-constant range of the game, appended or expanded;
  // an expanded range keeps its start and its stages and ends with the injection.
  lemma PlacedApart(params: seq<Param>, settings: Settings, sets: seq<Param>)
    requires settings.slots > 0 && Creating(params, settings, sets).Created?
    ensures var c := Creating(params, settings, sets);
            && (settings.alignment != 0 ==> c.offset % settings.alignment == 0)
            && (forall i :: 0 <= i < |params| ==> End(params[i]) <= c.offset)
            && c.index < |c.params| && c.params[c.index].Constants?
            && End(c.params[c.index]) == c.offset + (if settings.slots < BUDGET then settings.slots else BUDGET)
            && (forall i :: 0 <= i < |params| && i != c.index ==> c.params[i] == params[i])
            && (c.index < |params| ==>
                  && params[c.index].Constants? && c.params[c.index].binding == params[c.index].binding
                  && settings.relevant <= c.params[c.index].visibility == params[c.index].visibility)
            && (c.index >= |params| ==> c.params[c.index].binding == c.offset)
  {
    FullMeansExpand(params, settings.relevant, |params|);
    var s := ScanTo(params, settings.relevant, |params|);
    AlignedUp(s.end, settings.alignment);
    forall i | 0 <= i < |params| ensures End(params[i]) <= s.end {
      EndCovers(params, settings.relevant, |params|, i);
    }
    hide ScanTo;
  }

  lemma {:induction false} MaxEndAt(params: seq<Param>, i: nat, n: nat)
    requires i < n <= |params| && forall j :: 0 <= j < n && j != i ==> End(params[j]) < End(params[i])
    ensures MaxEnd(params, n) == End(params[i])
  {
    if i < n - 1 {
      MaxEndAt(params, i, n - 1);
    } else {
      MaxEndBelow(params, i, End(params[i]));
    }
  }

  lemma {:induction false} MaxEndBelow(params: seq<Param>, n: nat, bound: nat)
    requires n <= |params| && forall j :: 0 <= j < n ==> End(params[j]) <= bound
    ensures MaxEnd(params, n) <= bound
  {
    if n > 0 { MaxEndBelow(params, n - 1, bound); }
  }

  // With the injection the only range at the end, recovery finds it or nothing.
  lemma OnlyCandidate(params: seq<Param>, settings: Settings, i: nat)
    requires i < |params| && params[i].Constants?
    requires forall j :: 0 <= j < |params| && j != i ==> End(params[j]) < End(params[i])
    ensures Recovering(params, settings) ==
            if params[i].count >= settings.slots && params[i].visibility * settings.relevant != {}
            then Found(i, params[i].binding + params[i].count - settings.slots) else NotFound
  {
    MaxEndAt(params, i, |params|);
    hide MaxEnd;
    var end := MaxEnd(params, |params|);
    forall j | 0 <= j < |params| && j != i ensures !Candidate(params[j], settings, end) {
    }
    if Candidate(params[i], settings, end) {
      FirstCandidateIs(params, settings, end, i);
    } else {
      FirstCandidateIs(params, settings, end, |params|);
    }
  }

  ghost predicate OnlySets(sets: seq<Param>) {
    forall i :: 0 <= i < |sets| ==> sets[i].DescriptorSet?
  }

  // A stage that needs the constants and that no range of the game serves.
  ghost predicate FreeStage(params: seq<Param>, relevant: set<nat>) {
    exists stage <- relevant :: forall p <- params :: p.Constants? ==> stage !in p.visibility
  }

  // Some range of the game serves all stages that need the constants.
  ghost predicate FullRange(params: seq<Param>, relevant: set<nat>) {
    exists p <- params :: p.Constants? && relevant <= p.visibility
  }

  lemma {:induction false} ScanFinds(params: seq<Param>, relevant: set<nat>, n: nat)
    requires n <= |params|
    ensures ScanTo(params, relevant, n).full <==> FullRange(params[..n], relevant)
    ensures !ScanTo(params, relevant, n).full ==>
              forall stage :: stage in ScanTo(params, relevant, n).unused <==>
                              stage in relevant && forall p <- params[..n] :: p.Constants? ==> stage !in p.visibility
  {
    if n > 0 {
      ScanFinds(params, relevant, n - 1);
      assert params[..n] == params[..n - 1] + [params[n - 1]];
    }
  }

  predicate Serves(p: Param, relevant: set<nat>) {
    p.Constants? && relevant <= p.visibility
  }

  // The relevant stages that no range of the game serves.
  function Unserved(params: seq<Param>, relevant: set<nat>): set<nat> {
    set stage | stage in relevant && forall p <- params :: p.Constants? ==> stage !in p.visibility
  }

  lemma {:induction false} ScanDetails(params: seq<Param>, relevant: set<nat>, n: nat)
    requires n <= |params|
    ensures var s := ScanTo(params, relevant, n);
            && (s.ranges == 0 <==> forall i :: 0 <= i < n ==> !params[i].Constants?)
            && (s.full ==> 0 <= s.expand < n && Serves(params[s.expand], relevant)
                           && forall i :: 0 <= i < s.expand ==> !Serves(params[i], relevant))
            && (!s.full ==> forall i :: 0 <= i < n ==> !Serves(params[i], relevant))
            && (s.end > 0 ==> exists i :: 0 <= i < n && End(params[i]) == s.end)
  {
    if n > 0 { ScanDetails(params, relevant, n - 1); }
  }

  // The layout is extended exactly if it has no push constants yet, or may have more ranges, or one range serves all
  // relevant stages; and the slots fit the budget or may be cut.
  lemma CreatedExactly(params: seq<Param>, settings: Settings, sets: seq<Param>)
    ensures Creating(params, settings, sets).Created? <==>
            && ((forall p <- params :: !p.Constants?) || settings.allowMultiple || FullRange(params, settings.relevant))
            && (settings.slots <= 64 || settings.allowUndersized)
  {
    ScanDetails(params, settings.relevant, |params|);
    ScanFinds(params, settings.relevant, |params|);
    assert params[..|params|] == params;
    hide ScanTo;
  }

  // The offset is the first aligned one at which no range of the game still goes on.
  ghost predicate FirstFree(params: seq<Param>, alignment: nat, offset: nat) {
    && (alignment != 0 ==> offset % alignment == 0)
    && (forall i :: 0 <= i < |params| ==> End(params[i]) <= offset)
    && forall x: nat :: x < offset && (alignment != 0 ==> x % alignment == 0) ==>
         exists i :: 0 <= i < |params| && x < End(params[i])
  }

  lemma AlignedFirst(offset: nat, alignment: nat, x: nat)
    requires offset <= x < AlignUp(offset, alignment)
    ensures alignment != 0 && x % alignment != 0
  {
    AlignedUp(offset, alignment);
    if x % alignment == 0 {
      var up := AlignUp(offset, alignment);
      DivMod.Fundamental(x, alignment);
      DivMod.Fundamental(up, alignment);
      DivMod.Distribute(alignment, x / alignment, 1);
      DivMod.QuotientBelow(x, alignment, up / alignment);
      DivMod.MultipleMonotone(alignment, x / alignment + 1, up / alignment);
    }
  }

  lemma PlacedFirst(params: seq<Param>, settings: Settings, sets: seq<Param>)
    requires Creating(params, settings, sets).Created?
    ensures FirstFree(params, settings.alignment, Creating(params, settings, sets).offset)
  {
    var s := ScanTo(params, settings.relevant, |params|);
    var offset := AlignUp(s.end, settings.alignment);
    AlignedUp(s.end, settings.alignment);
    ScanDetails(params, settings.relevant, |params|);
    forall i | 0 <= i < |params| ensures End(params[i]) <= s.end {
      EndCovers(params, settings.relevant, |params|, i);
    }
    hide ScanTo, AlignUp;
    forall x: nat | x < offset && (settings.alignment != 0 ==> x % settings.alignment == 0)
      ensures exists i :: 0 <= i < |params| && x < End(params[i])
    {
      if x >= s.end { AlignedFirst(s.end, settings.alignment, x); }
    }
  }

  // The first range that serves all relevant stages is extended to the end of the injection; without one a range is
  // appended for the relevant stages that no range serves yet. Nothing else changes.
  lemma CreatedParameters(params: seq<Param>, settings: Settings, sets: seq<Param>)
    requires Creating(params, settings, sets).Created?
    ensures var c := Creating(params, settings, sets);
            var cost := if settings.slots < 64 then settings.slots else 64;
            && FirstFree(params, settings.alignment, c.offset)
            && (FullRange(params, settings.relevant) ==>
                  && c.index < |params| && Serves(params[c.index], settings.relevant)
                  && (forall i :: 0 <= i < c.index ==> !Serves(params[i], settings.relevant))
                  && params[c.index].binding <= c.offset
                  && var p := params[c.index];
                     c.params ==
                     params[c.index := Constants(p.binding, c.offset - p.binding + cost, p.visibility)] + sets)
            && (!FullRange(params, settings.relevant) ==>
                  && c.index == |params|
                  && c.params == params + [Constants(c.offset, cost, Unserved(params, settings.relevant))] + sets)
  {
    PlacedFirst(params, settings, sets);
    ScanDetails(params, settings.relevant, |params|);
    ScanFinds(params, settings.relevant, |params|);
    assert params[..|params|] == params;
    var s := ScanTo(params, settings.relevant, |params|);
    hide ScanTo, FirstFree, AlignUp;
    if !s.full { assert s.unused == Unserved(params, settings.relevant); }
  }

  // Recovery finds the place chosen exactly when the injection fits the budget and is seen by a relevant
  // stage: it expanded a range for all of them, or some relevant stage was still free.
  lemma RecoveredExactly(params: seq<Param>, settings: Settings, sets: seq<Param>)
    requires settings.slots > 0 && settings.relevant != {} && OnlySets(sets)
    requires Creating(params, settings, sets).Created?
    ensures var c := Creating(params, settings, sets);
            Recovering(c.params, settings) == Found(c.index, c.offset) <==>
            settings.slots <= BUDGET && (FullRange(params, settings.relevant) || FreeStage(params, settings.relevant))
  {
    var c := Creating(params, settings, sets);
    PlacedApart(params, settings, sets);
    InjectionIsLast(params, settings, sets);
    OnlyCandidate(c.params, settings, c.index);
    CreatedVisibility(params, settings, sets);
    hide Recovering, Creating;
  }

  lemma InjectionIsLast(params: seq<Param>, settings: Settings, sets: seq<Param>)
    requires settings.slots > 0 && OnlySets(sets) && Creating(params, settings, sets).Created?
    ensures var c := Creating(params, settings, sets);
            && c.index < |c.params|
            && forall j :: 0 <= j < |c.params| && j != c.index ==> End(c.params[j]) < End(c.params[c.index])
  {
    PlacedApart(params, settings, sets);
    var c := Creating(params, settings, sets);
    FullMeansExpand(params, settings.relevant, |params|);
    forall j | 0 <= j < |c.params| && j != c.index ensures End(c.params[j]) < End(c.params[c.index]) {
      if j >= |params| { assert c.params[j].DescriptorSet?; }
    }
  }

  lemma CreatedVisibility(params: seq<Param>, settings: Settings, sets: seq<Param>)
    requires settings.slots > 0 && settings.relevant != {} && Creating(params, settings, sets).Created?
    ensures var c := Creating(params, settings, sets);
            && c.index < |c.params| && c.params[c.index].Constants?
            && (c.params[c.index].visibility * settings.relevant != {} <==>
                FullRange(params, settings.relevant) || FreeStage(params, settings.relevant))
            && c.params[c.index].count >= (if settings.slots < BUDGET then settings.slots else BUDGET)
  {
    PlacedApart(params, settings, sets);
    ScanFinds(params, settings.relevant, |params|);
    assert params[..|params|] == params;
    FullMeansExpand(params, settings.relevant, |params|);
    var s, c := ScanTo(params, settings.relevant, |params|), Creating(params, settings, sets);
    var seen := c.params[c.index].visibility * settings.relevant;
    hide ScanTo;
    if s.full {
      var stage :| stage in settings.relevant;
      assert stage in seen;
    } else {
      assert seen == s.unused;
      if FreeStage(params, settings.relevant) {
        var stage :| stage in settings.relevant && forall p <- params :: p.Constants? ==> stage !in p.visibility;
        assert stage in seen;
      }
      if seen != {} {
        var stage :| stage in seen;
        assert stage in s.unused;
      }
    }
  }

  // Two ranges that share out the relevant stages: the injection is appended but not recovered.
  lemma SharedStagesNotRecovered()
    ensures var params := [Constants(0, 4, {4}), Constants(4, 4, {5})];
            var settings := Settings(1, 4, {4, 5}, true, false);
            var c := Creating(params, settings, []);
            c.Created? && Recovering(c.params, settings) != Found(c.index, c.offset)
  {
    var params := [Constants(0, 4, {4}), Constants(4, 4, {5})];
    var settings := Settings(1, 4, {4, 5}, true, false);
    assert 4 in settings.relevant && 5 in settings.relevant;
    assert params[0] in params && params[1] in params;
    assert !FullRange(params, settings.relevant) && !FreeStage(params, settings.relevant);
    RecoveredExactly(params, settings, []);
  }
}
