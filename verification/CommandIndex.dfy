// The index that is prepared for each pipeline and the naive scan that it replaces, as functions.
module CommandIndex {
  import opened CommandProtocol

  // One entry of a registration list; `mask` holds all commands that were registered together.
  datatype Registration = Registration(callback: Callback, mask: set<Command>)

  const STAGE_COUNT := 8

  // Shader stages are indexes into the list of stages; a pipeline has one shader per stage.
  datatype Shader = Shader(stage: nat, hash: nat)

  // A callback that some shaders of one pipeline matched: for each of its stages the shader's hash and
  // where in that hash's list the callback stands.
  datatype Match = Match(callback: Callback, details: nat, stages: set<nat>, hashes: seq<nat>, positions: seq<nat>)

  datatype Bound = Bound(pipeline: nat, stage: nat)

  datatype Slot = Empty | Filled(entry: Match)

  // What a shader of a prepared pipeline matched against: the list of its hash at that time, the
  // identities unregistered since, and the pipeline's details.
  datatype Origin = Origin(list: seq<Registration>, hash: nat, removed: set<nat>, details: nat)

  type Origins = map<(nat, nat), Origin>

  function OriginOf(origins: Origins, b: Bound): Origin {
    if (b.pipeline, b.stage) in origins then origins[(b.pipeline, b.stage)] else Origin([], 0, {}, 0)
  }

  predicate Alive(o: Origin, c: Command, p: nat) {
    p < |o.list| && o.list[p].callback.command == c && o.list[p].callback.identity !in o.removed
  }

  function Pair(cb: Callback): (nat, nat) {
    (cb.identity, cb.data)
  }

  // ---- The naive scan: stages in binding order, registrations in their order, each pair once ----

  datatype Scan = Scan(calls: seq<Call>, called: set<(nat, nat)>)

  function ScanList(s: Scan, o: Origin, c: Command, b: Bound, p: nat): Scan {
    if p == 0 then s
    else
      var s' := ScanList(s, o, c, b, p - 1);
      if !Alive(o, c, p - 1) then s'
      else
        var cb := o.list[p - 1].callback;
        if Pair(cb) in s'.called then s'
        else Scan(s'.calls + [Call(cb, Matched.Shader(o.hash, b.stage, b.pipeline, o.details))], s'.called + {Pair(cb)})
  }

  function ScanSlots(slots: seq<Bound>, origins: Origins, c: Command, n: nat): Scan
    requires n <= |slots|
  {
    if n == 0 then Scan([], {})
    else
      var o := OriginOf(origins, slots[n - 1]);
      ScanList(ScanSlots(slots, origins, c, n - 1), o, c, slots[n - 1], |o.list|)
  }

  // ---- The prepared index ----

  ghost predicate FirstAt(o: Origin, c: Command, cb: Callback, p: nat) {
    && Alive(o, c, p) && o.list[p].callback == cb
    && forall q :: 0 <= q < p ==> !(Alive(o, c, q) && o.list[q].callback == cb)
  }

  ghost predicate Listed(o: Origin, c: Command, cb: Callback) {
    exists p: nat :: Alive(o, c, p) && o.list[p].callback == cb
  }

  ghost predicate MatchOk(m: Match, pipeline: nat, c: Command, origins: Origins) {
    && |m.hashes| == STAGE_COUNT && |m.positions| == STAGE_COUNT
    && m.callback.command == c
    && forall s <- m.stages ::
         && s < STAGE_COUNT
         && var o := OriginOf(origins, Bound(pipeline, s));
            FirstAt(o, c, m.callback, m.positions[s]) && m.hashes[s] == o.hash && m.details == o.details
  }

  ghost predicate MatchesFor(ms: seq<Match>, pipeline: nat, c: Command, origins: Origins) {
    && (forall i :: 0 <= i < |ms| ==> MatchOk(ms[i], pipeline, c, origins))
    && (forall i, j :: 0 <= i < j < |ms| ==> ms[i].callback != ms[j].callback)
  }

  ghost predicate Covers(ms: seq<Match>, pipeline: nat, c: Command, origins: Origins) {
    forall s: nat, cb: Callback :: s < STAGE_COUNT && Listed(OriginOf(origins, Bound(pipeline, s)), c, cb) ==>
      exists i :: 0 <= i < |ms| && ms[i].callback == cb && s in ms[i].stages
  }

  ghost predicate IndexOk(ms: seq<Match>, pipeline: nat, c: Command, origins: Origins) {
    MatchesFor(ms, pipeline, c, origins) && Covers(ms, pipeline, c, origins)
  }

  // ---- Sorting matches into one bucket per bound stage, by position ----

  function PlaceIn(b: seq<Slot>, p: nat, m: Match): (r: seq<Slot>)
    ensures |r| == if p < |b| then |b| else p + 1
  {
    if p < |b| then b[p := Filled(m)]
    else b + seq(p - |b|, _ => Empty) + [Filled(m)]
  }

  function At(b: seq<Slot>, p: nat): Slot {
    if p < |b| then b[p] else Empty
  }

  lemma PlacedAt(b: seq<Slot>, p: nat, m: Match, q: nat)
    ensures At(PlaceIn(b, p, m), q) == if q == p then Filled(m) else At(b, q)
  {
  }

  function Active(slots: seq<Bound>, first: nat): set<nat>
    requires first < |slots|
  {
    set n | first <= n < |slots| && slots[n].pipeline == slots[first].pipeline :: slots[n].stage
  }

  function FirstIn(slots: seq<Bound>, n: nat, stages: set<nat>): (k: nat)
    requires n <= |slots|
    ensures n <= k <= |slots|
    ensures k < |slots| ==> slots[k].stage in stages
    ensures forall i :: n <= i < k ==> slots[i].stage !in stages
    decreases |slots| - n
  {
    if n == |slots| || slots[n].stage in stages then n else FirstIn(slots, n + 1, stages)
  }

  // The slot that a match of the pipeline first bound at `first` goes to, if any.
  function Target(slots: seq<Bound>, first: nat, m: Match): (k: nat)
    requires first < |slots|
    ensures first <= k <= |slots|
    ensures k < |slots| <==> m.stages * Active(slots, first) != {}
    ensures k < |slots| ==> slots[k].stage in m.stages && slots[k].stage in Active(slots, first)
  {
    var eligible := m.stages * Active(slots, first);
    var k := FirstIn(slots, first, eligible);
    assert eligible != {} ==> k < |slots| by {
      if eligible != {} {
        var s :| s in eligible;
        var n :| first <= n < |slots| && slots[n].pipeline == slots[first].pipeline && slots[n].stage == s;
      }
    }
    k
  }

  type Buckets = seq<seq<Slot>>

  predicate Placeable(m: Match) {
    |m.positions| == STAGE_COUNT && |m.hashes| == STAGE_COUNT && forall s <- m.stages :: s < STAGE_COUNT
  }

  function PlaceMatch(b: Buckets, slots: seq<Bound>, first: nat, m: Match): (r: Buckets)
    requires |b| == |slots| && first < |slots| && Placeable(m)
    ensures |r| == |b|
  {
    var k := Target(slots, first, m);
    if k < |slots| then b[k := PlaceIn(b[k], m.positions[slots[k].stage], m)] else b
  }

  function PlaceMatches(b: Buckets, slots: seq<Bound>, first: nat, ms: seq<Match>): (r: Buckets)
    requires |b| == |slots| && first < |slots| && forall m <- ms :: Placeable(m)
    ensures |r| == |b|
  {
    if ms == [] then b
    else PlaceMatch(PlaceMatches(b, slots, first, ms[..|ms| - 1]), slots, first, ms[|ms| - 1])
  }

  lemma PlaceNothing(b: Buckets, slots: seq<Bound>, first: nat)
    requires |b| == |slots| && first < |slots|
    ensures PlaceMatches(b, slots, first, []) == b && !Contributes(slots, first, [])
  {
  }

  lemma PlaceNext(b: Buckets, slots: seq<Bound>, first: nat, ms: seq<Match>, j: nat)
    requires |b| == |slots| && first < |slots| && j < |ms| && forall m <- ms :: Placeable(m)
    ensures PlaceMatches(b, slots, first, ms[..j + 1]) ==
              PlaceMatch(PlaceMatches(b, slots, first, ms[..j]), slots, first, ms[j])
    ensures Contributes(slots, first, ms[..j + 1]) <==>
            Contributes(slots, first, ms[..j]) || ms[j].stages * Active(slots, first) != {}
  {
    hide Active, Placeable, PlaceMatch;
    assert ms[..j + 1] == ms[..j] + [ms[j]] && ms[..j + 1][..j] == ms[..j];
  }

  lemma TargetIs(slots: seq<Bound>, first: nat, m: Match)
    requires first < |slots| && Placeable(m)
    ensures Target(slots, first, m) == FirstIn(slots, first, m.stages * Active(slots, first))
    ensures Target(slots, first, m) < |slots| ==> slots[Target(slots, first, m)].stage < |m.positions|
  {
    hide Active;
  }

  // Some match of the group is for a stage that the pipeline is bound to.
  predicate Contributes(slots: seq<Bound>, first: nat, ms: seq<Match>)
    requires first < |slots|
  {
    exists m <- ms :: m.stages * Active(slots, first) != {}
  }

  predicate SeenBefore(slots: seq<Bound>, n: nat)
    requires n < |slots|
  {
    exists i :: 0 <= i < n && slots[i].pipeline == slots[n].pipeline
  }

  function Group(groups: map<nat, seq<Match>>, pipeline: nat): seq<Match> {
    if pipeline in groups then groups[pipeline] else []
  }

  datatype Filling = Filling(buckets: Buckets, contributing: nat)

  ghost predicate AllPlaceable(groups: map<nat, seq<Match>>) {
    forall pipeline: nat, m: Match :: m in Group(groups, pipeline) ==> Placeable(m)
  }

  // The buckets after the pipelines of the first k slots, each taken at its first slot.
  ghost function FillFrom(slots: seq<Bound>, groups: map<nat, seq<Match>>, k: nat): (f: Filling)
    requires k <= |slots| && AllPlaceable(groups)
    ensures |f.buckets| == |slots|
  {
    if k == 0 then Filling(seq(|slots|, _ => []), 0)
    else
      var f := FillFrom(slots, groups, k - 1);
      if SeenBefore(slots, k - 1) then f
      else
        var ms := Group(groups, slots[k - 1].pipeline);
        Filling(PlaceMatches(f.buckets, slots, k - 1, ms),
                if Contributes(slots, k - 1, ms) then f.contributing + 1 else f.contributing)
  }

  // ---- Walking the buckets ----

  function CallOf(m: Match, bound: Bound): Call {
    var hash := if bound.stage < |m.hashes| then m.hashes[bound.stage] else 0;
    Call(m.callback, Matched.Shader(hash, bound.stage, bound.pipeline, m.details))
  }

  function WalkBucket(s: Scan, b: seq<Slot>, bound: Bound, dedupe: bool, p: nat): Scan {
    if p == 0 then s
    else
      var s' := WalkBucket(s, b, bound, dedupe, p - 1);
      match At(b, p - 1)
      case Empty => s'
      case Filled(m) =>
        if dedupe && Pair(m.callback) in s'.called then s'
        else
          Scan(s'.calls + [CallOf(m, bound)], if dedupe then s'.called + {Pair(m.callback)} else s'.called)
  }

  function WalkSlots(slots: seq<Bound>, buckets: Buckets, dedupe: bool, n: nat): Scan
    requires n <= |slots| == |buckets|
  {
    if n == 0 then Scan([], {})
    else WalkBucket(WalkSlots(slots, buckets, dedupe, n - 1), buckets[n - 1], slots[n - 1], dedupe, |buckets[n - 1]|)
  }

  // ---- What each bucket holds ----

  predicate WellBound(slots: seq<Bound>) {
    && (forall i :: 0 <= i < |slots| ==> slots[i].stage < STAGE_COUNT)
    && forall i, j :: 0 <= i < j < |slots| ==> slots[i].stage != slots[j].stage
  }

  // The callback at position p of slot n's list was not met before in the slots of its pipeline.
  ghost predicate FirstOfPipeline(slots: seq<Bound>, origins: Origins, c: Command, n: nat, p: nat)
    requires n < |slots|
  {
    var o := OriginOf(origins, slots[n]);
    && Alive(o, c, p)
    && FirstAt(o, c, o.list[p].callback, p)
    && forall i :: 0 <= i < n && slots[i].pipeline == slots[n].pipeline ==>
         !Listed(OriginOf(origins, slots[i]), c, o.list[p].callback)
  }

  ghost predicate HeldBy(slots: seq<Bound>, origins: Origins, n: nat, p: nat, m: Match)
    requires n < |slots|
  {
    var o := OriginOf(origins, slots[n]);
    && p < |o.list| && m.callback == o.list[p].callback && m.details == o.details
    && slots[n].stage < |m.hashes| && m.hashes[slots[n].stage] == o.hash
  }

  ghost predicate PlacedBy(slots: seq<Bound>, first: nat, m: Match, n: nat, p: nat)
    requires first < |slots|
  {
    && Target(slots, first, m) == n < |slots|
    && slots[n].stage < |m.positions| && m.positions[slots[n].stage] == p
  }

  lemma InActive(slots: seq<Bound>, first: nat, n: nat)
    requires WellBound(slots) && first < |slots| && n < |slots|
    ensures slots[n].stage in Active(slots, first) <==> first <= n && slots[n].pipeline == slots[first].pipeline
  {
  }

  lemma TargetIsFirst(slots: seq<Bound>, first: nat, m: Match, n: nat)
    requires WellBound(slots) && first <= n < |slots|
    requires slots[n].stage in m.stages && slots[n].pipeline == slots[first].pipeline
    ensures Target(slots, first, m) <= n
  {
    InActive(slots, first, n);
  }

  lemma TargetSamePipeline(slots: seq<Bound>, first: nat, m: Match)
    requires WellBound(slots) && first < |slots| && Target(slots, first, m) < |slots|
    ensures slots[Target(slots, first, m)].pipeline == slots[first].pipeline
    ensures slots[Target(slots, first, m)].stage in m.stages
  {
    InActive(slots, first, Target(slots, first, m));
  }

  lemma FirstAtUnique(o: Origin, c: Command, cb: Callback, p: nat, q: nat)
    requires FirstAt(o, c, cb, p) && FirstAt(o, c, cb, q)
    ensures p == q
  {
  }

  lemma ListedAt(o: Origin, c: Command, cb: Callback, p: nat)
    requires Alive(o, c, p) && o.list[p].callback == cb
    ensures Listed(o, c, cb)
  {
  }

  // A match lands where its callback is met first among the slots of its pipeline.
  lemma PlacedIsFirst(slots: seq<Bound>, origins: Origins, c: Command, first: nat, ms: seq<Match>, i: nat, n: nat,
                      p: nat)
    requires WellBound(slots) && first < |slots| && !SeenBefore(slots, first)
    requires IndexOk(ms, slots[first].pipeline, c, origins) && i < |ms| && PlacedBy(slots, first, ms[i], n, p)
    ensures slots[n].pipeline == slots[first].pipeline
    ensures FirstOfPipeline(slots, origins, c, n, p) && HeldBy(slots, origins, n, p, ms[i])
  {
    hide Active, Listed;
    var m, pipeline := ms[i], slots[first].pipeline;
    TargetSamePipeline(slots, first, m);
    assert slots[n] == Bound(pipeline, slots[n].stage);
    var o := OriginOf(origins, slots[n]);
    assert MatchOk(m, pipeline, c, origins);
    assert FirstAt(o, c, m.callback, p);
    forall j | 0 <= j < n && slots[j].pipeline == pipeline
      ensures !Listed(OriginOf(origins, slots[j]), c, m.callback)
    {
      if Listed(OriginOf(origins, slots[j]), c, m.callback) {
        EarlierWouldTake(slots, origins, c, first, ms, i, j);
      }
    }
  }

  lemma EarlierWouldTake(slots: seq<Bound>, origins: Origins, c: Command, first: nat, ms: seq<Match>, i: nat, j: nat)
    requires WellBound(slots) && first < |slots| && !SeenBefore(slots, first) && j < |slots|
    requires IndexOk(ms, slots[first].pipeline, c, origins) && i < |ms|
    requires slots[j].pipeline == slots[first].pipeline && slots[j].stage < STAGE_COUNT
    requires Listed(OriginOf(origins, slots[j]), c, ms[i].callback)
    ensures Target(slots, first, ms[i]) <= j
  {
    hide Listed, Active, MatchOk;
    assert slots[j] == Bound(slots[first].pipeline, slots[j].stage);
    var k :| 0 <= k < |ms| && ms[k].callback == ms[i].callback && slots[j].stage in ms[k].stages;
    assert k == i;
    assert first <= j;
    TargetIsFirst(slots, first, ms[i], j);
  }

  lemma FirstIsPlaced(slots: seq<Bound>, origins: Origins, c: Command, first: nat, ms: seq<Match>, n: nat, p: nat)
    returns (i: nat)
    requires WellBound(slots) && first < |slots| && n < |slots| && !SeenBefore(slots, first)
    requires IndexOk(ms, slots[first].pipeline, c, origins)
    requires slots[n].pipeline == slots[first].pipeline && slots[n].stage < STAGE_COUNT
    requires FirstOfPipeline(slots, origins, c, n, p)
    ensures i < |ms| && PlacedBy(slots, first, ms[i], n, p)
  {
    hide Active;
    var pipeline := slots[first].pipeline;
    assert slots[n] == Bound(pipeline, slots[n].stage);
    var o := OriginOf(origins, slots[n]);
    var cb := o.list[p].callback;
    ListedAt(o, c, cb, p);
    i :| 0 <= i < |ms| && ms[i].callback == cb && slots[n].stage in ms[i].stages;
    var m := ms[i];
    assert MatchOk(m, pipeline, c, origins);
    assert first <= n;
    TargetIsFirst(slots, first, m, n);
    var k := Target(slots, first, m);
    TargetSamePipeline(slots, first, m);
    assert slots[k] == Bound(pipeline, slots[k].stage);
    ListedAt(OriginOf(origins, slots[k]), c, cb, m.positions[slots[k].stage]);
    FirstAtUnique(o, c, cb, p, m.positions[slots[n].stage]);
  }

  // Two matches of one pipeline never meet in a bucket.
  lemma PlacedOnce(slots: seq<Bound>, origins: Origins, c: Command, first: nat, ms: seq<Match>, i: nat, j: nat,
                   n: nat, p: nat)
    requires WellBound(slots) && first < |slots| && !SeenBefore(slots, first)
    requires IndexOk(ms, slots[first].pipeline, c, origins) && i < |ms| && j < |ms|
    requires PlacedBy(slots, first, ms[i], n, p) && PlacedBy(slots, first, ms[j], n, p)
    ensures i == j
  {
    PlacedIsFirst(slots, origins, c, first, ms, i, n, p);
    PlacedIsFirst(slots, origins, c, first, ms, j, n, p);
    hide PlacedBy, FirstOfPipeline;
  }

  // The matches ms[..k] of one pipeline lie where they were placed; everything else is as before.
  ghost predicate Placed(b: Buckets, b': Buckets, slots: seq<Bound>, first: nat, ms: seq<Match>)
    requires |b| == |b'| == |slots| && first < |slots|
  {
    && (forall n: nat, p: nat, i: nat :: i < |ms| && n < |slots| && PlacedBy(slots, first, ms[i], n, p) ==>
          At(b'[n], p) == Filled(ms[i]))
    && (forall n: nat, p: nat :: n < |slots| && At(b'[n], p) != At(b[n], p) ==>
          exists i: nat :: i < |ms| && PlacedBy(slots, first, ms[i], n, p) && At(b'[n], p) == Filled(ms[i]))
  }

  lemma PlaceMatchAt(b: Buckets, slots: seq<Bound>, first: nat, m: Match, n: nat, p: nat)
    requires |b| == |slots| && first < |slots| && n < |slots| && Placeable(m)
    ensures At(PlaceMatch(b, slots, first, m)[n], p) ==
              if PlacedBy(slots, first, m, n, p) then Filled(m) else At(b[n], p)
  {
    var k := Target(slots, first, m);
    if k < |slots| { PlacedAt(b[k], m.positions[slots[k].stage], m, p); }
  }

  ghost predicate NoClash(slots: seq<Bound>, first: nat, ms: seq<Match>)
    requires first < |slots|
  {
    forall i: nat, j: nat, n: nat, p: nat ::
      i < |ms| && j < |ms| && PlacedBy(slots, first, ms[i], n, p) && PlacedBy(slots, first, ms[j], n, p) ==> i == j
  }

  lemma {:induction false} PlaceMatchesPlaces(b: Buckets, slots: seq<Bound>, first: nat, ms: seq<Match>)
    requires |b| == |slots| && first < |slots| && (forall m <- ms :: Placeable(m)) && NoClash(slots, first, ms)
    ensures Placed(b, PlaceMatches(b, slots, first, ms), slots, first, ms)
    decreases |ms|
  {
    hide PlaceMatch, PlacedBy, Placeable;
    if ms != [] {
      var k := |ms| - 1;
      assert forall i :: 0 <= i < k ==> ms[..k][i] == ms[i];
      PlaceMatchesPlaces(b, slots, first, ms[..k]);
      var b1, b2 := PlaceMatches(b, slots, first, ms[..k]), PlaceMatches(b, slots, first, ms);
      forall n: nat, p: nat | n < |slots|
        ensures At(b2[n], p) == if PlacedBy(slots, first, ms[k], n, p) then Filled(ms[k]) else At(b1[n], p)
      {
        PlaceMatchAt(b1, slots, first, ms[k], n, p);
      }
    }
  }

  // ---- All pipelines together ----

  ghost predicate AllIndexed(groups: map<nat, seq<Match>>, c: Command, origins: Origins) {
    forall pipeline: nat :: IndexOk(Group(groups, pipeline), pipeline, c, origins)
  }

  lemma IndexedPlaceable(groups: map<nat, seq<Match>>, c: Command, origins: Origins)
    requires AllIndexed(groups, c, origins)
    ensures AllPlaceable(groups)
  {
    forall pipeline: nat, m: Match | m in Group(groups, pipeline) ensures Placeable(m) {
      var ms := Group(groups, pipeline);
      assert IndexOk(ms, pipeline, c, origins);
      var i :| 0 <= i < |ms| && ms[i] == m;
      assert MatchOk(ms[i], pipeline, c, origins);
    }
  }

  predicate Visited(slots: seq<Bound>, k: nat, n: nat)
    requires k <= |slots| && n < |slots|
  {
    exists i :: 0 <= i < k && slots[i].pipeline == slots[n].pipeline
  }

  ghost predicate BucketsOk(f: Filling, slots: seq<Bound>, origins: Origins, c: Command, k: nat)
    requires k <= |slots| == |f.buckets|
  {
    && (forall n: nat, p: nat :: n < |slots| && At(f.buckets[n], p).Filled? ==>
          FirstOfPipeline(slots, origins, c, n, p) && HeldBy(slots, origins, n, p, At(f.buckets[n], p).entry)
          && Visited(slots, k, n))
    && (forall n: nat, p: nat :: n < |slots| && Visited(slots, k, n) && FirstOfPipeline(slots, origins, c, n, p) ==>
          At(f.buckets[n], p).Filled?)
  }

  // With at most one contributing pipeline all entries belong to it.
  ghost predicate CountOk(f: Filling, slots: seq<Bound>)
    requires |slots| == |f.buckets|
  {
    && (f.contributing == 0 ==> forall n: nat, p: nat :: n < |slots| ==> At(f.buckets[n], p).Empty?)
    && (f.contributing == 1 ==>
          forall n: nat, p: nat, n': nat, p': nat ::
            n < |slots| && n' < |slots| && At(f.buckets[n], p).Filled? && At(f.buckets[n'], p').Filled? ==>
              slots[n].pipeline == slots[n'].pipeline)
  }

  lemma AllPlaced(b: Buckets, slots: seq<Bound>, first: nat, ms: seq<Match>, c: Command, origins: Origins)
    requires WellBound(slots) && |b| == |slots| && first < |slots| && !SeenBefore(slots, first)
    requires IndexOk(ms, slots[first].pipeline, c, origins) && forall m <- ms :: Placeable(m)
    ensures Placed(b, PlaceMatches(b, slots, first, ms), slots, first, ms)
  {
    hide PlacedBy, IndexOk, PlaceMatches;
    forall i: nat, j: nat, n: nat, p: nat
      | i < |ms| && j < |ms| && PlacedBy(slots, first, ms[i], n, p) && PlacedBy(slots, first, ms[j], n, p)
      ensures i == j
    {
      PlacedOnce(slots, origins, c, first, ms, i, j, n, p);
    }
    PlaceMatchesPlaces(b, slots, first, ms);
  }

  lemma NotSeenNotVisited(slots: seq<Bound>, first: nat, n: nat)
    requires first < |slots| && n < |slots| && !SeenBefore(slots, first) && slots[n].pipeline == slots[first].pipeline
    ensures !Visited(slots, first, n)
  {
  }

  // Slots of the pipeline first bound at `first` get their entries, all others keep theirs.
  lemma GroupPlaced(f: Filling, b': Buckets, slots: seq<Bound>, first: nat, ms: seq<Match>, c: Command,
                    origins: Origins)
    requires WellBound(slots) && |f.buckets| == |b'| == |slots| && first < |slots| && !SeenBefore(slots, first)
    requires IndexOk(ms, slots[first].pipeline, c, origins) && Placed(f.buckets, b', slots, first, ms)
    requires BucketsOk(f, slots, origins, c, first)
    ensures forall n: nat, p: nat :: n < |slots| && slots[n].pipeline != slots[first].pipeline ==>
              At(b'[n], p) == At(f.buckets[n], p)
    ensures forall n: nat, p: nat :: n < |slots| && slots[n].pipeline == slots[first].pipeline ==>
              (At(b'[n], p).Filled? <==> FirstOfPipeline(slots, origins, c, n, p))
              && (At(b'[n], p).Filled? ==> HeldBy(slots, origins, n, p, At(b'[n], p).entry))
  {
    hide PlacedBy, IndexOk, FirstOfPipeline, HeldBy;
    forall n: nat, p: nat | n < |slots| && At(b'[n], p) != At(f.buckets[n], p)
      ensures slots[n].pipeline == slots[first].pipeline && At(b'[n], p).Filled?
      ensures FirstOfPipeline(slots, origins, c, n, p) && HeldBy(slots, origins, n, p, At(b'[n], p).entry)
    {
      var i: nat :| i < |ms| && PlacedBy(slots, first, ms[i], n, p) && At(b'[n], p) == Filled(ms[i]);
      PlacedIsFirst(slots, origins, c, first, ms, i, n, p);
    }
    forall n: nat, p: nat
      | n < |slots| && slots[n].pipeline == slots[first].pipeline && FirstOfPipeline(slots, origins, c, n, p)
      ensures At(b'[n], p).Filled?
    {
      var i := FirstIsPlaced(slots, origins, c, first, ms, n, p);
    }
    forall n: nat, p: nat | n < |slots| && slots[n].pipeline == slots[first].pipeline
      ensures At(f.buckets[n], p).Empty?
    {
      NotSeenNotVisited(slots, first, n);
    }
  }

  lemma NoTargetsNoChange(b: Buckets, slots: seq<Bound>, first: nat, ms: seq<Match>)
    requires |b| == |slots| && first < |slots| && (forall m <- ms :: Placeable(m)) && !Contributes(slots, first, ms)
    ensures PlaceMatches(b, slots, first, ms) == b
  {
    hide Active, Placeable;
    if ms != [] {
      assert forall m <- ms[..|ms| - 1] :: m in ms;
      assert ms[|ms| - 1] in ms;
      NoTargetsNoChange(b, slots, first, ms[..|ms| - 1]);
    }
  }

  lemma VisitedNext(slots: seq<Bound>, k: nat, n: nat)
    requires k < |slots| && n < |slots|
    ensures Visited(slots, k + 1, n) <==> Visited(slots, k, n) || slots[k].pipeline == slots[n].pipeline
    ensures SeenBefore(slots, k) && slots[k].pipeline == slots[n].pipeline ==> Visited(slots, k, n)
  {
  }

  // The buckets of a whole step: one more pipeline.
  lemma BucketsStep(f: Filling, b': Buckets, slots: seq<Bound>, first: nat, ms: seq<Match>, c: Command,
                    origins: Origins)
    requires WellBound(slots) && |f.buckets| == |b'| == |slots| && first < |slots| && !SeenBefore(slots, first)
    requires IndexOk(ms, slots[first].pipeline, c, origins) && Placed(f.buckets, b', slots, first, ms)
    requires BucketsOk(f, slots, origins, c, first)
    ensures BucketsOk(f.(buckets := b'), slots, origins, c, first + 1)
  {
    hide FirstOfPipeline, HeldBy, IndexOk, Visited, Placed, SeenBefore;
    GroupPlaced(f, b', slots, first, ms, c, origins);
    forall n: nat | n < |slots|
      ensures Visited(slots, first + 1, n) <==> Visited(slots, first, n) || slots[first].pipeline == slots[n].pipeline
    {
      VisitedNext(slots, first, n);
    }
  }

  lemma CountStep(f: Filling, b': Buckets, slots: seq<Bound>, first: nat, ms: seq<Match>, c: Command, origins: Origins)
    requires WellBound(slots) && |f.buckets| == |b'| == |slots| && first < |slots| && !SeenBefore(slots, first)
    requires IndexOk(ms, slots[first].pipeline, c, origins) && Placed(f.buckets, b', slots, first, ms)
    requires BucketsOk(f, slots, origins, c, first) && CountOk(f, slots)
    ensures CountOk(Filling(b', f.contributing + 1), slots)
  {
    hide FirstOfPipeline, HeldBy, IndexOk, Visited, Placed, SeenBefore, BucketsOk;
    GroupPlaced(f, b', slots, first, ms, c, origins);
  }

  lemma BucketsSame(f: Filling, slots: seq<Bound>, k: nat, c: Command, origins: Origins)
    requires k < |slots| == |f.buckets| && SeenBefore(slots, k) && BucketsOk(f, slots, origins, c, k)
    ensures BucketsOk(f, slots, origins, c, k + 1)
  {
    hide FirstOfPipeline, HeldBy, Visited, SeenBefore;
    forall n: nat | n < |slots| ensures Visited(slots, k + 1, n) <==> Visited(slots, k, n) {
      VisitedNext(slots, k, n);
    }
  }

  lemma FillFromNext(slots: seq<Bound>, groups: map<nat, seq<Match>>, k: nat)
    requires 0 < k <= |slots| && AllPlaceable(groups)
    ensures var f := FillFrom(slots, groups, k - 1);
            var ms := Group(groups, slots[k - 1].pipeline);
            && (forall m <- ms :: Placeable(m))
            && FillFrom(slots, groups, k) ==
               if SeenBefore(slots, k - 1) then f
               else Filling(PlaceMatches(f.buckets, slots, k - 1, ms),
                            if Contributes(slots, k - 1, ms) then f.contributing + 1 else f.contributing)
  {
    hide PlaceMatches, Placeable, Contributes, SeenBefore;
  }

  lemma {:induction false} FillFromOk(slots: seq<Bound>, groups: map<nat, seq<Match>>, origins: Origins, c: Command,
                                      k: nat)
    requires WellBound(slots) && AllIndexed(groups, c, origins) && AllPlaceable(groups) && k <= |slots|
    ensures BucketsOk(FillFrom(slots, groups, k), slots, origins, c, k)
    ensures CountOk(FillFrom(slots, groups, k), slots)
  {
    hide IndexOk, PlaceMatches, Placeable, Contributes, Placed, SeenBefore, WellBound, Group, BucketsOk, CountOk;
    if k == 0 {
      NothingFilled(slots, origins, c);
    } else {
      FillFromOk(slots, groups, origins, c, k - 1);
      FillFromNext(slots, groups, k);
      hide FillFrom;
      var f := FillFrom(slots, groups, k - 1);
      if SeenBefore(slots, k - 1) {
        BucketsSame(f, slots, k - 1, c, origins);
      } else {
        var ms := Group(groups, slots[k - 1].pipeline);
        var b' := PlaceMatches(f.buckets, slots, k - 1, ms);
        AllPlaced(f.buckets, slots, k - 1, ms, c, origins);
        BucketsStep(f, b', slots, k - 1, ms, c, origins);
        CountStep(f, b', slots, k - 1, ms, c, origins);
        SameBuckets(f.(buckets := b'), FillFrom(slots, groups, k), slots, k, c, origins);
        if !Contributes(slots, k - 1, ms) { NoTargetsNoChange(f.buckets, slots, k - 1, ms); }
      }
    }
  }

  lemma SameBuckets(f: Filling, f': Filling, slots: seq<Bound>, k: nat, c: Command, origins: Origins)
    requires k <= |slots| == |f.buckets| && f.buckets == f'.buckets && BucketsOk(f, slots, origins, c, k)
    ensures BucketsOk(f', slots, origins, c, k)
  {
  }

  lemma NothingFilled(slots: seq<Bound>, origins: Origins, c: Command)
    ensures BucketsOk(Filling(seq(|slots|, _ => []), 0), slots, origins, c, 0)
    ensures CountOk(Filling(seq(|slots|, _ => []), 0), slots)
  {
    hide FirstOfPipeline, HeldBy, Visited;
    forall n: nat | n < |slots| ensures !Visited(slots, 0, n) { NotVisited(slots, n); }
  }

  lemma NotVisited(slots: seq<Bound>, n: nat)
    requires n < |slots|
    ensures !Visited(slots, 0, n)
  {
  }

  // ---- The walk makes the calls of the naive scan ----

  ghost predicate HasPair(o: Origin, c: Command, pair: (nat, nat), limit: nat) {
    exists q: nat :: q < limit && Alive(o, c, q) && Pair(o.list[q].callback) == pair
  }

  lemma {:induction false} ScanListCalled(s: Scan, o: Origin, c: Command, b: Bound, p: nat, pair: (nat, nat))
    ensures pair in ScanList(s, o, c, b, p).called <==> pair in s.called || HasPair(o, c, pair, p)
  {
    if p > 0 {
      ScanListCalled(s, o, c, b, p - 1, pair);
      HasPairNext(o, c, pair, p - 1);
      hide HasPair;
    }
  }

  lemma HasPairNext(o: Origin, c: Command, pair: (nat, nat), p: nat)
    ensures HasPair(o, c, pair, p + 1) <==>
            HasPair(o, c, pair, p) || (Alive(o, c, p) && Pair(o.list[p].callback) == pair)
  {
  }

  ghost predicate SlotHasPair(slots: seq<Bound>, origins: Origins, c: Command, pair: (nat, nat), i: nat)
    requires i < |slots|
  {
    var o := OriginOf(origins, slots[i]);
    HasPair(o, c, pair, |o.list|)
  }

  lemma {:induction false} ScanSlotsCalled(slots: seq<Bound>, origins: Origins, c: Command, n: nat, pair: (nat, nat))
    requires n <= |slots|
    ensures pair in ScanSlots(slots, origins, c, n).called <==>
            exists i: nat :: i < n && SlotHasPair(slots, origins, c, pair, i)
  {
    hide SlotHasPair;
    if n > 0 {
      ScanSlotsCalled(slots, origins, c, n - 1, pair);
      var o := OriginOf(origins, slots[n - 1]);
      ScanListCalled(ScanSlots(slots, origins, c, n - 1), o, c, slots[n - 1], |o.list|, pair);
      assert SlotHasPair(slots, origins, c, pair, n - 1) == HasPair(o, c, pair, |o.list|) by {
        SlotHasPairAt(slots, origins, c, pair, n - 1);
      }
    }
  }

  lemma SlotHasPairAt(slots: seq<Bound>, origins: Origins, c: Command, pair: (nat, nat), i: nat)
    requires i < |slots|
    ensures SlotHasPair(slots, origins, c, pair, i) ==
            HasPair(OriginOf(origins, slots[i]), c, pair, |OriginOf(origins, slots[i]).list|)
  {
  }

  // For one kind of command, a callback's identity and configuration fix its thunk.
  ghost predicate FixedThunks(slots: seq<Bound>, origins: Origins, c: Command) {
    forall i: nat, j: nat, p: nat, q: nat ::
      i < |slots| && j < |slots| && Alive(OriginOf(origins, slots[i]), c, p) && Alive(OriginOf(origins, slots[j]), c, q)
      && Pair(OriginOf(origins, slots[i]).list[p].callback) == Pair(OriginOf(origins, slots[j]).list[q].callback) ==>
        OriginOf(origins, slots[i]).list[p].callback == OriginOf(origins, slots[j]).list[q].callback
  }

  lemma {:induction false} LeastPosition(o: Origin, c: Command, cb: Callback, p: nat) returns (q: nat)
    requires Alive(o, c, p) && o.list[p].callback == cb
    ensures q <= p && FirstAt(o, c, cb, q)
    decreases p
  {
    if r: nat :| r < p && Alive(o, c, r) && o.list[r].callback == cb {
      q := LeastPosition(o, c, cb, r);
    } else {
      q := p;
    }
  }

  // A callback listed for some slot is met first somewhere in the slots of that pipeline.
  lemma {:induction false} FirstExists(slots: seq<Bound>, origins: Origins, c: Command, n: nat, cb: Callback)
    returns (m: nat, q: nat)
    requires n < |slots| && Listed(OriginOf(origins, slots[n]), c, cb)
    ensures m <= n && slots[m].pipeline == slots[n].pipeline
    ensures FirstOfPipeline(slots, origins, c, m, q) && OriginOf(origins, slots[m]).list[q].callback == cb
    decreases n
  {
    if i: nat :| i < n && slots[i].pipeline == slots[n].pipeline && Listed(OriginOf(origins, slots[i]), c, cb) {
      m, q := FirstExists(slots, origins, c, i, cb);
    } else {
      var p: nat :| Alive(OriginOf(origins, slots[n]), c, p) && OriginOf(origins, slots[n]).list[p].callback == cb;
      q := LeastPosition(OriginOf(origins, slots[n]), c, cb, p);
      m := n;
    }
  }

  lemma ListedSlotHasPair(slots: seq<Bound>, origins: Origins, c: Command, cb: Callback, i: nat)
    requires i < |slots|
    ensures Listed(OriginOf(origins, slots[i]), c, cb) ==> SlotHasPair(slots, origins, c, Pair(cb), i)
  {
  }

  lemma FirstNotRepeated(slots: seq<Bound>, origins: Origins, c: Command, n: nat, p: nat)
    requires n < |slots| && FixedThunks(slots, origins, c) && FirstOfPipeline(slots, origins, c, n, p)
    ensures var o := OriginOf(origins, slots[n]); !HasPair(o, c, Pair(o.list[p].callback), p)
  {
  }

  // A pair not called so far sits in its bucket.
  lemma NewPairIsFilled(slots: seq<Bound>, origins: Origins, c: Command, n: nat, p: nat)
    requires n < |slots|
    requires var o := OriginOf(origins, slots[n]);
             && Alive(o, c, p) && !HasPair(o, c, Pair(o.list[p].callback), p)
             && forall i: nat :: i < n ==> !SlotHasPair(slots, origins, c, Pair(o.list[p].callback), i)
    ensures FirstOfPipeline(slots, origins, c, n, p)
  {
    var o := OriginOf(origins, slots[n]);
    var cb := o.list[p].callback;
    forall i | 0 <= i < n && slots[i].pipeline == slots[n].pipeline
      ensures !Listed(OriginOf(origins, slots[i]), c, cb)
    {
      ListedSlotHasPair(slots, origins, c, cb, i);
    }
  }

  // An entry whose pair was called before belongs to a second contributing pipeline.
  lemma RepeatedPairNeedsTwo(f: Filling, slots: seq<Bound>, origins: Origins, c: Command, n: nat, p: nat)
    requires |f.buckets| == |slots| && n < |slots|
    requires BucketsOk(f, slots, origins, c, |slots|) && CountOk(f, slots) && FixedThunks(slots, origins, c)
    requires At(f.buckets[n], p).Filled?
    requires var o := OriginOf(origins, slots[n]);
             && Alive(o, c, p)
             && (HasPair(o, c, Pair(o.list[p].callback), p)
                 || exists i: nat :: i < n && SlotHasPair(slots, origins, c, Pair(o.list[p].callback), i))
    ensures f.contributing > 1
  {
    hide HeldBy, Visited;
    var o := OriginOf(origins, slots[n]);
    var cb := o.list[p].callback;
    FirstNotRepeated(slots, origins, c, n, p);
    var i: nat :| i < n && SlotHasPair(slots, origins, c, Pair(cb), i);
    ElsewhereFilled(f, slots, origins, c, n, p, i);
  }

  lemma ElsewhereFilled(f: Filling, slots: seq<Bound>, origins: Origins, c: Command, n: nat, p: nat, i: nat)
    requires |f.buckets| == |slots| && n < |slots| && i < n
    requires BucketsOk(f, slots, origins, c, |slots|) && CountOk(f, slots) && FixedThunks(slots, origins, c)
    requires At(f.buckets[n], p).Filled? && Alive(OriginOf(origins, slots[n]), c, p)
    requires SlotHasPair(slots, origins, c, Pair(OriginOf(origins, slots[n]).list[p].callback), i)
    ensures f.contributing > 1
  {
    hide HeldBy;
    var o, o' := OriginOf(origins, slots[n]), OriginOf(origins, slots[i]);
    var cb := o.list[p].callback;
    var q: nat :| q < |o'.list| && Alive(o', c, q) && Pair(o'.list[q].callback) == Pair(cb);
    assert o'.list[q].callback == cb;
    ListedAt(o', c, cb, q);
    hide Listed, FixedThunks;
    var m, r := FirstExists(slots, origins, c, i, cb);
    assert FirstOfPipeline(slots, origins, c, n, p);
    assert slots[i].pipeline != slots[n].pipeline;
    assert Visited(slots, |slots|, m);
    assert At(f.buckets[m], r).Filled?;
  }

  ghost predicate Agree(w: Scan, s: Scan, dedupe: bool) {
    w.calls == s.calls && (dedupe ==> w.called == s.called)
  }

  // One position: the walk calls what it finds exactly when the naive scan calls what is listed.
  lemma StepAgrees(w: Scan, f: Filling, slots: seq<Bound>, origins: Origins, c: Command, n: nat, p: nat)
    requires |f.buckets| == |slots| && n < |slots| && p < |OriginOf(origins, slots[n]).list|
    requires BucketsOk(f, slots, origins, c, |slots|) && CountOk(f, slots) && FixedThunks(slots, origins, c)
    requires var o := OriginOf(origins, slots[n]);
             Agree(w, ScanList(ScanSlots(slots, origins, c, n), o, c, slots[n], p), f.contributing > 1)
             && w == WalkBucket(WalkSlots(slots, f.buckets, f.contributing > 1, n), f.buckets[n], slots[n],
                                f.contributing > 1, p)
    ensures var o := OriginOf(origins, slots[n]);
            Agree(WalkBucket(WalkSlots(slots, f.buckets, f.contributing > 1, n), f.buckets[n], slots[n],
                             f.contributing > 1, p + 1),
                  ScanList(ScanSlots(slots, origins, c, n), o, c, slots[n], p + 1), f.contributing > 1)
  {
    hide WalkSlots, ScanSlots, CountOk, FixedThunks, FirstAt, Listed, HasPair, SlotHasPair;
    var o := OriginOf(origins, slots[n]);
    var s := ScanList(ScanSlots(slots, origins, c, n), o, c, slots[n], p);
    assert Visited(slots, |slots|, n);
    if Alive(o, c, p) {
      var pair := Pair(o.list[p].callback);
      ScanListCalled(ScanSlots(slots, origins, c, n), o, c, slots[n], p, pair);
      ScanSlotsCalled(slots, origins, c, n, pair);
      if pair !in s.called {
        NewPairIsFilled(slots, origins, c, n, p);
      } else if At(f.buckets[n], p).Filled? {
        RepeatedPairNeedsTwo(f, slots, origins, c, n, p);
      }
    }
  }

  lemma {:induction false} WalkBeyond(s: Scan, b: seq<Slot>, bound: Bound, dedupe: bool, p: nat)
    requires |b| <= p
    ensures WalkBucket(s, b, bound, dedupe, p) == WalkBucket(s, b, bound, dedupe, |b|)
  {
    if |b| < p { WalkBeyond(s, b, bound, dedupe, p - 1); }
  }

  lemma {:induction false} BucketAgrees(f: Filling, slots: seq<Bound>, origins: Origins, c: Command, n: nat, p: nat)
    requires |f.buckets| == |slots| && n < |slots| && p <= |OriginOf(origins, slots[n]).list|
    requires BucketsOk(f, slots, origins, c, |slots|) && CountOk(f, slots) && FixedThunks(slots, origins, c)
    requires Agree(WalkSlots(slots, f.buckets, f.contributing > 1, n), ScanSlots(slots, origins, c, n),
                   f.contributing > 1)
    ensures var o := OriginOf(origins, slots[n]);
            Agree(WalkBucket(WalkSlots(slots, f.buckets, f.contributing > 1, n), f.buckets[n], slots[n],
                             f.contributing > 1, p),
                  ScanList(ScanSlots(slots, origins, c, n), o, c, slots[n], p), f.contributing > 1)
  {
    hide WalkSlots, ScanSlots, BucketsOk, CountOk, FixedThunks, Agree;
    if p > 0 {
      BucketAgrees(f, slots, origins, c, n, p - 1);
      var w := WalkBucket(WalkSlots(slots, f.buckets, f.contributing > 1, n), f.buckets[n], slots[n],
                          f.contributing > 1, p - 1);
      StepAgrees(w, f, slots, origins, c, n, p - 1);
    }
  }

  // No entry lies beyond the list that it comes from.
  lemma BucketWithinList(f: Filling, slots: seq<Bound>, origins: Origins, c: Command, n: nat)
    requires |f.buckets| == |slots| && n < |slots| && BucketsOk(f, slots, origins, c, |slots|)
    requires f.buckets[n] != [] ==> f.buckets[n][|f.buckets[n]| - 1].Filled?
    ensures |f.buckets[n]| <= |OriginOf(origins, slots[n]).list|
  {
    hide Visited, FirstOfPipeline;
    if f.buckets[n] != [] {
      var p := |f.buckets[n]| - 1;
      assert At(f.buckets[n], p).Filled?;
    }
  }

  // The last entry of every bucket is in use, so that buckets are no longer than needed.
  ghost predicate Tight(b: Buckets) {
    forall n: nat :: n < |b| && b[n] != [] ==> b[n][|b[n]| - 1].Filled?
  }

  lemma {:induction false} PlaceMatchesTight(b: Buckets, slots: seq<Bound>, first: nat, ms: seq<Match>)
    requires |b| == |slots| && first < |slots| && (forall m <- ms :: Placeable(m)) && Tight(b)
    ensures Tight(PlaceMatches(b, slots, first, ms))
    decreases |ms|
  {
    hide Target, Placeable;
    if ms != [] {
      PlaceMatchesTight(b, slots, first, ms[..|ms| - 1]);
    }
  }

  lemma {:induction false} FillFromTight(slots: seq<Bound>, groups: map<nat, seq<Match>>, k: nat)
    requires AllPlaceable(groups) && k <= |slots|
    ensures Tight(FillFrom(slots, groups, k).buckets)
  {
    hide PlaceMatches, Placeable, SeenBefore, Contributes;
    if k > 0 {
      FillFromTight(slots, groups, k - 1);
      PlaceMatchesTight(FillFrom(slots, groups, k - 1).buckets, slots, k - 1, Group(groups, slots[k - 1].pipeline));
    }
  }

  lemma {:induction false} SlotsAgree(f: Filling, slots: seq<Bound>, origins: Origins, c: Command, n: nat)
    requires |f.buckets| == |slots| && n <= |slots| && Tight(f.buckets)
    requires BucketsOk(f, slots, origins, c, |slots|) && CountOk(f, slots) && FixedThunks(slots, origins, c)
    ensures Agree(WalkSlots(slots, f.buckets, f.contributing > 1, n), ScanSlots(slots, origins, c, n),
                  f.contributing > 1)
  {
    hide WalkBucket, ScanList, BucketsOk, CountOk, FixedThunks;
    if n > 0 {
      var o := OriginOf(origins, slots[n - 1]);
      SlotsAgree(f, slots, origins, c, n - 1);
      BucketAgrees(f, slots, origins, c, n - 1, |o.list|);
      BucketWithinList(f, slots, origins, c, n - 1);
      WalkBeyond(WalkSlots(slots, f.buckets, f.contributing > 1, n - 1), f.buckets[n - 1], slots[n - 1],
                 f.contributing > 1, |o.list|);
    }
  }

  // The calls of the prepared index, sorted into buckets, are those of the naive scan.
  ghost function IndexedCalls(slots: seq<Bound>, groups: map<nat, seq<Match>>): seq<Call>
    requires AllPlaceable(groups)
  {
    var f := FillFrom(slots, groups, |slots|);
    WalkSlots(slots, f.buckets, f.contributing > 1, |slots|).calls
  }

  lemma IndexIsNaiveScan(slots: seq<Bound>, groups: map<nat, seq<Match>>, origins: Origins, c: Command)
    requires WellBound(slots) && AllIndexed(groups, c, origins) && FixedThunks(slots, origins, c)
    ensures AllPlaceable(groups) && IndexedCalls(slots, groups) == ScanSlots(slots, origins, c, |slots|).calls
  {
    hide AllIndexed, AllPlaceable, FixedThunks, BucketsOk, CountOk, FillFrom, Tight, ScanSlots, WalkSlots;
    IndexedPlaceable(groups, c, origins);
    FillFromOk(slots, groups, origins, c, |slots|);
    FillFromTight(slots, groups, |slots|);
    SlotsAgree(FillFrom(slots, groups, |slots|), slots, origins, c, |slots|);
  }

  // ---- Registrations removed since a pipeline was prepared ----

  type Table = map<nat, seq<Registration>>

  function ListOf(table: Table, hash: nat): seq<Registration> {
    if hash in table then table[hash] else []
  }

  function Kept(list: seq<Registration>, removed: set<nat>): seq<Registration> {
    if list == [] then []
    else
      var last := list[|list| - 1];
      var kept := Kept(list[..|list| - 1], removed);
      if last.callback.identity in removed then kept else kept + [last]
  }

  // The table still holds what each shader matched against, but for identities unregistered since.
  ghost predicate OnlyRemoved(origins: Origins, table: Table) {
    forall k <- origins :: ListOf(table, origins[k].hash) == Kept(origins[k].list, origins[k].removed)
  }

  // What the shaders would match against now.
  function Today(origins: Origins, table: Table): Origins {
    map k <- origins :: origins[k].(list := ListOf(table, origins[k].hash), removed := {})
  }

  lemma KeptLast(list: seq<Registration>, p: nat, removed: set<nat>)
    requires 0 < p <= |list|
    ensures Kept(list[..p], removed) ==
            if list[p - 1].callback.identity in removed then Kept(list[..p - 1], removed)
            else Kept(list[..p - 1], removed) + [list[p - 1]]
  {
    assert list[..p][..p - 1] == list[..p - 1];
  }

  // A registration that is still there counts for the scan as it does in the filtered list.
  lemma ScanNext(s: Scan, o: Origin, o': Origin, c: Command, b: Bound, p: nat, q: nat)
    requires p < |o.list| && q < |o'.list| && o.list[p] == o'.list[q] && o'.removed == {}
    requires o.list[p].callback.identity !in o.removed && o'.hash == o.hash && o'.details == o.details
    requires ScanList(s, o, c, b, p) == ScanList(s, o', c, b, q)
    ensures ScanList(s, o, c, b, p + 1) == ScanList(s, o', c, b, q + 1)
  {
  }

  lemma ScanSkips(s: Scan, o: Origin, c: Command, b: Bound, p: nat)
    requires p < |o.list| && o.list[p].callback.identity in o.removed
    ensures ScanList(s, o, c, b, p + 1) == ScanList(s, o, c, b, p)
  {
  }

  lemma {:induction false} ScanKept(s: Scan, o: Origin, c: Command, b: Bound, p: nat)
    requires p <= |o.list|
    ensures var kept := Kept(o.list[..p], o.removed);
            ScanList(s, o.(list := kept, removed := {}), c, b, |kept|) == ScanList(s, o, c, b, p)
  {
    if p > 0 {
      ScanKept(s, o, c, b, p - 1);
      var kept := Kept(o.list[..p - 1], o.removed);
      KeptLast(o.list, p, o.removed);
      hide Kept, ScanList;
      if o.list[p - 1].callback.identity in o.removed {
        ScanSkips(s, o, c, b, p - 1);
      } else {
        var longer := o.(list := kept + [o.list[p - 1]], removed := {});
        ScanPrefix(s, o.(list := kept, removed := {}), longer, c, b, |kept|);
        ScanNext(s, o, longer, c, b, p - 1, |kept|);
      }
    }
  }

  lemma {:induction false} ScanPrefix(s: Scan, o: Origin, o': Origin, c: Command, b: Bound, p: nat)
    requires p <= |o.list| && o.list <= o'.list && o'.removed == o.removed && o'.hash == o.hash
             && o'.details == o.details
    ensures ScanList(s, o, c, b, p) == ScanList(s, o', c, b, p)
  {
    if p > 0 { ScanPrefix(s, o, o', c, b, p - 1); }
  }

  // The scan of the lists as they are now is the scan that skips what was unregistered.
  lemma {:induction false} ScanToday(slots: seq<Bound>, origins: Origins, table: Table, c: Command, n: nat)
    requires n <= |slots| && OnlyRemoved(origins, table)
    ensures ScanSlots(slots, Today(origins, table), c, n) == ScanSlots(slots, origins, c, n)
  {
    hide ScanList;
    if n > 0 {
      ScanToday(slots, origins, table, c, n - 1);
      var o := OriginOf(origins, slots[n - 1]);
      ScanKept(ScanSlots(slots, origins, c, n - 1), o, c, slots[n - 1], |o.list|);
      assert o.list[..|o.list|] == o.list;
    }
  }
}
