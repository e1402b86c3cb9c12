// The cache of descriptor tables: threads look up, allocate and publish, and layouts are freed, in any
// interleaving. The cache's own operations are atomic, as the map locks around them.
module DescriptorCache {

  // Per layout the tables of its parameters; 0 is no table.
  type Cache = map<nat, seq<nat>>

  function Lookup(cache: Cache, layout: nat, param: nat): nat {
    if layout in cache && param < |cache[layout]| then cache[layout][param] else 0
  }

  function Grown(tables: seq<nat>, param: nat): (r: seq<nat>)
    ensures param < |r| && |tables| <= |r|
    ensures forall p :: 0 <= p < |r| ==> r[p] == if p < |tables| then tables[p] else 0
  {
    if param < |tables| then tables else tables + seq(param + 1 - |tables|, _ => 0)
  }

  // The table stays out when another one is there already.
  function Publish(cache: Cache, layout: nat, param: nat, table: nat): Cache {
    var tables := Grown(if layout in cache then cache[layout] else [], param);
    cache[layout := if tables[param] != 0 then tables else tables[param := table]]
  }

  class Tables {
    var cache: Cache

    constructor ()
      ensures cache == map[]
    {
      cache := map[];
    }

    method GetAllocatedDescriptorTable(layout: nat, param: nat) returns (table: nat)
      ensures table == if layout == 0 then 0 else Lookup(cache, layout, param)
    {
      table := 0;
      if layout == 0 { return; }
      if layout in cache && param < |cache[layout]| { table := cache[layout][param]; }
    }

    // Returns the table that the cache holds from now on, and whether it is the one offered.
    method PublishTable(layout: nat, param: nat, table: nat) returns (cached: nat, published: bool)
      requires table != 0
      modifies this
      ensures cache == Publish(old(cache), layout, param, table)
      ensures cached == Lookup(cache, layout, param) && cached != 0
      ensures published == (Lookup(old(cache), layout, param) == 0) && (published ==> cached == table)
    {
      cached, published := table, false;
      if layout in cache {
        var tables := cache[layout];
        if |tables| <= param { tables := tables + seq(param + 1 - |tables|, _ => 0); }
        if tables[param] != 0 {
          cached := tables[param];
        } else {
          tables := tables[param := table];
          published := true;
        }
        assert tables ==
               if published then Grown(old(cache)[layout], param)[param := table]
               else Grown(old(cache)[layout], param);
        cache := cache[layout := tables];
      } else {
        var tables := seq(param + 1, _ => 0);
        assert tables == Grown([], param);
        cache := cache[layout := tables[param := table]];
        published := true;
      }
    }

    // The tables to free, in order.
    method EraseLayout(layout: nat) returns (freed: seq<nat>)
      modifies this
      ensures cache == old(cache) - {layout}
      ensures freed == Valid(if layout in old(cache) then old(cache)[layout] else [])
    {
      freed := [];
      if layout !in cache { return; }
      var tables := cache[layout];
      var p := 0;
      while p < |tables|
        invariant p <= |tables| && freed == Valid(tables[..p]) && cache == old(cache)
      {
        assert tables[..p + 1][..p] == tables[..p];
        if tables[p] != 0 { freed := freed + [tables[p]]; }
        p := p + 1;
      }
      assert tables[..p] == tables;
      cache := cache - {layout};
    }
  }

  function Valid(tables: seq<nat>): seq<nat> {
    if tables == [] then []
    else if tables[|tables| - 1] != 0 then Valid(tables[..|tables| - 1]) + [tables[|tables| - 1]]
    else Valid(tables[..|tables| - 1])
  }

  // ---- Threads ----

  // A lookup under way: missed, with a table of its own, or with one to give back.
  datatype Call =
    | Missed(layout: nat, param: nat)
    | Allocated(layout: nat, param: nat, table: nat)
    | Losing(table: nat)

  // What a caller gets, and how often the layout had been freed when that was decided.
  datatype Result = Result(layout: nat, param: nat, epoch: nat, table: nat)

  // Where a table is: with its allocator, in the cache, given back, or freed with its layout.
  datatype Place = With(thread: nat) | Cached(layout: nat, param: nat) | GivenBack | Freed

  datatype State = State(
    cache: Cache,
    calls: map<nat, Call>,
    epochs: map<nat, nat>,
    results: seq<Result>,
    // For every table ever allocated (table t at index t - 1):
    publications: seq<nat>,
    frees: seq<nat>,
    places: seq<Place>
  ) {
    function Epoch(layout: nat): nat {
      if layout in epochs then epochs[layout] else 0
    }
  }

  datatype Action =
    | Begin(thread: nat, layout: nat, param: nat)
    | Allocate(thread: nat, ok: bool)
    | PublishStep(thread: nat)
    | GiveBack(thread: nat)
    | FreeLayout(layout: nat)

  const START := State(map[], map[], map[], [], [], [], [])

  // Lookup, which may answer at once.
  function BeginCall(s: State, thread: nat, layout: nat, param: nat): State {
    if thread in s.calls || layout == 0 then s
    else if Lookup(s.cache, layout, param) != 0
    then s.(results := s.results + [Result(layout, param, s.Epoch(layout), Lookup(s.cache, layout, param))])
    else s.(calls := s.calls[thread := Missed(layout, param)])
  }

  // The driver fails or hands out a new table.
  function AllocateTable(s: State, thread: nat, ok: bool): State {
    if thread !in s.calls || !s.calls[thread].Missed? then s
    else if !ok then s.(calls := s.calls - {thread})
    else
      var c := s.calls[thread];
      s.(calls := s.calls[thread := Allocated(c.layout, c.param, |s.frees| + 1)],
         publications := s.publications + [0], frees := s.frees + [0], places := s.places + [With(thread)])
  }

  function PublishTable(s: State, thread: nat): State {
    if thread !in s.calls || !s.calls[thread].Allocated? then s
    else
      var c := s.calls[thread];
      var cache := Publish(s.cache, c.layout, c.param, c.table);
      var s' := s.(cache := cache,
                   results := s.results + [Result(c.layout, c.param, s.Epoch(c.layout),
                                                  Lookup(cache, c.layout, c.param))]);
      if Lookup(s.cache, c.layout, c.param) != 0 then s'.(calls := s.calls[thread := Losing(c.table)])
      else if 0 < c.table <= |s.publications| && |s.publications| == |s.places| then
        s'.(calls := s.calls - {thread},
            publications := s.publications[c.table - 1 := s.publications[c.table - 1] + 1],
            places := s.places[c.table - 1 := Cached(c.layout, c.param)])
      else s'
  }

  function GiveTableBack(s: State, thread: nat): State {
    if thread !in s.calls || !s.calls[thread].Losing? then s
    else
      var t := s.calls[thread].table;
      if 0 < t <= |s.frees| && |s.frees| == |s.places| then
        s.(calls := s.calls - {thread}, frees := s.frees[t - 1 := s.frees[t - 1] + 1],
           places := s.places[t - 1 := GivenBack])
      else s
  }

  function Occurrences(tables: seq<nat>, t: nat): nat {
    if tables == [] then 0
    else Occurrences(tables[..|tables| - 1], t) + if tables[|tables| - 1] == t then 1 else 0
  }

  // Every table listed for the layout is freed as often as it is listed.
  function FreeTables(s: State, layout: nat): State {
    var tables := if layout in s.cache then s.cache[layout] else [];
    s.(cache := s.cache - {layout}, epochs := s.epochs[layout := s.Epoch(layout) + 1],
       frees := seq(|s.frees|, i requires 0 <= i < |s.frees| => s.frees[i] + Occurrences(tables, i + 1)),
       places := seq(|s.places|, i requires 0 <= i < |s.places| => if i + 1 in tables then Freed else s.places[i]))
  }

  lemma {:induction false} ValidOccurs(tables: seq<nat>, t: nat)
    requires t != 0
    ensures Occurrences(Valid(tables), t) == Occurrences(tables, t)
    decreases |tables|
  {
    if tables != [] {
      var front, last := tables[..|tables| - 1], tables[|tables| - 1];
      ValidOccurs(front, t);
      assert (Valid(front) + [last])[..|Valid(front)|] == Valid(front);
    }
  }

  // The step frees every table as often as the list that EraseLayout frees contains it, and no other.
  lemma FreesErased(s: State, layout: nat, i: nat)
    requires i < |s.frees|
    ensures var freed := Valid(if layout in s.cache then s.cache[layout] else []);
            var s' := FreeTables(s, layout);
            s'.cache == s.cache - {layout} && |s'.frees| == |s.frees|
              && s'.frees[i] == s.frees[i] + Occurrences(freed, i + 1)
  {
    ValidOccurs(if layout in s.cache then s.cache[layout] else [], i + 1);
  }

  function Act(s: State, a: Action): State {
    match a
    case Begin(thread, layout, param) => BeginCall(s, thread, layout, param)
    case Allocate(thread, ok) => AllocateTable(s, thread, ok)
    case PublishStep(thread) => PublishTable(s, thread)
    case GiveBack(thread) => GiveTableBack(s, thread)
    case FreeLayout(layout) => FreeTables(s, layout)
  }

  function Run(s: State, actions: seq<Action>): State
    decreases |actions|
  {
    if actions == [] then s else Run(Act(s, actions[0]), actions[1..])
  }

  // ---- What every state satisfies ----

  ghost predicate HeldBy(s: State, thread: nat, t: nat) {
    thread in s.calls && !s.calls[thread].Missed? && s.calls[thread].table == t
  }

  ghost predicate At(s: State, t: nat, place: Place) {
    0 < t <= |s.places| && s.places[t - 1] == place
  }

  ghost predicate PlacesOk(s: State) {
    && |s.frees| == |s.publications| == |s.places|
    && (forall thread: nat, t: nat :: HeldBy(s, thread, t) <==> At(s, t, With(thread)))
    && (forall layout: nat, param: nat, t: nat ::
          t != 0 && Lookup(s.cache, layout, param) == t <==> At(s, t, Cached(layout, param)))
  }

  // Published at most once and freed at most once, as the place says.
  ghost predicate CountsOk(s: State) {
    && |s.frees| == |s.publications| == |s.places|
    && forall i :: 0 <= i < |s.places| ==>
         && s.publications[i] == (if s.places[i].Cached? || s.places[i].Freed? then 1 else 0)
         && s.frees[i] == (if s.places[i].GivenBack? || s.places[i].Freed? then 1 else 0)
  }

  ghost predicate ResultsOk(s: State) {
    && (forall i :: 0 <= i < |s.results| ==>
          && s.results[i].table != 0 && s.results[i].epoch <= s.Epoch(s.results[i].layout)
          && (s.results[i].epoch == s.Epoch(s.results[i].layout) ==>
                Lookup(s.cache, s.results[i].layout, s.results[i].param) == s.results[i].table))
    && (forall i, j :: 0 <= i < j < |s.results| && SameRequest(s.results[i], s.results[j]) ==>
          s.results[i].table == s.results[j].table)
  }

  predicate SameRequest(a: Result, b: Result) {
    a.layout == b.layout && a.param == b.param && a.epoch == b.epoch
  }

  ghost predicate Inv(s: State) {
    PlacesOk(s) && CountsOk(s) && ResultsOk(s)
  }

  lemma PublishedLookup(cache: Cache, layout: nat, param: nat, table: nat, l: nat, p: nat)
    ensures Lookup(Publish(cache, layout, param, table), l, p) ==
            if l == layout && p == param && Lookup(cache, l, p) == 0 then table else Lookup(cache, l, p)
  {
  }

  lemma AddResult(s: State, r: Result)
    requires ResultsOk(s) && r.epoch == s.Epoch(r.layout) && r.table == Lookup(s.cache, r.layout, r.param) != 0
    ensures ResultsOk(s.(results := s.results + [r]))
  {
    hide Lookup;
    var s' := s.(results := s.results + [r]);
    forall i, j | 0 <= i < j < |s'.results| && SameRequest(s'.results[i], s'.results[j])
      ensures s'.results[i].table == s'.results[j].table
    {
      if j < |s.results| { assert SameRequest(s.results[i], s.results[j]); }
    }
  }

  // Results stay right while no table of the cache is replaced.
  lemma ResultsStay(s: State, s': State)
    requires ResultsOk(s) && s'.results == s.results && s'.epochs == s.epochs
    requires forall l: nat, p: nat :: Lookup(s.cache, l, p) != 0 ==> Lookup(s'.cache, l, p) == Lookup(s.cache, l, p)
    ensures ResultsOk(s')
  {
    hide Lookup;
  }

  lemma BeginKeeps(s: State, thread: nat, layout: nat, param: nat)
    requires Inv(s)
    ensures Inv(BeginCall(s, thread, layout, param))
  {
    hide Lookup, ResultsOk;
    var s' := BeginCall(s, thread, layout, param);
    if thread !in s.calls && layout != 0 {
      if Lookup(s.cache, layout, param) != 0 {
        AddResult(s, Result(layout, param, s.Epoch(layout), Lookup(s.cache, layout, param)));
      } else {
        ResultsStay(s, s');
      }
      forall k: nat, t: nat ensures HeldBy(s', k, t) <==> At(s', t, With(k)) {
        assert HeldBy(s', k, t) == HeldBy(s, k, t) && At(s', t, With(k)) == At(s, t, With(k));
      }
      forall l: nat, p: nat, t: nat ensures t != 0 && Lookup(s'.cache, l, p) == t <==> At(s', t, Cached(l, p)) {
        assert At(s', t, Cached(l, p)) == At(s, t, Cached(l, p));
      }
    }
  }

  lemma AllocateKeeps(s: State, thread: nat, ok: bool)
    requires Inv(s)
    ensures Inv(AllocateTable(s, thread, ok))
  {
    hide Lookup, ResultsOk;
    var s' := AllocateTable(s, thread, ok);
    ResultsStay(s, s');
    var mine := |s.frees| + 1;
    if thread in s.calls && s.calls[thread].Missed? {
      forall k: nat, t: nat ensures HeldBy(s', k, t) <==> At(s', t, With(k)) {
        assert HeldBy(s', k, t) == (HeldBy(s, k, t) || (ok && k == thread && t == mine));
        assert At(s', t, With(k)) == (At(s, t, With(k)) || (ok && k == thread && t == mine));
      }
      forall l: nat, p: nat, t: nat ensures t != 0 && Lookup(s'.cache, l, p) == t <==> At(s', t, Cached(l, p)) {
        assert At(s', t, Cached(l, p)) == At(s, t, Cached(l, p));
      }
    }
  }

  // The thread lets go of its table, which moves to another place.
  lemma TableMoves(s: State, s': State, thread: nat, mine: nat, place: Place)
    requires PlacesOk(s) && HeldBy(s, thread, mine) && !place.With?
    requires s'.calls == s.calls - {thread} && |s'.places| == |s.places| && s'.places == s.places[mine - 1 := place]
    ensures forall k: nat, t: nat :: HeldBy(s', k, t) <==> At(s', t, With(k))
  {
    hide Lookup;
    assert At(s, mine, With(thread));
    forall k: nat, t: nat ensures HeldBy(s', k, t) <==> At(s', t, With(k)) {
      assert HeldBy(s', k, t) == (HeldBy(s, k, t) && k != thread);
      assert At(s', t, With(k)) == (At(s, t, With(k)) && t != mine);
      assert HeldBy(s, k, mine) ==> At(s, mine, With(k));
    }
  }

  lemma PublishKeeps(s: State, thread: nat)
    requires Inv(s)
    ensures Inv(PublishTable(s, thread))
  {
    hide Lookup, Publish, ResultsOk;
    if thread in s.calls && s.calls[thread].Allocated? {
      var c, s' := s.calls[thread], PublishTable(s, thread);
      assert HeldBy(s, thread, c.table);
      assert At(s, c.table, With(thread));
      forall l: nat, p: nat
        ensures Lookup(s'.cache, l, p) ==
                if l == c.layout && p == c.param && Lookup(s.cache, l, p) == 0 then c.table else Lookup(s.cache, l, p)
      {
        PublishedLookup(s.cache, c.layout, c.param, c.table, l, p);
      }
      ResultsStay(s, s'.(results := s.results));
      AddResult(s'.(results := s.results),
                Result(c.layout, c.param, s.Epoch(c.layout), Lookup(s'.cache, c.layout, c.param)));
      ResultsStay(s'.(results := s.results).(results := s'.results), s');
      if Lookup(s.cache, c.layout, c.param) != 0 {
        LosingKeeps(s, s', thread);
      } else {
        TableMoves(s, s', thread, c.table, Cached(c.layout, c.param));
        forall l: nat, p: nat, t: nat ensures t != 0 && Lookup(s'.cache, l, p) == t <==> At(s', t, Cached(l, p)) {
          assert At(s', t, Cached(l, p)) ==
                   if t == c.table then l == c.layout && p == c.param else At(s, t, Cached(l, p));
          assert Lookup(s.cache, l, p) == c.table ==> At(s, c.table, Cached(l, p));
        }
      }
    }
  }

  // A thread that lost the race still holds its table.
  lemma LosingKeeps(s: State, s': State, thread: nat)
    requires PlacesOk(s) && thread in s.calls && s.calls[thread].Allocated?
    requires s'.calls == s.calls[thread := Losing(s.calls[thread].table)]
    requires s'.places == s.places && s'.frees == s.frees && s'.publications == s.publications
    requires forall l: nat, p: nat :: Lookup(s'.cache, l, p) == Lookup(s.cache, l, p)
    ensures PlacesOk(s')
  {
    hide Lookup;
    forall k: nat, t: nat ensures HeldBy(s', k, t) <==> At(s', t, With(k)) {
      assert HeldBy(s', k, t) == HeldBy(s, k, t) && At(s', t, With(k)) == At(s, t, With(k));
    }
    forall l: nat, p: nat, t: nat ensures t != 0 && Lookup(s'.cache, l, p) == t <==> At(s', t, Cached(l, p)) {
      assert At(s', t, Cached(l, p)) == At(s, t, Cached(l, p));
    }
  }

  lemma GiveBackKeeps(s: State, thread: nat)
    requires Inv(s)
    ensures Inv(GiveTableBack(s, thread))
  {
    hide Lookup, ResultsOk;
    if thread in s.calls && s.calls[thread].Losing? {
      var t0, s' := s.calls[thread].table, GiveTableBack(s, thread);
      assert HeldBy(s, thread, t0);
      assert At(s, t0, With(thread));
      ResultsStay(s, s');
      TableMoves(s, s', thread, t0, GivenBack);
      forall l: nat, p: nat, t: nat ensures t != 0 && Lookup(s'.cache, l, p) == t <==> At(s', t, Cached(l, p)) {
        assert At(s', t, Cached(l, p)) == At(s, t, Cached(l, p));
      }
    }
  }

  lemma {:induction false} OccursOnce(tables: seq<nat>, t: nat)
    ensures Occurrences(tables, t) > 0 <==> t in tables
    ensures (forall p, q :: 0 <= p < q < |tables| ==> !(tables[p] == t && tables[q] == t)) ==>
              Occurrences(tables, t) <= 1
  {
    if tables != [] {
      OccursOnce(tables[..|tables| - 1], t);
      assert tables == tables[..|tables| - 1] + [tables[|tables| - 1]];
    }
  }

  // A layout lists each of its tables once, and those are exactly the tables that are in its place.
  lemma ListedOnce(s: State, layout: nat, t: nat)
    requires PlacesOk(s) && t != 0
    ensures var tables := if layout in s.cache then s.cache[layout] else [];
            && Occurrences(tables, t) == (if t in tables then 1 else 0)
            && (t in tables <==> t <= |s.places| && s.places[t - 1].Cached? && s.places[t - 1].layout == layout)
  {
    var tables := if layout in s.cache then s.cache[layout] else [];
    OccursOnce(tables, t);
    forall p | 0 <= p < |tables| && tables[p] == t ensures At(s, t, Cached(layout, p)) {
      assert Lookup(s.cache, layout, p) == t;
    }
    if t <= |s.places| && s.places[t - 1].Cached? && s.places[t - 1].layout == layout {
      assert At(s, t, Cached(layout, s.places[t - 1].param));
      assert Lookup(s.cache, layout, s.places[t - 1].param) == t;
    }
  }

  lemma FreedFields(s: State, layout: nat)
    ensures var s' := FreeTables(s, layout);
            && |s'.frees| == |s.frees| && |s'.places| == |s.places| && s'.publications == s.publications
            && s'.calls == s.calls && s'.results == s.results && s'.epochs == s.epochs[layout := s.Epoch(layout) + 1]
  {
    hide Occurrences;
  }

  lemma FreedAt(s: State, layout: nat, i: nat)
    requires i < |s.places| == |s.frees|
    ensures var tables := if layout in s.cache then s.cache[layout] else [];
            && FreeTables(s, layout).frees[i] == s.frees[i] + Occurrences(tables, i + 1)
            && FreeTables(s, layout).places[i] == if i + 1 in tables then Freed else s.places[i]
  {
    hide Occurrences;
  }

  lemma FreeKeeps(s: State, layout: nat)
    requires Inv(s)
    ensures Inv(FreeTables(s, layout))
  {
    hide Lookup, Occurrences, CountsOk, PlacesOk, ResultsOk, FreeTables;
    FreedFields(s, layout);
    var s' := FreeTables(s, layout);
    var tables := if layout in s.cache then s.cache[layout] else [];
    forall l: nat, p: nat ensures Lookup(s'.cache, l, p) == if l == layout then 0 else Lookup(s.cache, l, p) {
      FreedLookup(s, layout, l, p);
    }
    FreedResults(s, s', layout);
    FreedCounts(s, layout);
    PlacesSizes(s);
    forall i | 0 <= i < |s.places|
      ensures i + 1 in tables <==> s.places[i].Cached? && s.places[i].layout == layout
      ensures s'.places[i] == if i + 1 in tables then Freed else s.places[i]
    {
      ListedOnce(s, layout, i + 1);
      FreedAt(s, layout, i);
    }
    FreedPlaces(s, s', layout, tables);
  }

  lemma PlacesSizes(s: State)
    requires PlacesOk(s)
    ensures |s.frees| == |s.publications| == |s.places|
  {
  }

  lemma FreedLookup(s: State, layout: nat, l: nat, p: nat)
    ensures Lookup(FreeTables(s, layout).cache, l, p) == if l == layout then 0 else Lookup(s.cache, l, p)
  {
  }

  lemma FreedCounts(s: State, layout: nat)
    requires PlacesOk(s) && CountsOk(s)
    ensures CountsOk(FreeTables(s, layout))
  {
    hide Lookup, Occurrences, FreeTables, PlacesOk;
    FreedFields(s, layout);
    var s' := FreeTables(s, layout);
    forall i | 0 <= i < |s.places|
      ensures s'.publications[i] == (if s'.places[i].Cached? || s'.places[i].Freed? then 1 else 0)
      ensures s'.frees[i] == (if s'.places[i].GivenBack? || s'.places[i].Freed? then 1 else 0)
    {
      ListedOnce(s, layout, i + 1);
      FreedAt(s, layout, i);
    }
  }

  lemma FreedResults(s: State, s': State, layout: nat)
    requires ResultsOk(s) && s'.results == s.results && s'.epochs == s.epochs[layout := s.Epoch(layout) + 1]
    requires forall l: nat, p: nat :: Lookup(s'.cache, l, p) == if l == layout then 0 else Lookup(s.cache, l, p)
    ensures ResultsOk(s')
  {
    hide Lookup;
  }

  lemma FreedPlaces(s: State, s': State, layout: nat, tables: seq<nat>)
    requires PlacesOk(s) && |s'.places| == |s.places| == |s'.frees| == |s'.publications| && s'.calls == s.calls
    requires forall l: nat, p: nat :: Lookup(s'.cache, l, p) == if l == layout then 0 else Lookup(s.cache, l, p)
    requires forall i :: 0 <= i < |s.places| ==> s'.places[i] == if i + 1 in tables then Freed else s.places[i]
    requires forall i :: 0 <= i < |s.places| ==>
               (i + 1 in tables <==> s.places[i].Cached? && s.places[i].layout == layout)
    ensures PlacesOk(s')
  {
    hide Lookup;
    forall k: nat, t: nat ensures HeldBy(s', k, t) <==> At(s', t, With(k)) {
      assert HeldBy(s', k, t) == HeldBy(s, k, t) && At(s', t, With(k)) == At(s, t, With(k));
    }
    forall l: nat, p: nat, t: nat ensures t != 0 && Lookup(s'.cache, l, p) == t <==> At(s', t, Cached(l, p)) {
      assert At(s', t, Cached(l, p)) == (At(s, t, Cached(l, p)) && l != layout);
    }
  }

  lemma ActKeeps(s: State, a: Action)
    requires Inv(s)
    ensures Inv(Act(s, a))
  {
    hide Inv;
    match a
    case Begin(thread, layout, param) => BeginKeeps(s, thread, layout, param);
    case Allocate(thread, ok) => AllocateKeeps(s, thread, ok);
    case PublishStep(thread) => PublishKeeps(s, thread);
    case GiveBack(thread) => GiveBackKeeps(s, thread);
    case FreeLayout(layout) => FreeKeeps(s, layout);
  }

  lemma {:induction false} RunKeeps(s: State, actions: seq<Action>)
    requires Inv(s)
    ensures Inv(Run(s, actions))
    decreases |actions|
  {
    hide Inv, Act;
    if actions != [] {
      ActKeeps(s, actions[0]);
      RunKeeps(Act(s, actions[0]), actions[1..]);
    }
  }

  lemma Reached(actions: seq<Action>)
    ensures Inv(Run(START, actions))
  {
    RunKeeps(START, actions);
  }

  // ---- What every interleaving guarantees ----

  // Every table is published at most once and freed at most once; freed without having been published it was
  // given back by its allocator, freed after publication it went with its layout.
  lemma TablesOnce(actions: seq<Action>, i: nat)
    requires i < |Run(START, actions).places|
    ensures var s := Run(START, actions);
            && i < |s.publications| && i < |s.frees| && s.publications[i] <= 1 && s.frees[i] <= 1
            && (s.frees[i] == 1 <==> s.places[i].GivenBack? || s.places[i].Freed?)
            && (s.publications[i] == 0 && s.frees[i] == 1 <==> s.places[i].GivenBack?)
  {
    hide Run, Act;
    Reached(actions);
  }

  // Once no lookup is under way every table was either published or given back by its allocator, not both;
  // and one that is neither cached nor freed does not exist.
  lemma NoTableLost(actions: seq<Action>, i: nat)
    requires i < |Run(START, actions).places| && Run(START, actions).calls == map[]
    ensures var s := Run(START, actions);
            && i < |s.publications| && i < |s.frees|
            && (s.publications[i] == 1 <==> !s.places[i].GivenBack?)
            && (s.frees[i] == 0 ==>
                  s.places[i].Cached? && Lookup(s.cache, s.places[i].layout, s.places[i].param) == i + 1)
  {
    hide Run, Act;
    Reached(actions);
    var s := Run(START, actions);
    if s.places[i].With? { HeldInCall(s, i); }
    if s.places[i].Cached? { assert At(s, i + 1, Cached(s.places[i].layout, s.places[i].param)); }
  }

  lemma HeldInCall(s: State, i: nat)
    requires PlacesOk(s) && i < |s.places| && s.places[i].With?
    ensures s.places[i].thread in s.calls
  {
    assert At(s, i + 1, With(s.places[i].thread));
  }

  // Between two frees of a layout all callers get the same table for the same parameter.
  lemma SameTableForAll(actions: seq<Action>, i: nat, j: nat)
    requires i < |Run(START, actions).results| && j < |Run(START, actions).results|
    requires SameRequest(Run(START, actions).results[i], Run(START, actions).results[j])
    ensures Run(START, actions).results[i].table == Run(START, actions).results[j].table != 0
  {
    hide Run, Act;
    Reached(actions);
    var s := Run(START, actions);
    if j < i { assert SameRequest(s.results[j], s.results[i]); }
  }

  // A table is not freed while its layout's cache still serves it.
  lemma ServedTablesLive(actions: seq<Action>, layout: nat, param: nat)
    requires Lookup(Run(START, actions).cache, layout, param) != 0
    ensures var s := Run(START, actions);
            var t := Lookup(s.cache, layout, param);
            t <= |s.frees| && s.frees[t - 1] == 0
  {
    hide Run, Act, Lookup;
    Reached(actions);
    var s := Run(START, actions);
    assert At(s, Lookup(s.cache, layout, param), Cached(layout, param));
  }

  // ---- What a lookup does undisturbed ----

  // A table in the cache answers at once, for whichever thread: nothing is allocated and the cache stays as it is.
  lemma HitAnswers(s: State, thread: nat, layout: nat, param: nat)
    requires thread !in s.calls && layout != 0 && Lookup(s.cache, layout, param) != 0
    ensures Act(s, Begin(thread, layout, param)) ==
            s.(results := s.results + [Result(layout, param, s.Epoch(layout), Lookup(s.cache, layout, param))])
  {
  }

  // The four steps of a lookup that allocates.
  function Looking(thread: nat, layout: nat, param: nat): seq<Action> {
    [Begin(thread, layout, param), Allocate(thread, true), PublishStep(thread), GiveBack(thread)]
  }

  lemma RunFour(s: State, a: Action, b: Action, c: Action, d: Action)
    ensures Run(s, [a, b, c, d]) == Act(Act(Act(Act(s, a), b), c), d)
  {
    hide Act;
    RunFirst(s, a, [b, c, d]);
    RunFirst(Act(s, a), b, [c, d]);
    RunFirst(Act(Act(s, a), b), c, [d]);
    assert [a, b, c, d] == [a] + [b, c, d] && [b, c, d] == [b] + [c, d] && [c, d] == [c] + [d] && [d][1..] == [];
  }

  lemma RunFirst(s: State, a: Action, rest: seq<Action>)
    ensures Run(s, [a] + rest) == Run(Act(s, a), rest)
  {
    hide Act;
    assert ([a] + rest)[1..] == rest;
  }

  // A miss caches the newly allocated table, which is what every later lookup gets, and leaves all others alone.
  lemma MissCaches(s: State, thread: nat, layout: nat, param: nat)
    requires Inv(s) && thread !in s.calls && layout != 0 && Lookup(s.cache, layout, param) == 0
    ensures var s', t := Run(s, Looking(thread, layout, param)), |s.places| + 1;
            && s'.results == s.results + [Result(layout, param, s.Epoch(layout), t)]
            && s'.places == s.places + [Cached(layout, param)] && s'.calls == s.calls
            && forall l: nat, p: nat ::
                 Lookup(s'.cache, l, p) == if l == layout && p == param then t else Lookup(s.cache, l, p)
  {
    hide Lookup, Publish, Run, PlacesOk, ResultsOk;
    PlacesSizes(s);
    var t := |s.places| + 1;
    var c := Begin(thread, layout, param);
    RunFour(s, c, Allocate(thread, true), PublishStep(thread), GiveBack(thread));
    var s1 := Act(s, c);
    var s2 := Act(s1, Allocate(thread, true));
    assert s2.calls[thread] == Allocated(layout, param, t);
    forall l: nat, p: nat
      ensures Lookup(Publish(s.cache, layout, param, t), l, p) ==
              if l == layout && p == param then t else Lookup(s.cache, l, p)
    {
      PublishedLookup(s.cache, layout, param, t, l, p);
    }
    var s3 := Act(s2, PublishStep(thread));
    assert s3.calls == s.calls;
  }

  // A thread that finds a table published by another one meanwhile gets that one and gives its own back.
  lemma LoserGetsCached(s: State, thread: nat)
    requires Inv(s) && thread in s.calls && s.calls[thread].Allocated?
    requires Lookup(s.cache, s.calls[thread].layout, s.calls[thread].param) != 0
    ensures var s', c := Act(Act(s, PublishStep(thread)), GiveBack(thread)), s.calls[thread];
            && s'.results == s.results
               + [Result(c.layout, c.param, s.Epoch(c.layout), Lookup(s.cache, c.layout, c.param))]
            && s'.calls == s.calls - {thread} && At(s', c.table, GivenBack)
            && forall l: nat, p: nat :: Lookup(s'.cache, l, p) == Lookup(s.cache, l, p)
  {
    hide Lookup, Publish, ResultsOk;
    var c := s.calls[thread];
    forall l: nat, p: nat ensures Lookup(Publish(s.cache, c.layout, c.param, c.table), l, p) == Lookup(s.cache, l, p) {
      PublishedLookup(s.cache, c.layout, c.param, c.table, l, p);
    }
    assert HeldBy(s, thread, c.table);
    assert At(s, c.table, With(thread));
  }

  // A driver that hands out no table leaves everything as it was before the lookup.
  lemma FailureChangesNothing(s: State, thread: nat, layout: nat, param: nat)
    requires thread !in s.calls && layout != 0 && Lookup(s.cache, layout, param) == 0
    ensures Act(Act(s, Begin(thread, layout, param)), Allocate(thread, false)) == s
  {
    assert s.calls[thread := Missed(layout, param)] - {thread} == s.calls;
  }

  // Freeing a layout empties its part of the cache, frees what was in it, and touches no other layout.
  lemma FreedExactly(s: State, layout: nat, t: nat)
    requires Inv(s) && 0 < t <= |s.places|
    ensures var s' := Act(s, FreeLayout(layout));
            && (forall l: nat, p: nat :: Lookup(s'.cache, l, p) == if l == layout then 0 else Lookup(s.cache, l, p))
            && s'.Epoch(layout) == s.Epoch(layout) + 1 && |s'.places| == |s.places|
            && (s'.places[t - 1] ==
                if s.places[t - 1].Cached? && s.places[t - 1].layout == layout then Freed else s.places[t - 1])
            && |s'.frees| == |s.frees| == |s.places|
            && s'.frees[t - 1] ==
               s.frees[t - 1] + if s.places[t - 1].Cached? && s.places[t - 1].layout == layout then 1 else 0
  {
    hide Lookup, FreeTables;
    FreedFields(s, layout);
    ListedOnce(s, layout, t);
    FreedAt(s, layout, t - 1);
    forall l: nat, p: nat
      ensures Lookup(FreeTables(s, layout).cache, l, p) == if l == layout then 0 else Lookup(s.cache, l, p)
    {
      FreedLookup(s, layout, l, p);
    }
  }
}
