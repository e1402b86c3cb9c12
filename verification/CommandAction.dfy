// The shared registrations and prepared pipelines of the command-action utility, and the dispatch of one
// command with its reused buffers.
module CommandAction {
  import opened CommandProtocol
  import opened CommandIndex
  import opened CommandPrepare
  import opened CommandStages

  datatype Prepared = Prepared(groups: Groups, generation: nat)

  const COMMANDS := [Draw, DrawIndexed, Dispatch, Indirect, DispatchMesh]

  function GroupsAt(byPipeline: map<nat, Prepared>, pipeline: nat): Groups {
    if pipeline in byPipeline then byPipeline[pipeline].groups else map[]
  }

  // A second registration under the same identity, configuration and commands replaces the first.
  function Without(list: seq<Registration>, identity: nat, data: nat, mask: set<Command>): (r: seq<Registration>)
    ensures forall e <- r :: e in list
    ensures forall e <- list :: e in r <==>
            !(e.callback.identity == identity && e.callback.data == data && e.mask == mask)
  {
    if list == [] then []
    else
      var front, last := Without(list[..|list| - 1], identity, data, mask), list[|list| - 1];
      assert list == list[..|list| - 1] + [last];
      if last.callback.identity == identity && last.callback.data == data && last.mask == mask then front
      else front + [last]
  }

  // One entry for each selected command of the mask, in the order of the commands.
  function Entries(n: nat, identity: nat, data: nat, mask: set<Command>, selected: set<Command>,
                   thunk: Command -> nat): (r: seq<Registration>)
    requires n <= |COMMANDS|
    ensures forall e <- r :: e.callback.command in mask * selected
  {
    if n == 0 then []
    else
      var front := Entries(n - 1, identity, data, mask, selected, thunk);
      var c := COMMANDS[n - 1];
      if c in mask && c in selected then front + [Registration(Callback(c, thunk(c), identity, data), mask)] else front
  }

  function Updated(list: seq<Registration>, identity: nat, data: nat, mask: set<Command>, selected: set<Command>,
                   thunk: Command -> nat): seq<Registration> {
    Without(list, identity, data, mask) + Entries(|COMMANDS|, identity, data, mask, selected, thunk)
  }

  function KeptLists<K>(lists: map<K, seq<Registration>>, identity: nat): map<K, seq<Registration>> {
    map k <- lists | Kept(lists[k], {identity}) != [] :: Kept(lists[k], {identity})
  }

  function KeptGroups(groups: Groups, identity: nat): Groups {
    map c <- groups | KeptMatches(groups[c], identity) != [] :: KeptMatches(groups[c], identity)
  }

  function CommandsOf(lists: Table): set<Command> {
    set h, r | h in lists && r in lists[h] :: r.callback.command
  }

  function GlobalCalls(list: seq<Registration>): seq<Call> {
    seq(|list|, i requires 0 <= i < |list| => Call(list[i].callback, NoShader))
  }

  ghost predicate PipelineIndexed(groups: Groups, pipeline: nat, origins: Origins) {
    forall c: Command :: IndexOk(GroupOf(groups, c), pipeline, c, origins)
  }

  lemma IndexFrame(ms: seq<Match>, pipeline: nat, c: Command, origins: Origins, origins': Origins)
    requires IndexOk(ms, pipeline, c, origins)
    requires forall s: nat :: OriginOf(origins', Bound(pipeline, s)) == OriginOf(origins, Bound(pipeline, s))
    ensures IndexOk(ms, pipeline, c, origins')
  {
    hide OriginOf, FirstAt;
    forall i | 0 <= i < |ms| ensures MatchOk(ms[i], pipeline, c, origins') {
      assert MatchOk(ms[i], pipeline, c, origins);
    }
  }

  // The origins once the pipeline has been prepared anew.
  function Reinitialized(origins: Origins, renewed: Origins, pipeline: nat): Origins {
    (map k <- origins | k.0 != pipeline :: origins[k]) + renewed
  }

  lemma OtherPipelines(byPipeline: map<nat, Prepared>, origins: Origins, origins': Origins, pipeline: nat)
    requires forall p: nat :: PipelineIndexed(GroupsAt(byPipeline, p), p, origins)
    requires forall p: nat, s: nat :: p != pipeline ==>
               OriginOf(origins', Bound(p, s)) == OriginOf(origins, Bound(p, s))
    ensures forall p: nat :: p != pipeline ==> PipelineIndexed(GroupsAt(byPipeline, p), p, origins')
  {
    hide IndexOk, OriginOf;
    forall p: nat, c: Command | p != pipeline ensures IndexOk(GroupOf(GroupsAt(byPipeline, p), c), p, c, origins') {
      assert PipelineIndexed(GroupsAt(byPipeline, p), p, origins);
      IndexFrame(GroupOf(GroupsAt(byPipeline, p), c), p, c, origins, origins');
    }
  }

  class SharedData {
    var byHash: Table
    var globals: map<Command, seq<Registration>>
    var byPipeline: map<nat, Prepared>
    var shaderCommands: set<Command>
    // What the shaders of each initialized pipeline matched against.
    ghost var origins: Origins
    // Reused from command to command, with whatever earlier commands left in them.
    var stageBuckets: seq<seq<Slot>>
    var pendingResults: seq<Pending>

    ghost predicate Valid()
      reads this
    {
      && 0 !in byHash && |stageBuckets| == STAGE_COUNT
      && CommandsOf(byHash) <= shaderCommands
      && forall p: nat :: PipelineIndexed(GroupsAt(byPipeline, p), p, origins)
    }

    constructor ()
      ensures Valid() && OnlyRemoved(origins, byHash) && origins == map[] && byHash == map[] && globals == map[]
    {
      byHash, globals, byPipeline, shaderCommands, origins := map[], map[], map[], {}, map[];
      stageBuckets, pendingResults := seq(STAGE_COUNT, _ => []), [];
      new;
      forall p: nat ensures PipelineIndexed(GroupsAt(byPipeline, p), p, origins) {
        NothingIndexed(p, 0);
      }
    }

    // Adds the callback to the list of one shader hash or, for hash 0, to the global list of each command.
    method RegisterCallback(identity: nat, data: nat, needsData: bool, hash: nat, requested: set<Command>,
                            supported: set<Command>, thunk: Command -> nat)
      requires Valid()
      modifies this`byHash, this`globals, this`shaderCommands
      ensures Valid()
      ensures var mask := requested * supported;
              var accepted := mask != {} && (needsData ==> data != 0);
              && byHash == (if accepted && hash != 0
                            then old(byHash)[hash :=
                                   Updated(ListOf(old(byHash), hash), identity, data, mask, mask, thunk)]
                            else old(byHash))
              && forall c: Command ::
                   GlobalList(globals, c) ==
                   if accepted && hash == 0 && c in mask
                   then Updated(GlobalList(old(globals), c), identity, data, mask, {c}, thunk)
                   else GlobalList(old(globals), c)
      ensures (forall k <- origins :: origins[k].hash != hash) && OnlyRemoved(origins, old(byHash)) ==>
                OnlyRemoved(origins, byHash)
    {
      hide PipelineIndexed, Updated, CommandsOf;
      var mask := requested * supported;
      if (needsData && data == 0) || mask == {} { return; }
      if hash == 0 {
        var i := 0;
        while i < |COMMANDS|
          invariant i <= |COMMANDS| && byHash == old(byHash) && shaderCommands == old(shaderCommands)
          invariant globals == WithGlobals(old(globals), i, identity, data, mask, thunk)
        {
          var c := COMMANDS[i];
          if c in mask {
            globals := globals[c := Updated(GlobalList(globals, c), identity, data, mask, {c}, thunk)];
          }
          i := i + 1;
        }
        forall c: Command
          ensures GlobalList(globals, c) ==
                  if c in mask then Updated(GlobalList(old(globals), c), identity, data, mask, {c}, thunk)
                  else GlobalList(old(globals), c)
        {
          GlobalsAt(old(globals), identity, data, mask, thunk, c);
        }
        return;
      }
      byHash := byHash[hash := Updated(ListOf(byHash, hash), identity, data, mask, mask, thunk)];
      shaderCommands := shaderCommands + mask;
      UpdatedCommands(old(byHash), hash, identity, data, mask, thunk);
    }

    // Builds the index of a pipeline from the lists of its shaders, or drops it when nothing matches.
    method OnInitPipeline(pipeline: nat, generation: nat, details: nat, shaders: seq<Shader>)
      requires Valid() && OnlyRemoved(origins, byHash) && OneShaderPerStage(shaders)
      modifies this`byPipeline, this`origins
      ensures Valid() && OnlyRemoved(origins, byHash)
      ensures origins == Reinitialized(old(origins), MatchedLists(shaders, pipeline, details, byHash, |shaders|),
                                       pipeline)
      ensures GroupsAt(byPipeline, pipeline) == Prepare(shaders, byHash, details, |shaders|)
      ensures forall p: nat :: p != pipeline ==> GroupsAt(byPipeline, p) == GroupsAt(old(byPipeline), p)
    {
      hide PipelineIndexed, MatchedLists, AddTo, OnlyRemoved, CommandsOf, AllTidy, Reinitialized, OneShaderPerStage;
      var groups: Groups := map[];
      var k := 0;
      while k < |shaders|
        invariant k <= |shaders| && byPipeline == old(byPipeline) && origins == old(origins)
        invariant groups == Prepare(shaders, byHash, details, k)
      {
        var s := shaders[k];
        if s.stage < STAGE_COUNT && s.hash in byHash {
          groups := AddMatches(groups, details, s, byHash[s.hash]);
        }
        k := k + 1;
      }
      if groups != map[] {
        byPipeline := byPipeline[pipeline := Prepared(groups, generation)];
      } else {
        byPipeline := byPipeline - {pipeline};
      }
      origins := Reinitialized(origins, MatchedLists(shaders, pipeline, details, byHash, |shaders|), pipeline);
      InitializedIndexed(old(byPipeline), byPipeline, old(origins), shaders, pipeline, details, byHash);
      InitializedCurrent(old(origins), shaders, pipeline, details, byHash);
    }

    // Drops the index of a pipeline unless the handle was reused by a later one.
    method OnDestroyPipeline(pipeline: nat, generation: nat)
      requires Valid()
      modifies this`byPipeline, this`origins
      ensures Valid()
      ensures var dropped := pipeline in old(byPipeline) && old(byPipeline)[pipeline].generation == generation;
              && byPipeline == (if dropped then old(byPipeline) - {pipeline} else old(byPipeline))
              && origins == (if dropped then Reinitialized(old(origins), map[], pipeline) else old(origins))
      ensures OnlyRemoved(old(origins), byHash) ==> OnlyRemoved(origins, byHash)
    {
      hide PipelineIndexed, CommandsOf;
      if pipeline in byPipeline && byPipeline[pipeline].generation == generation {
        byPipeline := byPipeline - {pipeline};
        origins := Reinitialized(origins, map[], pipeline);
        DroppedIndexed(old(byPipeline), old(origins), pipeline);
      }
    }

    // Removes a callback everywhere: from the lists, from the prepared pipelines, and from the summary of
    // the commands that shader callbacks want.
    method UnregisterCallback(identity: nat)
      requires Valid()
      modifies this`byHash, this`globals, this`byPipeline, this`shaderCommands, this`origins
      ensures Valid()
      ensures byHash == KeptLists(old(byHash), identity) && globals == KeptLists(old(globals), identity)
      ensures origins == Prune(old(origins), identity) && shaderCommands == CommandsOf(byHash)
      ensures forall p: nat, c: Command ::
                GroupOf(GroupsAt(byPipeline, p), c) == KeptMatches(GroupOf(GroupsAt(old(byPipeline), p), c), identity)
      ensures OnlyRemoved(old(origins), old(byHash)) ==> OnlyRemoved(origins, byHash)
    {
      hide PipelineIndexed, OnlyRemoved, KeptLists, Kept, KeptMatches, Prune, KeptGroups, CommandsOf;
      globals := KeptLists(globals, identity);
      byHash := KeptLists(byHash, identity);
      shaderCommands := CommandsOf(byHash);
      byPipeline := map p <- byPipeline | KeptGroups(byPipeline[p].groups, identity) != map[] ::
                      byPipeline[p].(groups := KeptGroups(byPipeline[p].groups, identity));
      origins := Prune(origins, identity);
      NoZero(old(byHash), identity);
      forall p: nat, c: Command
        ensures GroupOf(GroupsAt(byPipeline, p), c) == KeptMatches(GroupOf(GroupsAt(old(byPipeline), p), c), identity)
      {
        KeptGroupAt(GroupsAt(old(byPipeline), p), identity, c);
        NoneKept(identity);
      }
      PrunedIndexed(old(byPipeline), byPipeline, old(origins), identity);
      if OnlyRemoved(old(origins), old(byHash)) { PrunedCurrent(old(origins), old(byHash), identity); }
    }

    // ---- One command ----

    // Enters a match in a bucket; what earlier commands left beyond the extent is cleared first.
    method Place(n: nat, p: nat, m: Match, extents: seq<nat>) returns (extents': seq<nat>)
      requires n < |extents| && Fits(stageBuckets, extents)
      modifies this`stageBuckets
      ensures |stageBuckets| == |old(stageBuckets)| && |extents'| == |extents| && Fits(stageBuckets, extents')
      ensures var before := Visible(old(stageBuckets), extents);
              Visible(stageBuckets, extents') == before[n := PlaceIn(before[n], p, m)]
    {
      var bucket := stageBuckets[n];
      extents' := extents;
      if extents[n] <= p {
        if |bucket| <= p { bucket := bucket + seq(p + 1 - |bucket|, _ => Empty); }
        var q := extents[n];
        while q <= p
          invariant extents[n] <= q <= p + 1 <= |bucket|
          invariant bucket[..extents[n]] == stageBuckets[n][..extents[n]]
          invariant forall i :: extents[n] <= i < q ==> bucket[i] == Empty
        {
          bucket := bucket[q := Empty];
          q := q + 1;
        }
        extents' := extents[n := p + 1];
      }
      bucket := bucket[p := Filled(m)];
      stageBuckets := stageBuckets[n := bucket];
      VisibleAfter(old(stageBuckets), stageBuckets, extents, extents', n, p, m);
    }

    // Sorts the matches of all bound pipelines into the buckets of their stages.
    method FillBuckets(c: Command, slots: seq<Bound>) returns (extents: seq<nat>, contributing: nat)
      requires Valid() && WellBound(slots) && |slots| <= STAGE_COUNT
      requires AllPlaceable(ForCommand(byPipeline, c))
      modifies this`stageBuckets
      ensures |stageBuckets| == STAGE_COUNT && |extents| == |slots| && Fits(stageBuckets, extents)
      ensures Filling(Visible(stageBuckets, extents), contributing) ==
                FillFrom(slots, ForCommand(byPipeline, c), |slots|)
    {
      hide PipelineIndexed, CommandsOf, PlaceMatches, WellBound, SeenBefore, Visible, Group, Contributes, AllPlaceable;
      ghost var groups := ForCommand(byPipeline, c);
      extents, contributing := seq(|slots|, _ => 0), 0;
      NothingVisible(stageBuckets, extents);
      var slot := 0;
      while slot < |slots|
        invariant slot <= |slots| == |extents| && |stageBuckets| == STAGE_COUNT && Fits(stageBuckets, extents)
        invariant Filling(Visible(stageBuckets, extents), contributing) == FillFrom(slots, groups, slot)
      {
        if !SeenBefore(slots, slot) {
          var ms := GroupOf(GroupsAt(byPipeline, slots[slot].pipeline), c);
          GroupIs(byPipeline, c, slots[slot].pipeline);
          GroupPlaceable(groups, slots[slot].pipeline);
          var contributes: bool;
          extents, contributes := PlaceGroup(slots, slot, ms, extents);
          if contributes { contributing := contributing + 1; }
        }
        slot := slot + 1;
      }
    }

    // The matches of one pipeline, each to the first of the stages it is bound to.
    method PlaceGroup(slots: seq<Bound>, first: nat, ms: seq<Match>, extents: seq<nat>)
      returns (extents': seq<nat>, contributes: bool)
      requires first < |slots| == |extents| && |stageBuckets| == STAGE_COUNT && Fits(stageBuckets, extents)
      requires forall m <- ms :: Placeable(m)
      requires WellBound(slots)
      modifies this`stageBuckets
      ensures |stageBuckets| == STAGE_COUNT && |extents'| == |slots| && Fits(stageBuckets, extents')
      ensures Visible(stageBuckets, extents') == PlaceMatches(Visible(old(stageBuckets), extents), slots, first, ms)
      ensures contributes == Contributes(slots, first, ms)
    {
      hide Visible, PlaceIn, Active, Target, Placeable, PlaceMatches, Contributes, Fits;
      ghost var before := Visible(stageBuckets, extents);
      PlaceNothing(before, slots, first);
      var active := Active(slots, first);
      extents', contributes := extents, false;
      var j := 0;
      while j < |ms|
        invariant j <= |ms| && |extents'| == |slots| && |stageBuckets| == STAGE_COUNT && Fits(stageBuckets, extents')
        invariant Visible(stageBuckets, extents') == PlaceMatches(before, slots, first, ms[..j])
        invariant contributes == Contributes(slots, first, ms[..j])
      {
        var m := ms[j];
        PlaceNext(before, slots, first, ms, j);
        var eligible := m.stages * active;
        if eligible != {} {
          var slot := FirstIn(slots, first, eligible);
          TargetIs(slots, first, m);
          extents' := Place(slot, m.positions[slots[slot].stage], m, extents');
          contributes := true;
        }
        j := j + 1;
      }
      assert ms[..|ms|] == ms;
    }

    // Runs one callback; results with deferred callbacks reuse the slots of earlier commands.
    method Invoking(index: nat, call: Call, answer: Result, trace: seq<Event>, count: nat, replay: bool,
                    ghost r: Progress)
      returns (trace': seq<Event>, count': nat, replay': bool, bypass: bool)
      requires Tracks(pendingResults, trace, count, replay, r) && !r.bypassed && index == r.invoked
      modifies this`pendingResults
      ensures Tracks(pendingResults, trace', count', replay', Invoke(r, call, answer))
      ensures bypass == answer.bypass
    {
      hide Finals;
      trace', count', replay' := trace + [Invoked(call)], count, replay;
      replay' := replay' || answer.replay || answer.post != 0 || answer.finalize != 0;
      if answer.post != 0 || answer.finalize != 0 {
        var pending := Pending(index, call, answer);
        if count == |pendingResults| {
          pendingResults := pendingResults + [pending];
        } else {
          pendingResults := pendingResults[count := pending];
        }
        count' := count + 1;
        assert pendingResults[..count'] == r.pending + [pending];
      }
      bypass := answer.bypass;
      if bypass {
        trace' := Finalize(trace', count');
      }
    }

    // Walks the buckets in binding order; only when two pipelines contribute can a pair come up twice.
    method RunShaderCallbacks(slots: seq<Bound>, extents: seq<nat>, contributing: nat, answers: nat -> Result,
                              index: nat, trace: seq<Event>, count: nat, replay: bool, ghost before: seq<Call>)
      returns (index': nat, trace': seq<Event>, count': nat, replay': bool, bypass: bool)
      requires Fits(stageBuckets, extents) && |extents| == |slots|
      requires var r := InvokeAll(IDLE, before, answers);
               Tracks(pendingResults, trace, count, replay, r) && !r.bypassed && index == r.invoked
      modifies this`pendingResults
      ensures var calls := WalkSlots(slots, Visible(stageBuckets, extents), contributing > 1, |slots|).calls;
              var r := InvokeAll(IDLE, before + calls, answers);
              Tracks(pendingResults, trace', count', replay', r) && bypass == r.bypassed && index' == r.invoked
    {
      hide InvokeAll, Invoke, WalkBucket, WalkSlots, Tracks, Visible;
      var called: set<(nat, nat)> := {};
      ghost var buckets := Visible(stageBuckets, extents);
      ghost var w := WalkSlots(slots, buckets, contributing > 1, 0);
      WalkStarts(slots, buckets, contributing > 1);
      assert before + [] == before;
      index', trace', count', replay', bypass := index, trace, count, replay, false;
      var n := 0;
      while n < |slots|
        invariant n <= |slots| && stageBuckets == old(stageBuckets)
                  && w == WalkSlots(slots, buckets, contributing > 1, n)
        invariant contributing > 1 ==> called == w.called
        invariant Running(pendingResults, trace', count', replay', index', before + w.calls, answers)
      {
        var bound := slots[n];
        var p := 0;
        ghost var w0 := w;
        VisibleAt(stageBuckets, extents, n);
        BucketStarts(w0, buckets[n], bound, contributing > 1);
        while p < extents[n]
          invariant p <= extents[n] && stageBuckets == old(stageBuckets)
          invariant w == WalkBucket(w0, buckets[n], bound, contributing > 1, p)
          invariant contributing > 1 ==> called == w.called
          invariant Running(pendingResults, trace', count', replay', index', before + w.calls, answers)
        {
          var entry := stageBuckets[n][p];
          ghost var w' := WalkBucket(w0, buckets[n], bound, contributing > 1, p + 1);
          BucketNext(w0, buckets[n], bound, contributing > 1, p);
          if entry.Filled? && !(contributing > 1 && Pair(entry.entry.callback) in called) {
            var call := CallOf(entry.entry, bound);
            if contributing > 1 { called := called + {Pair(entry.entry.callback)}; }
            ghost var r := InvokeAll(IDLE, before + w.calls, answers);
            RunningMeans(pendingResults, trace', count', replay', index', before + w.calls, answers);
            trace', count', replay', bypass := Invoking(index', call, answers(index'), trace', count', replay', r);
            InvokeNext(before + w.calls, call, answers);
            assert before + w.calls + [call] == before + w'.calls;
            index' := index' + 1;
            w := w';
            if bypass {
              WalkGrows(slots, buckets, contributing > 1, n, p + 1);
              RestIgnored(before, w.calls, WalkSlots(slots, buckets, contributing > 1, |slots|).calls, answers);
              return;
            }
            RunningAgain(pendingResults, trace', count', replay', index', before + w.calls, answers);
          } else {
            w := w';
          }
          p := p + 1;
        }
        WalkNext(slots, buckets, contributing > 1, n);
        n := n + 1;
      }
      RunningMeans(pendingResults, trace', count', replay', index', before + w.calls, answers);
    }

    // The loop over the global callbacks.
    method RunGlobalCallbacks(list: seq<Registration>, answers: nat -> Result)
      returns (index: nat, trace: seq<Event>, count: nat, replay: bool, bypass: bool)
      requires Valid()
      modifies this`pendingResults
      ensures Valid()
      ensures var r := InvokeAll(IDLE, GlobalCalls(list), answers);
              Tracks(pendingResults, trace, count, replay, r) && bypass == r.bypassed && index == r.invoked
    {
      hide InvokeAll, Invoke, Tracks, Running, PipelineIndexed, CommandsOf;
      ghost var calls := GlobalCalls(list);
      index, trace, count, replay, bypass := 0, [], 0, false, false;
      StartTracking(pendingResults, answers);
      var i := 0;
      while i < |list|
        invariant i <= |list| && Running(pendingResults, trace, count, replay, index, calls[..i], answers)
      {
        var call := Call(list[i].callback, NoShader);
        RunningMeans(pendingResults, trace, count, replay, index, calls[..i], answers);
        trace, count, replay, bypass :=
          Invoking(index, call, answers(index), trace, count, replay, InvokeAll(IDLE, calls[..i], answers));
        InvokeNext(calls[..i], call, answers);
        assert calls[..i] + [call] == calls[..i + 1];
        index := index + 1;
        i := i + 1;
        if bypass {
          assert [] + calls[..i] == calls[..i] && [] + calls == calls;
          RestIgnored([], calls[..i], calls, answers);
          return;
        }
        RunningAgain(pendingResults, trace, count, replay, index, calls[..i], answers);
      }
      assert calls[..i] == calls;
      RunningMeans(pendingResults, trace, count, replay, index, calls, answers);
    }

    // The callbacks of the bound shaders, if any shader has callbacks for the command.
    method RunBoundShaders(c: Command, slots: seq<Bound>, answers: nat -> Result, index: nat, trace: seq<Event>,
                           count: nat, replay: bool, ghost before: seq<Call>)
      returns (index': nat, trace': seq<Event>, count': nat, replay': bool, bypass: bool)
      requires Valid() && OnlyRemoved(origins, byHash) && WellBound(slots) && |slots| <= STAGE_COUNT
      requires FixedThunks(slots, origins, c)
      requires var r := InvokeAll(IDLE, before, answers);
               Tracks(pendingResults, trace, count, replay, r) && !r.bypassed && index == r.invoked
      modifies this`stageBuckets, this`pendingResults
      ensures Valid()
      ensures var r := InvokeAll(IDLE, before + ScanSlots(slots, Today(origins, byHash), c, |slots|).calls, answers);
              Tracks(pendingResults, trace', count', replay', r) && bypass == r.bypassed && index' == r.invoked
    {
      hide PipelineIndexed, CommandsOf, InvokeAll, Tracks, ScanSlots, WalkSlots, FillFrom, Visible, FixedThunks,
           AllIndexed, AllPlaceable, OnlyRemoved, Today, WellBound;
      if c !in shaderCommands {
        NothingToScan(slots, origins, byHash, c, shaderCommands, |slots|);
        assert before + [] == before;
        return index, trace, count, replay, false;
      }
      ghost var groups := ForCommand(byPipeline, c);
      ForCommandIndexed(byPipeline, c, origins);
      IndexIsNaiveScan(slots, groups, origins, c);
      ScanToday(slots, origins, byHash, c, |slots|);
      var extents, contributing := FillBuckets(c, slots);
      index', trace', count', replay', bypass :=
        RunShaderCallbacks(slots, extents, contributing, answers, index, trace, count, replay, before);
    }

    // One command: global callbacks, then those of the bound shaders, until one asks for a bypass; then the
    // replayed command with its post callbacks, and the finalizers. `suppress` keeps the host from executing
    // the command itself. Neither result depends on what earlier commands left in the reused vectors.
    method RunCallbacks(args: Arguments, bound: seq<nat>,
                        answers: nat -> Result) returns (trace: seq<Event>, suppress: bool)
      requires Valid() && OnlyRemoved(origins, byHash) && |bound| == STAGE_COUNT
      requires forall slots :: SlotsFor(args, bound, slots) ==> FixedThunks(slots, origins, args.command)
      modifies this`stageBuckets, this`pendingResults
      ensures Valid()
      ensures exists slots :: SlotsFor(args, bound, slots)
      ensures forall slots :: SlotsFor(args, bound, slots) ==>
                (trace, suppress) ==
                Conclude(InvokeAll(IDLE, Selected(args.command, slots, globals, Today(origins, byHash)), answers))
    {
      hide SharedData.Valid, InvokeAll, ScanSlots, Tracks, FixedThunks, OnlyRemoved, Today, Posts, Finals, GlobalList,
           GlobalCalls, SlotsFor, WellBound;
      var c := args.command;
      var list := GlobalList(globals, c);
      ghost var calls := GlobalCalls(list);
      var slots := CollectStages(args, bound);
      ghost var scanned := ScanSlots(slots, Today(origins, byHash), c, |slots|).calls;
      SlotsWellBound(args, bound, slots);
      forall other | SlotsFor(args, bound, other) ensures other == slots { SlotsUnique(args, bound, other, slots); }
      assert calls + scanned == Selected(c, slots, globals, Today(origins, byHash));
      var index, count, replay, bypass;
      index, trace, count, replay, bypass := RunGlobalCallbacks(list, answers);
      ghost var r := InvokeAll(IDLE, calls + scanned, answers);
      if bypass {
        AfterBypass(calls, scanned, answers);
        TraceOf(pendingResults, trace, count, replay, r);
        return trace, true;
      }
      index, trace, count, replay, bypass := RunBoundShaders(c, slots, answers, index, trace, count, replay, calls);
      if bypass {
        TraceOf(pendingResults, trace, count, replay, r);
        return trace, true;
      }
      TraceOf(pendingResults, trace, count, replay, r);
      if index == 0 || !replay { return trace, false; }
      trace := trace + [Original];
      trace := RunPosts(trace, count);
      trace := Finalize(trace, count);
      suppress := true;
    }

    // The finalizers, last one first.
    method Finalize(trace: seq<Event>, count: nat) returns (trace': seq<Event>)
      requires count <= |pendingResults|
      ensures trace' == trace + Finals(pendingResults[..count])
    {
      hide Finals;
      trace' := trace;
      var i := count;
      while i != 0
        invariant 0 <= i <= count
        invariant trace' + Finals(pendingResults[..i]) == trace + Finals(pendingResults[..count])
      {
        i := i - 1;
        var p := pendingResults[i];
        FinalsNext(pendingResults, i, trace');
        if p.result.finalize != 0 {
          trace' := trace' + [Finalized(p.index, p.call, p.result.finalize, p.result.data)];
        }
      }
      FinalsNone(trace');
    }

    // The post callbacks, in order.
    method RunPosts(trace: seq<Event>, count: nat) returns (trace': seq<Event>)
      requires count <= |pendingResults|
      ensures trace' == trace + Posts(pendingResults[..count])
    {
      trace' := trace;
      var i := 0;
      while i < count
        invariant i <= count
        invariant trace' == trace + Posts(pendingResults[..i])
      {
        var p := pendingResults[i];
        assert pendingResults[..i + 1][..i] == pendingResults[..i];
        hide Posts;
        PostsLast(pendingResults[..i + 1]);
        if p.result.post != 0 {
          trace' := trace' + [Post(p.index, p.call, p.result.post, p.result.data)];
        }
        i := i + 1;
      }
    }
  }

  function GlobalList(globals: map<Command, seq<Registration>>, c: Command): seq<Registration> {
    if c in globals then globals[c] else []
  }

  function WithGlobals(globals: map<Command, seq<Registration>>, n: nat, identity: nat, data: nat, mask: set<Command>,
                       thunk: Command -> nat): map<Command, seq<Registration>>
    requires n <= |COMMANDS|
  {
    if n == 0 then globals
    else
      var g, c := WithGlobals(globals, n - 1, identity, data, mask, thunk), COMMANDS[n - 1];
      if c in mask then g[c := Updated(GlobalList(g, c), identity, data, mask, {c}, thunk)] else g
  }

  lemma {:induction false} GlobalsUpTo(globals: map<Command, seq<Registration>>, n: nat, identity: nat, data: nat,
                                       mask: set<Command>, thunk: Command -> nat, c: Command)
    requires n <= |COMMANDS|
    ensures GlobalList(WithGlobals(globals, n, identity, data, mask, thunk), c) ==
            if c in COMMANDS[..n] && c in mask then Updated(GlobalList(globals, c), identity, data, mask, {c}, thunk)
            else GlobalList(globals, c)
  {
    hide Updated;
    if n > 0 {
      GlobalsUpTo(globals, n - 1, identity, data, mask, thunk, c);
      DistinctCommands(n - 1);
      assert COMMANDS[..n] == COMMANDS[..n - 1] + [COMMANDS[n - 1]];
    }
  }

  lemma DistinctCommands(n: nat)
    requires n < |COMMANDS|
    ensures COMMANDS[n] !in COMMANDS[..n]
  {
  }

  lemma GlobalsAt(globals: map<Command, seq<Registration>>, identity: nat, data: nat, mask: set<Command>,
                  thunk: Command -> nat, c: Command)
    ensures GlobalList(WithGlobals(globals, |COMMANDS|, identity, data, mask, thunk), c) ==
            if c in mask then Updated(GlobalList(globals, c), identity, data, mask, {c}, thunk)
            else GlobalList(globals, c)
  {
    hide Updated, WithGlobals;
    GlobalsUpTo(globals, |COMMANDS|, identity, data, mask, thunk, c);
    EveryCommand(c);
  }

  lemma EveryCommand(c: Command)
    ensures c in COMMANDS[..|COMMANDS|]
  {
    match c
    case Draw => assert COMMANDS[0] == c;
    case DrawIndexed => assert COMMANDS[1] == c;
    case Dispatch => assert COMMANDS[2] == c;
    case Indirect => assert COMMANDS[3] == c;
    case DispatchMesh => assert COMMANDS[4] == c;
  }

  lemma UpdatedCommands(table: Table, hash: nat, identity: nat, data: nat, mask: set<Command>, thunk: Command -> nat)
    ensures CommandsOf(table[hash := Updated(ListOf(table, hash), identity, data, mask, mask, thunk)])
         <= CommandsOf(table) + mask
  {
  }

  // Finds the match of a callback, or appends one, and records the position.
  method Matching(ms: seq<Match>, cb: Callback, details: nat, s: Shader, p: nat) returns (r: seq<Match>)
    requires AllTidy(ms) && s.stage < STAGE_COUNT && s.hash != 0
    ensures r == AddTo(ms, cb, details, s, p)
  {
    r := ms;
    var i := 0;
    while i < |ms| && ms[i].callback != cb
      invariant i <= |ms| && forall j :: 0 <= j < i ==> ms[j].callback != cb
    {
      i := i + 1;
    }
    PositionIs(ms, cb, i);
    if i == |ms| { r := r + [NewMatch(cb, details)]; }
    var m := r[i];
    m := m.(stages := m.stages + {s.stage});
    if m.hashes[s.stage] == 0 {
      m := m.(hashes := m.hashes[s.stage := s.hash], positions := m.positions[s.stage := p]);
    }
    r := r[i := m];
  }

  lemma PositionIs(ms: seq<Match>, cb: Callback, i: nat)
    requires i <= |ms| && (forall j :: 0 <= j < i ==> ms[j].callback != cb) && (i < |ms| ==> ms[i].callback == cb)
    ensures Position(ms, cb) == i
  {
  }

  lemma MatchedOrigin(origins: Origins, shaders: seq<Shader>, pipeline: nat, details: nat, table: Table, p: nat, s: nat)
    ensures var matched := MatchedLists(shaders, pipeline, details, table, |shaders|);
            OriginOf(Reinitialized(origins, matched, pipeline), Bound(p, s)) ==
            OriginOf(if p == pipeline then matched else origins, Bound(p, s))
  {
    MatchedKeys(shaders, pipeline, details, table, |shaders|, (p, s));
    hide MatchedLists;
  }

  lemma InitializedIndexed(byPipeline: map<nat, Prepared>, byPipeline': map<nat, Prepared>, origins: Origins,
                           shaders: seq<Shader>, pipeline: nat, details: nat, table: Table)
    requires (forall p: nat :: PipelineIndexed(GroupsAt(byPipeline, p), p, origins))
    requires 0 !in table && OneShaderPerStage(shaders)
    requires GroupsAt(byPipeline', pipeline) == Prepare(shaders, table, details, |shaders|)
    requires forall p: nat :: p != pipeline ==> GroupsAt(byPipeline', p) == GroupsAt(byPipeline, p)
    ensures var origins' := Reinitialized(origins, MatchedLists(shaders, pipeline, details, table, |shaders|),
                                          pipeline);
            forall p: nat :: PipelineIndexed(GroupsAt(byPipeline', p), p, origins')
  {
    hide IndexOk, OriginOf, MatchedLists, Reinitialized, Prepare;
    var matched := MatchedLists(shaders, pipeline, details, table, |shaders|);
    var origins' := Reinitialized(origins, matched, pipeline);
    forall p: nat, s: nat
      ensures OriginOf(origins', Bound(p, s)) == OriginOf(if p == pipeline then matched else origins, Bound(p, s))
    {
      MatchedOrigin(origins, shaders, pipeline, details, table, p, s);
    }
    OtherPipelines(byPipeline, origins, origins', pipeline);
    PrepareIndexes(shaders, pipeline, details, table, |shaders|);
    forall c: Command ensures IndexOk(GroupOf(GroupsAt(byPipeline', pipeline), c), pipeline, c, origins') {
      IndexFrame(GroupOf(Prepare(shaders, table, details, |shaders|), c), pipeline, c, matched, origins');
    }
  }

  lemma {:induction false} MatchedCurrent(shaders: seq<Shader>, pipeline: nat, details: nat, table: Table, k: nat)
    requires k <= |shaders|
    ensures OnlyRemoved(MatchedLists(shaders, pipeline, details, table, k), table)
  {
    hide Kept;
    if k > 0 {
      MatchedCurrent(shaders, pipeline, details, table, k - 1);
      KeptAll(ListOf(table, shaders[k - 1].hash));
    }
  }

  lemma InitializedCurrent(origins: Origins, shaders: seq<Shader>, pipeline: nat, details: nat, table: Table)
    requires OnlyRemoved(origins, table)
    ensures OnlyRemoved(Reinitialized(origins, MatchedLists(shaders, pipeline, details, table, |shaders|), pipeline),
                        table)
  {
    MatchedCurrent(shaders, pipeline, details, table, |shaders|);
    hide MatchedLists, Kept;
  }

  lemma DroppedIndexed(byPipeline: map<nat, Prepared>, origins: Origins, pipeline: nat)
    requires forall p: nat :: PipelineIndexed(GroupsAt(byPipeline, p), p, origins)
    ensures forall p: nat :: PipelineIndexed(GroupsAt(byPipeline - {pipeline}, p), p,
                                             Reinitialized(origins, map[], pipeline))
  {
    hide IndexOk;
    var origins' := Reinitialized(origins, map[], pipeline);
    OtherPipelines(byPipeline, origins, origins', pipeline);
    NothingIndexed(pipeline, 0);
    forall c: Command ensures IndexOk(GroupOf(map[], c), pipeline, c, origins') {
      IndexFrame(GroupOf(map[], c), pipeline, c, map[], origins');
    }
    forall p: nat | p != pipeline ensures PipelineIndexed(GroupsAt(byPipeline - {pipeline}, p), p, origins') {
      assert GroupsAt(byPipeline - {pipeline}, p) == GroupsAt(byPipeline, p);
    }
  }

  lemma NoZero(table: Table, identity: nat)
    ensures 0 !in table ==> 0 !in KeptLists(table, identity)
  {
  }

  lemma NoneKept(identity: nat)
    ensures KeptMatches([], identity) == []
    ensures KeptGroups(map[], identity) == map[]
  {
  }

  lemma KeptGroupAt(groups: Groups, identity: nat, c: Command)
    ensures GroupOf(KeptGroups(groups, identity), c) == KeptMatches(GroupOf(groups, c), identity)
  {
  }

  lemma PrunedIndexed(byPipeline: map<nat, Prepared>, byPipeline': map<nat, Prepared>, origins: Origins, identity: nat)
    requires forall p: nat :: PipelineIndexed(GroupsAt(byPipeline, p), p, origins)
    requires forall p: nat, c: Command ::
               GroupOf(GroupsAt(byPipeline', p), c) == KeptMatches(GroupOf(GroupsAt(byPipeline, p), c), identity)
    ensures forall p: nat :: PipelineIndexed(GroupsAt(byPipeline', p), p, Prune(origins, identity))
  {
    hide IndexOk, Prune, KeptMatches, GroupOf;
    forall p: nat, c: Command ensures IndexOk(GroupOf(GroupsAt(byPipeline', p), c), p, c, Prune(origins, identity)) {
      assert PipelineIndexed(GroupsAt(byPipeline, p), p, origins);
      PrunedIndex(GroupOf(GroupsAt(byPipeline, p), c), p, c, origins, identity);
    }
  }

  lemma PrunedCurrent(origins: Origins, table: Table, identity: nat)
    requires OnlyRemoved(origins, table)
    ensures OnlyRemoved(Prune(origins, identity), KeptLists(table, identity))
  {
    hide Kept;
    forall k | k in Prune(origins, identity)
      ensures ListOf(KeptLists(table, identity), origins[k].hash) ==
                Kept(origins[k].list, origins[k].removed + {identity})
    {
      KeptTwice(origins[k].list, origins[k].removed, identity);
      KeptNothing(identity);
    }
  }

  lemma KeptNothing(identity: nat)
    ensures Kept([], {identity}) == []
  {
  }

  ghost predicate Fits(vectors: seq<seq<Slot>>, extents: seq<nat>) {
    |extents| <= |vectors| && forall i :: 0 <= i < |extents| ==> extents[i] <= |vectors[i]|
  }

  // The part of the reused vectors that belongs to the current command.
  ghost function Visible(vectors: seq<seq<Slot>>, extents: seq<nat>): (b: Buckets)
    requires Fits(vectors, extents)
    ensures |b| == |extents|
  {
    seq(|extents|, i requires 0 <= i < |extents| => vectors[i][..extents[i]])
  }

  lemma NothingVisible(vectors: seq<seq<Slot>>, extents: seq<nat>)
    requires |extents| <= |vectors| && forall i :: 0 <= i < |extents| ==> extents[i] == 0
    ensures Fits(vectors, extents) && Visible(vectors, extents) == seq(|extents|, _ => [])
  {
  }

  lemma VisibleAfter(vectors: seq<seq<Slot>>, vectors': seq<seq<Slot>>, extents: seq<nat>, extents': seq<nat>, n: nat,
                     p: nat, m: Match)
    requires Fits(vectors, extents) && n < |extents| == |extents'| && Fits(vectors', extents')
    requires |vectors'| == |vectors| && forall i :: 0 <= i < |extents| && i != n ==> vectors'[i] == vectors[i]
    requires extents' == extents[n := if extents[n] <= p then p + 1 else extents[n]]
    requires vectors'[n][..extents'[n]] == PlaceIn(vectors[n][..extents[n]], p, m)
    ensures Visible(vectors', extents') == Visible(vectors, extents)[n := PlaceIn(Visible(vectors, extents)[n], p, m)]
  {
    hide PlaceIn;
  }

  // The matches that each prepared pipeline has for one kind of command.
  function ForCommand(byPipeline: map<nat, Prepared>, c: Command): map<nat, seq<Match>> {
    map p <- byPipeline :: GroupOf(byPipeline[p].groups, c)
  }

  lemma GroupIs(byPipeline: map<nat, Prepared>, c: Command, pipeline: nat)
    ensures Group(ForCommand(byPipeline, c), pipeline) == GroupOf(GroupsAt(byPipeline, pipeline), c)
  {
  }

  lemma GroupPlaceable(groups: map<nat, seq<Match>>, pipeline: nat)
    requires AllPlaceable(groups)
    ensures forall m <- Group(groups, pipeline) :: Placeable(m)
  {
  }

  lemma FinalsNext(pending: seq<Pending>, i: nat, trace: seq<Event>)
    requires i < |pending|
    ensures var p := pending[i];
            trace + Finals(pending[..i + 1]) ==
            (if p.result.finalize != 0 then trace + [Finalized(p.index, p.call, p.result.finalize, p.result.data)]
             else trace)
            + Finals(pending[..i])
  {
    var p := pending[i];
    assert pending[..i + 1][..i] == pending[..i];
    assert Finals(pending[..i + 1]) == FinalBy(p.index, p.call, p.result) + Finals(pending[..i]);
    hide Finals;
    if p.result.finalize == 0 { assert [] + Finals(pending[..i]) == Finals(pending[..i]); }
  }

  lemma FinalsNone(trace: seq<Event>)
    ensures trace + Finals([]) == trace
  {
  }

  lemma PostsLast(pending: seq<Pending>)
    requires |pending| > 0
    ensures var p := pending[|pending| - 1];
            Posts(pending) == Posts(pending[..|pending| - 1]) + PostBy(p.index, p.call, p.result)
  {
  }

  // The variables of a running command against its abstract progress.
  ghost predicate Tracks(pendingResults: seq<Pending>, trace: seq<Event>, count: nat, replay: bool, r: Progress) {
    count <= |pendingResults| && pendingResults[..count] == r.pending && trace == r.trace && replay == r.replay
  }

  ghost predicate Running(pendingResults: seq<Pending>, trace: seq<Event>, count: nat, replay: bool, index: nat,
                          calls: seq<Call>, answers: nat -> Result) {
    var r := InvokeAll(IDLE, calls, answers);
    Tracks(pendingResults, trace, count, replay, r) && !r.bypassed && index == r.invoked
  }

  lemma RunningMeans(pendingResults: seq<Pending>, trace: seq<Event>, count: nat, replay: bool, index: nat,
                     calls: seq<Call>, answers: nat -> Result)
    requires Running(pendingResults, trace, count, replay, index, calls, answers)
    ensures var r := InvokeAll(IDLE, calls, answers);
            Tracks(pendingResults, trace, count, replay, r) && !r.bypassed && index == r.invoked
  {
  }

  lemma RunningAgain(pendingResults: seq<Pending>, trace: seq<Event>, count: nat, replay: bool, index: nat,
                     calls: seq<Call>, answers: nat -> Result)
    requires var r := InvokeAll(IDLE, calls, answers);
             Tracks(pendingResults, trace, count, replay, r) && !r.bypassed && index == r.invoked
    ensures Running(pendingResults, trace, count, replay, index, calls, answers)
  {
  }

  lemma InvokeNext(calls: seq<Call>, call: Call, answers: nat -> Result)
    ensures var r := InvokeAll(IDLE, calls, answers);
            && InvokeAll(IDLE, calls + [call], answers) == Invoke(r, call, answers(r.invoked))
            && (!r.bypassed ==> InvokeAll(IDLE, calls + [call], answers).invoked == r.invoked + 1
                                && InvokeAll(IDLE, calls + [call], answers).bypassed == answers(r.invoked).bypass)
  {
    assert (calls + [call])[..|calls|] == calls;
  }

  lemma {:induction false} AfterBypass(calls: seq<Call>, more: seq<Call>, answers: nat -> Result)
    requires InvokeAll(IDLE, calls, answers).bypassed
    ensures InvokeAll(IDLE, calls + more, answers) == InvokeAll(IDLE, calls, answers)
    decreases |more|
  {
    if more == [] {
      assert calls + more == calls;
    } else {
      var front := more[..|more| - 1];
      AfterBypass(calls, front, answers);
      assert calls + more == calls + front + [more[|more| - 1]];
      InvokeNext(calls + front, more[|more| - 1], answers);
    }
  }

  lemma Appended(before: seq<Call>, calls: seq<Call>, all: seq<Call>)
    requires calls <= all
    ensures before + all == before + calls + all[|calls|..]
  {
  }

  lemma RestIgnored(before: seq<Call>, calls: seq<Call>, all: seq<Call>, answers: nat -> Result)
    requires calls <= all && InvokeAll(IDLE, before + calls, answers).bypassed
    ensures InvokeAll(IDLE, before + all, answers) == InvokeAll(IDLE, before + calls, answers)
  {
    hide InvokeAll, Invoke;
    Appended(before, calls, all);
    AfterBypass(before + calls, all[|calls|..], answers);
  }

  lemma VisibleAt(vectors: seq<seq<Slot>>, extents: seq<nat>, n: nat)
    requires Fits(vectors, extents) && n < |extents|
    ensures Visible(vectors, extents)[n] == vectors[n][..extents[n]]
  {
  }

  lemma WalkStarts(slots: seq<Bound>, buckets: Buckets, dedupe: bool)
    requires |slots| == |buckets|
    ensures WalkSlots(slots, buckets, dedupe, 0) == Scan([], {})
  {
  }

  lemma BucketStarts(s: Scan, b: seq<Slot>, bound: Bound, dedupe: bool)
    ensures WalkBucket(s, b, bound, dedupe, 0) == s
  {
  }

  lemma BucketNext(s: Scan, b: seq<Slot>, bound: Bound, dedupe: bool, p: nat)
    requires p < |b|
    ensures var w := WalkBucket(s, b, bound, dedupe, p);
            WalkBucket(s, b, bound, dedupe, p + 1) ==
            if b[p].Empty? || (dedupe && Pair(b[p].entry.callback) in w.called) then w
            else Scan(w.calls + [CallOf(b[p].entry, bound)],
                      if dedupe then w.called + {Pair(b[p].entry.callback)} else w.called)
  {
  }

  lemma WalkNext(slots: seq<Bound>, buckets: Buckets, dedupe: bool, n: nat)
    requires n < |slots| == |buckets|
    ensures WalkSlots(slots, buckets, dedupe, n + 1) ==
            WalkBucket(WalkSlots(slots, buckets, dedupe, n), buckets[n], slots[n], dedupe, |buckets[n]|)
  {
  }

  lemma {:induction false} BucketGrows(s: Scan, b: seq<Slot>, bound: Bound, dedupe: bool, p: nat, q: nat)
    requires p <= q
    ensures WalkBucket(s, b, bound, dedupe, p).calls <= WalkBucket(s, b, bound, dedupe, q).calls
    decreases q
  {
    if p < q { BucketGrows(s, b, bound, dedupe, p, q - 1); }
  }

  lemma {:induction false} SlotsGrow(slots: seq<Bound>, buckets: Buckets, dedupe: bool, n: nat, m: nat)
    requires n <= m <= |slots| == |buckets|
    ensures WalkSlots(slots, buckets, dedupe, n).calls <= WalkSlots(slots, buckets, dedupe, m).calls
    decreases m
  {
    hide WalkBucket;
    if n < m {
      SlotsGrow(slots, buckets, dedupe, n, m - 1);
      var w := WalkSlots(slots, buckets, dedupe, m - 1);
      BucketStarts(w, buckets[m - 1], slots[m - 1], dedupe);
      BucketGrows(w, buckets[m - 1], slots[m - 1], dedupe, 0, |buckets[m - 1]|);
    }
  }

  // The calls made so far begin the calls of the whole walk.
  lemma WalkGrows(slots: seq<Bound>, buckets: Buckets, dedupe: bool, n: nat, p: nat)
    requires n < |slots| == |buckets| && p <= |buckets[n]|
    ensures WalkBucket(WalkSlots(slots, buckets, dedupe, n), buckets[n], slots[n], dedupe, p).calls
         <= WalkSlots(slots, buckets, dedupe, |slots|).calls
  {
    hide WalkBucket, WalkSlots;
    BucketGrows(WalkSlots(slots, buckets, dedupe, n), buckets[n], slots[n], dedupe, p, |buckets[n]|);
    WalkNext(slots, buckets, dedupe, n);
    SlotsGrow(slots, buckets, dedupe, n + 1, |slots|);
  }

  lemma TraceOf(pendingResults: seq<Pending>, trace: seq<Event>, count: nat, replay: bool, r: Progress)
    requires Tracks(pendingResults, trace, count, replay, r)
    ensures count <= |pendingResults| && pendingResults[..count] == r.pending && trace == r.trace && replay == r.replay
  {
  }

  lemma StartTracking(pendingResults: seq<Pending>, answers: nat -> Result)
    ensures Running(pendingResults, [], 0, false, 0, [], answers)
  {
  }

  lemma ForCommandIndexed(byPipeline: map<nat, Prepared>, c: Command, origins: Origins)
    requires forall p: nat :: PipelineIndexed(GroupsAt(byPipeline, p), p, origins)
    ensures AllIndexed(ForCommand(byPipeline, c), c, origins)
  {
    hide IndexOk;
    forall p: nat ensures IndexOk(Group(ForCommand(byPipeline, c), p), p, c, origins) {
      GroupIs(byPipeline, c, p);
      assert PipelineIndexed(GroupsAt(byPipeline, p), p, origins);
    }
  }

  // When no shader registration is for the command, the scan finds nothing.
  lemma {:induction false} NothingToScan(slots: seq<Bound>, origins: Origins, table: Table, c: Command,
                                         commands: set<Command>, n: nat)
    requires n <= |slots| && CommandsOf(table) <= commands && c !in commands
    ensures ScanSlots(slots, Today(origins, table), c, n) == Scan([], {})
  {
    hide ScanList, CommandsOf;
    if n > 0 {
      NothingToScan(slots, origins, table, c, commands, n - 1);
      var o := OriginOf(Today(origins, table), slots[n - 1]);
      forall p: nat ensures !Alive(o, c, p) { NoneAlive(origins, table, slots[n - 1], c, commands, p); }
      ScanNothing(Scan([], {}), o, c, slots[n - 1], |o.list|);
    }
  }

  lemma NoneAlive(origins: Origins, table: Table, b: Bound, c: Command, commands: set<Command>, p: nat)
    requires CommandsOf(table) <= commands && c !in commands
    ensures !Alive(OriginOf(Today(origins, table), b), c, p)
  {
    var o := OriginOf(Today(origins, table), b);
    if p < |o.list| {
      assert o.list[p] in table[o.hash];
      assert o.list[p].callback.command in CommandsOf(table);
    }
  }

  lemma {:induction false} ScanNothing(s: Scan, o: Origin, c: Command, b: Bound, p: nat)
    requires forall q: nat :: !Alive(o, c, q)
    ensures ScanList(s, o, c, b, p) == s
  {
    if p > 0 { ScanNothing(s, o, c, b, p - 1); }
  }

  // Adds the registrations of one shader.
  method AddMatches(groups: Groups, details: nat, s: Shader, list: seq<Registration>) returns (groups': Groups)
    requires TidyGroups(groups) && s.stage < STAGE_COUNT && s.hash != 0
    ensures groups' == AddList(groups, details, s, list, |list|)
  {
    hide AddList, AddTo, AllTidy, TidyGroups, GroupOf;
    AddListStarts(groups, details, s, list);
    groups' := groups;
    var p := 0;
    while p < |list|
      invariant p <= |list| && groups' == AddList(groups, details, s, list, p)
    {
      AddListNext(groups, details, s, list, p);
      var cb := list[p].callback;
      var matches := Matching(GroupOf(groups', cb.command), cb, details, s, p);
      groups' := groups'[cb.command := matches];
      p := p + 1;
    }
  }

  // The callbacks a command selects: the global ones, then those of the naive scan over today's lists.
  function Selected(c: Command, slots: seq<Bound>, globals: map<Command, seq<Registration>>,
                    origins: Origins): seq<Call> {
    GlobalCalls(GlobalList(globals, c)) + ScanSlots(slots, origins, c, |slots|).calls
  }

  lemma {:induction false} WithoutAppended(a: seq<Registration>, b: seq<Registration>, identity: nat, data: nat,
                                           mask: set<Command>)
    ensures Without(a + b, identity, data, mask) == Without(a, identity, data, mask) + Without(b, identity, data, mask)
    decreases |b|
  {
    if b == [] {
      assert a + b == a;
    } else {
      assert (a + b)[..|a + b| - 1] == a + b[..|b| - 1];
      WithoutAppended(a, b[..|b| - 1], identity, data, mask);
    }
  }

  lemma {:induction false} WithoutTwice(list: seq<Registration>, identity: nat, data: nat, mask: set<Command>)
    ensures Without(Without(list, identity, data, mask), identity, data, mask) == Without(list, identity, data, mask)
  {
    if list != [] {
      var front := Without(list[..|list| - 1], identity, data, mask);
      WithoutTwice(list[..|list| - 1], identity, data, mask);
      assert (front + [list[|list| - 1]])[..|front|] == front;
    }
  }

  lemma WithoutLast(front: seq<Registration>, e: Registration, identity: nat, data: nat, mask: set<Command>)
    ensures Without(front + [e], identity, data, mask) ==
            if e.callback.identity == identity && e.callback.data == data && e.mask == mask
            then Without(front, identity, data, mask) else Without(front, identity, data, mask) + [e]
  {
    assert (front + [e])[..|front|] == front;
  }

  lemma {:induction false} WithoutEntries(n: nat, identity: nat, data: nat, mask: set<Command>,
                                          selected: set<Command>, thunk: Command -> nat)
    requires n <= |COMMANDS|
    ensures Without(Entries(n, identity, data, mask, selected, thunk), identity, data, mask) == []
  {
    if n > 0 {
      WithoutEntries(n - 1, identity, data, mask, selected, thunk);
      var c := COMMANDS[n - 1];
      WithoutLast(Entries(n - 1, identity, data, mask, selected, thunk),
                  Registration(Callback(c, thunk(c), identity, data), mask), identity, data, mask);
      hide Without;
    }
  }

  // Registering again under the same identity, configuration and commands changes nothing.
  lemma RegisteredTwice(list: seq<Registration>, identity: nat, data: nat, mask: set<Command>, selected: set<Command>,
                        thunk: Command -> nat)
    ensures var once := Updated(list, identity, data, mask, selected, thunk);
            Updated(once, identity, data, mask, selected, thunk) == once
  {
    hide Without, Entries;
    var kept, added := Without(list, identity, data, mask), Entries(|COMMANDS|, identity, data, mask, selected, thunk);
    WithoutAppended(kept, added, identity, data, mask);
    WithoutTwice(list, identity, data, mask);
    WithoutEntries(|COMMANDS|, identity, data, mask, selected, thunk);
    assert kept + [] == kept;
  }
}
