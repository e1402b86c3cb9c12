// How the index of a pipeline is built from the registrations of its shaders, and pruned when a callback
// is unregistered.
module CommandPrepare {
  import opened CommandProtocol
  import opened CommandIndex

  type Groups = map<Command, seq<Match>>

  function GroupOf(groups: Groups, c: Command): seq<Match> {
    if c in groups then groups[c] else []
  }

  function Position(ms: seq<Match>, cb: Callback): (i: nat)
    ensures i <= |ms|
    ensures i < |ms| ==> ms[i].callback == cb
    ensures forall j :: 0 <= j < i ==> ms[j].callback != cb
  {
    if ms == [] then 0
    else
      var i := Position(ms[..|ms| - 1], cb);
      if i < |ms| - 1 || ms[|ms| - 1].callback == cb then i else |ms|
  }

  function NewMatch(cb: Callback, details: nat): Match {
    Match(cb, details, {}, seq(STAGE_COUNT, _ => 0), seq(STAGE_COUNT, _ => 0))
  }

  // Only the first position that a shader's list has for the callback is recorded.
  function Record(m: Match, s: Shader, p: nat): Match
    requires |m.hashes| == |m.positions| == STAGE_COUNT && s.stage < STAGE_COUNT
  {
    var m' := m.(stages := m.stages + {s.stage});
    if m.hashes[s.stage] == 0
    then m'.(hashes := m.hashes[s.stage := s.hash], positions := m.positions[s.stage := p])
    else m'
  }

  predicate Tidy(m: Match) {
    && |m.hashes| == |m.positions| == STAGE_COUNT
    && (forall s: nat :: s < STAGE_COUNT ==> (s in m.stages <==> m.hashes[s] != 0))
    && (forall s <- m.stages :: s < STAGE_COUNT)
  }

  predicate AllTidy(ms: seq<Match>) {
    forall i :: 0 <= i < |ms| ==> Tidy(ms[i])
  }

  function AddTo(ms: seq<Match>, cb: Callback, details: nat, s: Shader, p: nat): (r: seq<Match>)
    requires AllTidy(ms) && s.stage < STAGE_COUNT && s.hash != 0
    ensures AllTidy(r) && |ms| <= |r| && Position(ms, cb) < |r|
  {
    var i := Position(ms, cb);
    if i == |ms| then ms + [Record(NewMatch(cb, details), s, p)] else ms[i := Record(ms[i], s, p)]
  }

  predicate TidyGroups(groups: Groups) {
    forall c <- groups :: AllTidy(groups[c])
  }

  // The groups after the first p registrations of a shader's list.
  function AddList(groups: Groups, details: nat, s: Shader, list: seq<Registration>, p: nat): (r: Groups)
    requires TidyGroups(groups) && s.stage < STAGE_COUNT && s.hash != 0 && p <= |list|
    ensures TidyGroups(r)
  {
    if p == 0 then groups
    else
      var groups' := AddList(groups, details, s, list, p - 1);
      var cb := list[p - 1].callback;
      groups'[cb.command := AddTo(GroupOf(groups', cb.command), cb, details, s, p - 1)]
  }

  lemma TidyGroup(groups: Groups, c: Command)
    requires TidyGroups(groups)
    ensures AllTidy(GroupOf(groups, c))
  {
  }

  lemma AddListStarts(groups: Groups, details: nat, s: Shader, list: seq<Registration>)
    requires TidyGroups(groups) && s.stage < STAGE_COUNT && s.hash != 0
    ensures AddList(groups, details, s, list, 0) == groups
  {
  }

  lemma AddListNext(groups: Groups, details: nat, s: Shader, list: seq<Registration>, p: nat)
    requires TidyGroups(groups) && s.stage < STAGE_COUNT && s.hash != 0 && p < |list|
    ensures var groups', cb := AddList(groups, details, s, list, p), list[p].callback;
            && AllTidy(GroupOf(groups', cb.command))
            && AddList(groups, details, s, list, p + 1) ==
               groups'[cb.command := AddTo(GroupOf(groups', cb.command), cb, details, s, p)]
  {
    hide AllTidy, TidyGroups, AddTo, GroupOf;
    TidyGroup(AddList(groups, details, s, list, p), list[p].callback.command);
  }

  // The groups after the first k shaders.
  function Prepare(shaders: seq<Shader>, table: Table, details: nat, k: nat): (r: Groups)
    requires k <= |shaders| && 0 !in table
    ensures TidyGroups(r)
  {
    if k == 0 then map[]
    else
      var groups := Prepare(shaders, table, details, k - 1);
      var s := shaders[k - 1];
      if s.stage >= STAGE_COUNT || s.hash !in table then groups
      else AddList(groups, details, s, table[s.hash], |table[s.hash]|)
  }

  // ---- The result indexes every registration of every shader ----

  function Cut(base: Origins, pipeline: nat, details: nat, s: Shader, list: seq<Registration>, p: nat): Origins
    requires p <= |list|
  {
    base[(pipeline, s.stage) := Origin(list[..p], s.hash, {}, details)]
  }

  lemma CutAt(base: Origins, pipeline: nat, details: nat, s: Shader, list: seq<Registration>, p: nat, stage: nat)
    requires p <= |list|
    ensures OriginOf(Cut(base, pipeline, details, s, list, p), Bound(pipeline, stage)) ==
            if stage == s.stage then Origin(list[..p], s.hash, {}, details) else OriginOf(base, Bound(pipeline, stage))
  {
  }

  lemma MoreAlive(o: Origin, r: Registration, c: Command, q: nat)
    requires o.removed == {}
    ensures var o' := o.(list := o.list + [r]);
            && (Alive(o', c, q) <==> Alive(o, c, q) || (q == |o.list| && r.callback.command == c))
            && (q < |o.list| ==> o'.list[q] == o.list[q]) && o'.list[|o.list|] == r
  {
  }

  lemma OneMore(o: Origin, r: Registration, c: Command, cb: Callback)
    requires o.removed == {}
    ensures var o' := o.(list := o.list + [r]);
            && (forall q: nat :: FirstAt(o, c, cb, q) ==> FirstAt(o', c, cb, q))
            && (Listed(o', c, cb) <==> Listed(o, c, cb) || (r.callback == cb && cb.command == c))
            && (r.callback == cb && cb.command == c && !Listed(o, c, cb) ==> FirstAt(o', c, cb, |o.list|))
  {
    var o' := o.(list := o.list + [r]);
    var n := |o.list|;
    forall q: nat
      ensures Alive(o', c, q) <==> Alive(o, c, q) || (q == n && r.callback.command == c)
      ensures q < n ==> o'.list[q] == o.list[q]
      ensures Alive(o, c, q) ==> q < n
    {
      MoreAlive(o, r, c, q);
    }
    assert o'.list[n] == r;
    hide Alive;
    forall q: nat | FirstAt(o, c, cb, q) ensures FirstAt(o', c, cb, q) {
    }
    if Listed(o, c, cb) {
      var q: nat :| Alive(o, c, q) && o.list[q].callback == cb;
      assert Alive(o', c, q) && o'.list[q].callback == cb;
    }
    if r.callback == cb && cb.command == c { assert Alive(o', c, n) && o'.list[n].callback == cb; }
  }

  lemma LongerList(list: seq<Registration>, p: nat, hash: nat, details: nat, c: Command, cb: Callback)
    requires p < |list|
    ensures var o, o' := Origin(list[..p], hash, {}, details), Origin(list[..p + 1], hash, {}, details);
            && (forall q: nat :: FirstAt(o, c, cb, q) ==> FirstAt(o', c, cb, q))
            && (Listed(o', c, cb) <==> Listed(o, c, cb) || (list[p].callback == cb && cb.command == c))
            && (list[p].callback == cb && cb.command == c && !Listed(o, c, cb) ==> FirstAt(o', c, cb, p))
  {
    hide Alive, FirstAt, Listed;
    assert list[..p + 1] == list[..p] + [list[p]];
    OneMore(Origin(list[..p], hash, {}, details), list[p], c, cb);
  }

  // A longer list leaves the matches of other callbacks as good as they were.
  lemma MatchStaysOk(m: Match, pipeline: nat, c: Command, base: Origins, details: nat, s: Shader,
                     list: seq<Registration>, p: nat)
    requires p < |list| && MatchOk(m, pipeline, c, Cut(base, pipeline, details, s, list, p))
    ensures MatchOk(m, pipeline, c, Cut(base, pipeline, details, s, list, p + 1))
  {
    hide FirstAt, Listed;
    var o, o' := Cut(base, pipeline, details, s, list, p), Cut(base, pipeline, details, s, list, p + 1);
    LongerList(list, p, s.hash, details, c, m.callback);
    forall stage | stage in m.stages
      ensures FirstAt(OriginOf(o', Bound(pipeline, stage)), c, m.callback, m.positions[stage])
      ensures m.hashes[stage] == OriginOf(o', Bound(pipeline, stage)).hash
      ensures m.details == OriginOf(o', Bound(pipeline, stage)).details
    {
      CutAt(base, pipeline, details, s, list, p, stage);
      CutAt(base, pipeline, details, s, list, p + 1, stage);
    }
  }

  // The match that gets the new position.
  lemma RecordedOk(m: Match, pipeline: nat, c: Command, base: Origins, details: nat, s: Shader,
                   list: seq<Registration>, p: nat)
    requires p < |list| && s.stage < STAGE_COUNT && s.hash != 0 && Tidy(m)
    requires MatchOk(m, pipeline, c, Cut(base, pipeline, details, s, list, p)) && m.details == details
    requires list[p].callback == m.callback
    requires s.stage !in m.stages ==> !Listed(Origin(list[..p], s.hash, {}, details), c, m.callback)
    ensures MatchOk(Record(m, s, p), pipeline, c, Cut(base, pipeline, details, s, list, p + 1))
  {
    hide FirstAt, Listed;
    var m' := Record(m, s, p);
    MatchStaysOk(m, pipeline, c, base, details, s, list, p);
    LongerList(list, p, s.hash, details, c, m.callback);
    CutAt(base, pipeline, details, s, list, p + 1, s.stage);
    var o' := Cut(base, pipeline, details, s, list, p + 1);
    forall stage | stage in m'.stages
      ensures FirstAt(OriginOf(o', Bound(pipeline, stage)), c, m'.callback, m'.positions[stage])
      ensures m'.hashes[stage] == OriginOf(o', Bound(pipeline, stage)).hash
      ensures m'.details == OriginOf(o', Bound(pipeline, stage)).details
    {
    }
  }

  predicate Detailed(ms: seq<Match>, details: nat) {
    forall i :: 0 <= i < |ms| ==> ms[i].details == details
  }

  // What AddTo does, match by match.
  lemma AddToAt(ms: seq<Match>, cb: Callback, details: nat, s: Shader, p: nat, i: nat)
    requires AllTidy(ms) && s.stage < STAGE_COUNT && s.hash != 0 && i < |AddTo(ms, cb, details, s, p)|
    ensures var at, r := Position(ms, cb), AddTo(ms, cb, details, s, p);
            && at < |r| && r[at].callback == cb && s.stage in r[at].stages
            && (i != at ==> i < |ms| && r[i] == ms[i])
            && (i == at ==> r[i] == Record(if at < |ms| then ms[at] else NewMatch(cb, details), s, p))
            && (i < |ms| ==> r[i].callback == ms[i].callback && ms[i].stages <= r[i].stages)
  {
  }

  lemma AddedMatches(ms: seq<Match>, pipeline: nat, base: Origins, details: nat, s: Shader, list: seq<Registration>,
                     p: nat)
    requires p < |list| && s.stage < STAGE_COUNT && s.hash != 0 && AllTidy(ms) && Detailed(ms, details)
    requires IndexOk(ms, pipeline, list[p].callback.command, Cut(base, pipeline, details, s, list, p))
    ensures var cb := list[p].callback;
            var r := AddTo(ms, cb, details, s, p);
            Detailed(r, details) && MatchesFor(r, pipeline, cb.command, Cut(base, pipeline, details, s, list, p + 1))
  {
    hide MatchOk, Record, Tidy, Cut, AddTo, Listed;
    var cb := list[p].callback;
    var c, at, r := cb.command, Position(ms, cb), AddTo(ms, cb, details, s, p);
    forall i | 0 <= i < |r|
      ensures r[i].details == details && MatchOk(r[i], pipeline, c, Cut(base, pipeline, details, s, list, p + 1))
    {
      AddToAt(ms, cb, details, s, p, i);
      if i != at {
        MatchStaysOk(ms[i], pipeline, c, base, details, s, list, p);
      } else {
        var m := if at < |ms| then ms[at] else NewMatch(cb, details);
        NewMatchOk(cb, pipeline, c, Cut(base, pipeline, details, s, list, p), details);
        NotYetListed(ms, pipeline, base, details, s, list, p);
        RecordedOk(m, pipeline, c, base, details, s, list, p);
        RecordDetails(m, s, p);
      }
    }
    NewMatchOk(cb, pipeline, c, base, details);
    forall i, j | 0 <= i < j < |r| ensures r[i].callback != r[j].callback {
      AddToAt(ms, cb, details, s, p, i);
      AddToAt(ms, cb, details, s, p, j);
      RecordDetails(if at < |ms| then ms[at] else NewMatch(cb, details), s, p);
    }
  }

  lemma RecordDetails(m: Match, s: Shader, p: nat)
    requires Tidy(m) && s.stage < STAGE_COUNT
    ensures Record(m, s, p).details == m.details && Record(m, s, p).callback == m.callback
  {
  }

  lemma NewMatchOk(cb: Callback, pipeline: nat, c: Command, origins: Origins, details: nat)
    requires cb.command == c
    ensures MatchOk(NewMatch(cb, details), pipeline, c, origins) && Tidy(NewMatch(cb, details))
  {
  }

  lemma NotYetListed(ms: seq<Match>, pipeline: nat, base: Origins, details: nat, s: Shader, list: seq<Registration>,
                     p: nat)
    requires p < |list| && s.stage < STAGE_COUNT
    requires IndexOk(ms, pipeline, list[p].callback.command, Cut(base, pipeline, details, s, list, p))
    ensures var cb := list[p].callback;
            var at := Position(ms, cb);
            (at < |ms| ==> s.stage !in ms[at].stages) ==>
                !Listed(Origin(list[..p], s.hash, {}, details), cb.command, cb)
  {
    hide Listed, MatchOk;
    CutAt(base, pipeline, details, s, list, p, s.stage);
  }

  lemma CoversMore(ms: seq<Match>, pipeline: nat, base: Origins, details: nat, s: Shader, list: seq<Registration>,
                   p: nat)
    requires p < |list| && s.stage < STAGE_COUNT && s.hash != 0 && AllTidy(ms)
    requires Covers(ms, pipeline, list[p].callback.command, Cut(base, pipeline, details, s, list, p))
    ensures var cb := list[p].callback;
            Covers(AddTo(ms, cb, details, s, p), pipeline, cb.command, Cut(base, pipeline, details, s, list, p + 1))
  {
    hide Record, Tidy, Cut, AddTo, Listed;
    var cb := list[p].callback;
    var c, at, r := cb.command, Position(ms, cb), AddTo(ms, cb, details, s, p);
    var o, o' := Cut(base, pipeline, details, s, list, p), Cut(base, pipeline, details, s, list, p + 1);
    forall stage: nat, cb': Callback | stage < STAGE_COUNT && Listed(OriginOf(o', Bound(pipeline, stage)), c, cb')
      ensures exists i :: 0 <= i < |r| && r[i].callback == cb' && stage in r[i].stages
    {
      LongerList(list, p, s.hash, details, c, cb');
      CutAt(base, pipeline, details, s, list, p, stage);
      CutAt(base, pipeline, details, s, list, p + 1, stage);
      if Listed(OriginOf(o, Bound(pipeline, stage)), c, cb') {
        var i :| 0 <= i < |ms| && ms[i].callback == cb' && stage in ms[i].stages;
        AddToAt(ms, cb, details, s, p, i);
      } else {
        AddToAt(ms, cb, details, s, p, at);
      }
    }
  }

  lemma OtherCommand(ms: seq<Match>, pipeline: nat, c: Command, base: Origins, details: nat, s: Shader,
                     list: seq<Registration>, p: nat)
    requires p < |list| && list[p].callback.command != c
    requires IndexOk(ms, pipeline, c, Cut(base, pipeline, details, s, list, p))
    ensures IndexOk(ms, pipeline, c, Cut(base, pipeline, details, s, list, p + 1))
  {
    hide MatchOk, Cut, Listed;
    var o, o' := Cut(base, pipeline, details, s, list, p), Cut(base, pipeline, details, s, list, p + 1);
    forall i | 0 <= i < |ms| ensures MatchOk(ms[i], pipeline, c, o') {
      MatchStaysOk(ms[i], pipeline, c, base, details, s, list, p);
    }
    forall stage: nat, cb: Callback | stage < STAGE_COUNT && Listed(OriginOf(o', Bound(pipeline, stage)), c, cb)
      ensures exists i :: 0 <= i < |ms| && ms[i].callback == cb && stage in ms[i].stages
    {
      ListedCommand(OriginOf(o', Bound(pipeline, stage)), c, cb);
      LongerList(list, p, s.hash, details, c, cb);
      CutAt(base, pipeline, details, s, list, p, stage);
      CutAt(base, pipeline, details, s, list, p + 1, stage);
      assert Listed(OriginOf(o, Bound(pipeline, stage)), c, cb);
    }
  }

  lemma ListedCommand(o: Origin, c: Command, cb: Callback)
    requires Listed(o, c, cb)
    ensures cb.command == c
  {
  }

  // ---- Whole groups ----

  ghost predicate GroupsIndexed(groups: Groups, pipeline: nat, details: nat, origins: Origins) {
    && TidyGroups(groups)
    && forall c: Command :: Detailed(GroupOf(groups, c), details) && IndexOk(GroupOf(groups, c), pipeline, c, origins)
  }

  lemma {:induction false} AddListIndexes(groups: Groups, pipeline: nat, base: Origins, details: nat, s: Shader,
                                          list: seq<Registration>, p: nat)
    requires p <= |list| && s.stage < STAGE_COUNT && s.hash != 0
    requires GroupsIndexed(groups, pipeline, details, Cut(base, pipeline, details, s, list, 0))
    ensures GroupsIndexed(AddList(groups, details, s, list, p), pipeline, details,
                          Cut(base, pipeline, details, s, list, p))
  {
    hide AddTo, Detailed, IndexOk, Cut, AllTidy;
    if p > 0 {
      AddListIndexes(groups, pipeline, base, details, s, list, p - 1);
      AddListStep(AddList(groups, details, s, list, p - 1), pipeline, base, details, s, list, p - 1);
    }
  }

  lemma AddListStep(groups: Groups, pipeline: nat, base: Origins, details: nat, s: Shader, list: seq<Registration>,
                    p: nat)
    requires p < |list| && s.stage < STAGE_COUNT && s.hash != 0
    requires GroupsIndexed(groups, pipeline, details, Cut(base, pipeline, details, s, list, p))
    ensures var cb := list[p].callback;
            GroupsIndexed(groups[cb.command := AddTo(GroupOf(groups, cb.command), cb, details, s, p)],
                          pipeline, details, Cut(base, pipeline, details, s, list, p + 1))
  {
    hide AddTo, Detailed, Cut, Tidy, MatchesFor, Covers;
    var cb := list[p].callback;
    var ms := GroupOf(groups, cb.command);
    var groups' := groups[cb.command := AddTo(ms, cb, details, s, p)];
    assert AllTidy(ms);
    forall c: Command
      ensures Detailed(GroupOf(groups', c), details)
      ensures IndexOk(GroupOf(groups', c), pipeline, c, Cut(base, pipeline, details, s, list, p + 1))
    {
      if c == cb.command {
        AddedMatches(ms, pipeline, base, details, s, list, p);
        CoversMore(ms, pipeline, base, details, s, list, p);
      } else {
        OtherCommand(GroupOf(groups, c), pipeline, c, base, details, s, list, p);
      }
    }
  }

  // The origins of a pipeline: per stage, the list that its shader's hash has in the table.
  function MatchedLists(shaders: seq<Shader>, pipeline: nat, details: nat, table: Table, k: nat): Origins
    requires k <= |shaders|
  {
    if k == 0 then map[]
    else
      var s := shaders[k - 1];
      MatchedLists(shaders, pipeline, details, table, k - 1)
      [(pipeline, s.stage) := Origin(ListOf(table, s.hash), s.hash, {}, details)]
  }

  predicate OneShaderPerStage(shaders: seq<Shader>) {
    forall i, j :: 0 <= i < j < |shaders| ==> shaders[i].stage != shaders[j].stage
  }

  lemma MatchedKeys(shaders: seq<Shader>, pipeline: nat, details: nat, table: Table, k: nat, key: (nat, nat))
    requires k <= |shaders|
    ensures key in MatchedLists(shaders, pipeline, details, table, k) <==>
            key.0 == pipeline && exists i :: 0 <= i < k && shaders[i].stage == key.1
  {
    if k > 0 { MatchedKeys(shaders, pipeline, details, table, k - 1, key); }
  }

  // An empty list under a new key changes nothing.
  lemma EmptyListAdded(groups: Groups, pipeline: nat, details: nat, base: Origins, s: Shader, list: seq<Registration>)
    requires GroupsIndexed(groups, pipeline, details, base) && (pipeline, s.stage) !in base
    ensures GroupsIndexed(groups, pipeline, details, Cut(base, pipeline, details, s, list, 0))
  {
    hide Tidy, FirstAt;
    var o' := Cut(base, pipeline, details, s, list, 0);
    forall c: Command
      ensures IndexOk(GroupOf(groups, c), pipeline, c, o')
    {
      var ms := GroupOf(groups, c);
      assert IndexOk(ms, pipeline, c, base);
      forall i | 0 <= i < |ms| ensures MatchOk(ms[i], pipeline, c, o') {
        EmptyKeepsMatch(ms[i], pipeline, c, details, base, s, list);
      }
      forall stage: nat, cb: Callback | stage < STAGE_COUNT && Listed(OriginOf(o', Bound(pipeline, stage)), c, cb)
        ensures exists i :: 0 <= i < |ms| && ms[i].callback == cb && stage in ms[i].stages
      {
        CutAt(base, pipeline, details, s, list, 0, stage);
        assert Listed(OriginOf(base, Bound(pipeline, stage)), c, cb);
      }
    }
  }

  lemma EmptyKeepsMatch(m: Match, pipeline: nat, c: Command, details: nat, base: Origins, s: Shader,
                        list: seq<Registration>)
    requires MatchOk(m, pipeline, c, base) && (pipeline, s.stage) !in base
    ensures MatchOk(m, pipeline, c, Cut(base, pipeline, details, s, list, 0))
  {
    forall stage | stage in m.stages ensures stage != s.stage {
      assert Alive(OriginOf(base, Bound(pipeline, stage)), c, m.positions[stage]);
    }
  }

  // OnInitPipeline's groups index exactly the registrations of the pipeline's shaders.
  lemma {:induction false} PrepareIndexes(shaders: seq<Shader>, pipeline: nat, details: nat, table: Table, k: nat)
    requires k <= |shaders| && 0 !in table && OneShaderPerStage(shaders)
    ensures GroupsIndexed(Prepare(shaders, table, details, k), pipeline, details,
                          MatchedLists(shaders, pipeline, details, table, k))
  {
    hide GroupsIndexed, AddList;
    if k == 0 {
      NothingIndexed(pipeline, details);
    } else {
      PrepareIndexes(shaders, pipeline, details, table, k - 1);
      var base, s := MatchedLists(shaders, pipeline, details, table, k - 1), shaders[k - 1];
      var list, groups := ListOf(table, s.hash), Prepare(shaders, table, details, k - 1);
      MatchedKeys(shaders, pipeline, details, table, k - 1, (pipeline, s.stage));
      EmptyListAdded(groups, pipeline, details, base, s, list);
      assert list[..|list|] == list && list[..0] == [];
      if s.stage < STAGE_COUNT && s.hash in table {
        AddListIndexes(groups, pipeline, base, details, s, list, |list|);
      } else if s.stage >= STAGE_COUNT {
        HighStageIgnored(groups, pipeline, details, base, s, list);
      }
    }
  }

  lemma NothingIndexed(pipeline: nat, details: nat)
    ensures GroupsIndexed(map[], pipeline, details, map[])
  {
  }

  // Stages outside the list of stages are looked at by nobody.
  lemma HighStageIgnored(groups: Groups, pipeline: nat, details: nat, base: Origins, s: Shader, list: seq<Registration>)
    requires GroupsIndexed(groups, pipeline, details, base) && s.stage >= STAGE_COUNT
    ensures GroupsIndexed(groups, pipeline, details, Cut(base, pipeline, details, s, list, |list|))
  {
    hide Tidy, FirstAt;
    var o' := Cut(base, pipeline, details, s, list, |list|);
    forall c: Command ensures IndexOk(GroupOf(groups, c), pipeline, c, o') {
      var ms := GroupOf(groups, c);
      assert IndexOk(ms, pipeline, c, base);
      forall stage: nat | stage < STAGE_COUNT
        ensures OriginOf(o', Bound(pipeline, stage)) == OriginOf(base, Bound(pipeline, stage))
      {
        CutAt(base, pipeline, details, s, list, |list|, stage);
      }
    }
  }

  // ---- Unregistering ----

  function KeptMatches(ms: seq<Match>, identity: nat): seq<Match> {
    if ms == [] then []
    else
      var kept := KeptMatches(ms[..|ms| - 1], identity);
      if ms[|ms| - 1].callback.identity == identity then kept else kept + [ms[|ms| - 1]]
  }

  function Prune(origins: Origins, identity: nat): Origins {
    map k <- origins :: origins[k].(removed := origins[k].removed + {identity})
  }

  lemma {:induction false} KeptHas(ms: seq<Match>, identity: nat, m: Match)
    ensures m in KeptMatches(ms, identity) <==> m in ms && m.callback.identity != identity
  {
    if ms != [] {
      KeptHas(ms[..|ms| - 1], identity, m);
      assert ms == ms[..|ms| - 1] + [ms[|ms| - 1]];
    }
  }

  lemma PrunedOrigin(o: Origin, identity: nat, c: Command, cb: Callback)
    ensures var o' := o.(removed := o.removed + {identity});
            && (forall p: nat :: cb.identity != identity && FirstAt(o, c, cb, p) ==> FirstAt(o', c, cb, p))
            && (Listed(o', c, cb) ==> Listed(o, c, cb) && cb.identity != identity)
  {
    var o' := o.(removed := o.removed + {identity});
    assert forall p: nat :: Alive(o', c, p) ==> Alive(o, c, p) && o.list[p].callback.identity != identity;
    if Listed(o', c, cb) {
      var p: nat :| Alive(o', c, p) && o'.list[p].callback == cb;
      ListedAt(o, c, cb, p);
    }
  }

  // Origins without the key stay the empty origin, which lists nothing.
  lemma PruneAt(origins: Origins, identity: nat, b: Bound)
    ensures var o, o' := OriginOf(origins, b), OriginOf(Prune(origins, identity), b);
            o' == (if (b.pipeline, b.stage) in origins then o.(removed := o.removed + {identity}) else o)
            && ((b.pipeline, b.stage) !in origins ==> o.list == [])
  {
  }

  lemma NothingListed(o: Origin, c: Command, cb: Callback)
    requires o.list == []
    ensures !Listed(o, c, cb) && forall p: nat :: !FirstAt(o, c, cb, p)
  {
  }

  lemma PrunedMatch(m: Match, pipeline: nat, c: Command, origins: Origins, identity: nat)
    requires MatchOk(m, pipeline, c, origins) && m.callback.identity != identity
    ensures MatchOk(m, pipeline, c, Prune(origins, identity))
  {
    hide FirstAt, Prune;
    forall s | s in m.stages
      ensures var o := OriginOf(Prune(origins, identity), Bound(pipeline, s));
              FirstAt(o, c, m.callback, m.positions[s]) && m.hashes[s] == o.hash && m.details == o.details
    {
      PruneAt(origins, identity, Bound(pipeline, s));
      PrunedOrigin(OriginOf(origins, Bound(pipeline, s)), identity, c, m.callback);
    }
  }

  lemma {:induction false} PrunedMatches(ms: seq<Match>, pipeline: nat, c: Command, origins: Origins, identity: nat)
    requires MatchesFor(ms, pipeline, c, origins)
    ensures MatchesFor(KeptMatches(ms, identity), pipeline, c, Prune(origins, identity))
    decreases |ms|
  {
    hide MatchOk, Prune;
    if ms != [] {
      var front, last := ms[..|ms| - 1], ms[|ms| - 1];
      PrunedMatches(front, pipeline, c, origins, identity);
      var kept := KeptMatches(front, identity);
      if last.callback.identity != identity {
        PrunedMatch(last, pipeline, c, origins, identity);
        forall i | 0 <= i < |kept| ensures kept[i].callback != last.callback {
          KeptHas(front, identity, kept[i]);
        }
      }
    }
  }

  lemma PrunedIndex(ms: seq<Match>, pipeline: nat, c: Command, origins: Origins, identity: nat)
    requires IndexOk(ms, pipeline, c, origins)
    ensures IndexOk(KeptMatches(ms, identity), pipeline, c, Prune(origins, identity))
  {
    PrunedMatches(ms, pipeline, c, origins, identity);
    hide MatchesFor, Prune, Listed;
    var kept := KeptMatches(ms, identity);
    forall s: nat, cb: Callback
      | s < STAGE_COUNT && Listed(OriginOf(Prune(origins, identity), Bound(pipeline, s)), c, cb)
      ensures exists i :: 0 <= i < |kept| && kept[i].callback == cb && s in kept[i].stages
    {
      PruneAt(origins, identity, Bound(pipeline, s));
      var o := OriginOf(origins, Bound(pipeline, s));
      PrunedOrigin(o, identity, c, cb);
      if o.list == [] { NothingListed(o, c, cb); }
      var i :| 0 <= i < |ms| && ms[i].callback == cb && s in ms[i].stages;
      KeptHas(ms, identity, ms[i]);
    }
  }

  lemma {:induction false} KeptTwice(list: seq<Registration>, removed: set<nat>, identity: nat)
    ensures Kept(Kept(list, removed), {identity}) == Kept(list, removed + {identity})
  {
    if list != [] {
      KeptTwice(list[..|list| - 1], removed, identity);
      var kept := Kept(list[..|list| - 1], removed);
      assert (kept + [list[|list| - 1]])[..|kept|] == kept;
    }
  }

  lemma {:induction false} KeptAll(list: seq<Registration>)
    ensures Kept(list, {}) == list
  {
    if list != [] { KeptAll(list[..|list| - 1]); }
  }
}
