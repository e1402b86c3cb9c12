// What the lists and scans of command dispatch mean, stated by positions: which registrations a list holds, which
// lists a pipeline was prepared from, and which registrations a command calls.
module CommandSelection {
  import opened CommandProtocol
  import opened CommandIndex
  import opened CommandPrepare
  import opened CommandAction

  // ---- Filtered lists ----

  // The registrations that satisfy `keep`, in their order: `ps` are their positions.
  ghost predicate Picks(list: seq<Registration>, r: seq<Registration>, keep: Registration -> bool, ps: seq<nat>) {
    && |ps| == |r|
    && (forall i, j :: 0 <= i < j < |ps| ==> ps[i] < ps[j])
    && (forall p: nat :: p in ps <==> p < |list| && keep(list[p]))
    && (forall k :: 0 <= k < |ps| ==> ps[k] < |list| && r[k] == list[ps[k]])
  }

  lemma PicksLast(list: seq<Registration>, r: seq<Registration>, keep: Registration -> bool, ps: seq<nat>,
                  last: Registration)
    requires Picks(list, r, keep, ps)
    ensures if keep(last) then Picks(list + [last], r + [last], keep, ps + [|list|])
            else Picks(list + [last], r, keep, ps)
  {
    forall i | 0 <= i < |ps| ensures ps[i] < |list| { assert ps[i] in ps; }
  }

  // Removing callbacks keeps the registrations of all other identities, in order, and nothing else.
  lemma {:induction false} KeptPicks(list: seq<Registration>, removed: set<nat>) returns (ps: seq<nat>)
    ensures Picks(list, Kept(list, removed), (r: Registration) => r.callback.identity !in removed, ps)
    decreases |list|
  {
    if list == [] {
      ps := [];
    } else {
      var front, last := list[..|list| - 1], list[|list| - 1];
      ps := KeptPicks(front, removed);
      PicksLast(front, Kept(front, removed), (r: Registration) => r.callback.identity !in removed, ps, last);
      assert front + [last] == list;
      if last.callback.identity !in removed { ps := ps + [|front|]; }
    }
  }

  lemma {:induction false} WithoutPicks(list: seq<Registration>, identity: nat, data: nat, mask: set<Command>)
    returns (ps: seq<nat>)
    ensures Picks(list, Without(list, identity, data, mask),
                  (r: Registration) => !(r.callback.identity == identity && r.callback.data == data && r.mask == mask),
                  ps)
    decreases |list|
  {
    if list == [] {
      ps := [];
    } else {
      var front, last := list[..|list| - 1], list[|list| - 1];
      ps := WithoutPicks(front, identity, data, mask);
      PicksLast(front, Without(front, identity, data, mask),
                (r: Registration) => !(r.callback.identity == identity && r.callback.data == data && r.mask == mask),
                ps, last);
      assert front + [last] == list;
      WithoutLast(front, last, identity, data, mask);
      if !(last.callback.identity == identity && last.callback.data == data && last.mask == mask) {
        ps := ps + [|front|];
      }
    }
  }

  function Rank(c: Command): nat {
    match c
    case Draw => 0
    case DrawIndexed => 1
    case Dispatch => 2
    case Indirect => 3
    case DispatchMesh => 4
  }

  // One registration for each of the commands, in the order of their kinds.
  ghost predicate OneForEach(r: seq<Registration>, commands: set<Command>, identity: nat, data: nat,
                             mask: set<Command>, thunk: Command -> nat) {
    && (forall e :: e in r <==>
          e.callback.command in commands && e == Registration(Callback(e.callback.command, thunk(e.callback.command),
                                                                       identity, data), mask))
    && forall i, j :: 0 <= i < j < |r| ==> Rank(r[i].callback.command) < Rank(r[j].callback.command)
  }

  lemma {:induction false} EntriesUpTo(n: nat, identity: nat, data: nat, mask: set<Command>, selected: set<Command>,
                                       thunk: Command -> nat)
    requires n <= |COMMANDS|
    ensures OneForEach(Entries(n, identity, data, mask, selected, thunk),
                       (set c | c in mask && c in selected && Rank(c) < n), identity, data, mask, thunk)
  {
    if n > 0 {
      EntriesUpTo(n - 1, identity, data, mask, selected, thunk);
      var front := Entries(n - 1, identity, data, mask, selected, thunk);
      var c := COMMANDS[n - 1];
      assert forall d: Command :: Rank(d) == n - 1 <==> d == c;
      forall i | 0 <= i < |front| ensures Rank(front[i].callback.command) < n - 1 { assert front[i] in front; }
    }
  }

  // Registering keeps every other registration of the list in its place and appends one for each command.
  lemma UpdatedList(list: seq<Registration>, identity: nat, data: nat, mask: set<Command>, selected: set<Command>,
                    thunk: Command -> nat)
    returns (kept: seq<Registration>, added: seq<Registration>, ps: seq<nat>)
    ensures Updated(list, identity, data, mask, selected, thunk) == kept + added
    ensures Picks(list, kept,
                  (r: Registration) => !(r.callback.identity == identity && r.callback.data == data && r.mask == mask),
                  ps)
    ensures OneForEach(added, mask * selected, identity, data, mask, thunk)
  {
    ps := WithoutPicks(list, identity, data, mask);
    kept, added := Without(list, identity, data, mask), Entries(|COMMANDS|, identity, data, mask, selected, thunk);
    EntriesUpTo(|COMMANDS|, identity, data, mask, selected, thunk);
    assert (set c | c in mask && c in selected && Rank(c) < |COMMANDS|) == mask * selected;
  }

  // ---- What a pipeline was prepared from ----

  // Each shader of a pipeline is matched against the whole list of its hash; other stages against nothing.
  lemma {:induction false} MatchedAt(shaders: seq<Shader>, pipeline: nat, details: nat, table: Table, k: nat, i: nat)
    requires i < k <= |shaders| && OneShaderPerStage(shaders)
    ensures OriginOf(MatchedLists(shaders, pipeline, details, table, k), Bound(pipeline, shaders[i].stage)) ==
            Origin(ListOf(table, shaders[i].hash), shaders[i].hash, {}, details)
  {
    if i < k - 1 { MatchedAt(shaders, pipeline, details, table, k - 1, i); }
  }

  // Preparing a pipeline records for each of its shaders the list that its hash has now, and nothing else changes.
  lemma PreparedFrom(origins: Origins, shaders: seq<Shader>, pipeline: nat, details: nat, table: Table, p: nat, s: nat)
    requires OneShaderPerStage(shaders)
    ensures var o := OriginOf(Reinitialized(origins, MatchedLists(shaders, pipeline, details, table, |shaders|),
                                            pipeline),
                              Bound(p, s));
            && (p != pipeline ==> o == OriginOf(origins, Bound(p, s)))
            && (p == pipeline ==>
                  && (forall i :: 0 <= i < |shaders| && shaders[i].stage == s ==>
                        o == Origin(if shaders[i].hash in table then table[shaders[i].hash]
                                    else [], shaders[i].hash, {},
                                    details))
                  && ((forall i :: 0 <= i < |shaders| ==> shaders[i].stage != s) ==> o.list == []))
  {
    MatchedOrigin(origins, shaders, pipeline, details, table, p, s);
    MatchedKeys(shaders, pipeline, details, table, |shaders|, (p, s));
    if i :| 0 <= i < |shaders| && shaders[i].stage == s {
      MatchedAt(shaders, pipeline, details, table, |shaders|, i);
    }
  }

  // ---- Which registrations a command calls ----

  // The registration at a position of the list of one slot's shader.
  datatype Site = Site(slot: nat, position: nat)

  predicate Candidate(slots: seq<Bound>, origins: Origins, c: Command, x: Site) {
    && x.slot < |slots|
    && var o := OriginOf(origins, slots[x.slot]);
       && x.position < |o.list| && o.list[x.position].callback.command == c
       && o.list[x.position].callback.identity !in o.removed
  }

  function CallAt(slots: seq<Bound>, origins: Origins, c: Command, x: Site): Call
    requires Candidate(slots, origins, c, x)
  {
    var b := slots[x.slot];
    var o := OriginOf(origins, b);
    Call(o.list[x.position].callback, Matched.Shader(o.hash, b.stage, b.pipeline, o.details))
  }

  function PairAt(slots: seq<Bound>, origins: Origins, c: Command, x: Site): (nat, nat)
    requires Candidate(slots, origins, c, x)
  {
    var cb := OriginOf(origins, slots[x.slot]).list[x.position].callback;
    (cb.identity, cb.data)
  }

  predicate Earlier(a: Site, b: Site) {
    a.slot < b.slot || (a.slot == b.slot && a.position < b.position)
  }

  // No earlier registration has the same identity and configuration.
  ghost predicate Chosen(slots: seq<Bound>, origins: Origins, c: Command, x: Site) {
    && Candidate(slots, origins, c, x)
    && forall y: Site :: Candidate(slots, origins, c, y) && Earlier(y, x) ==>
         PairAt(slots, origins, c, y) != PairAt(slots, origins, c, x)
  }

  // The calls are those of the chosen sites below the end, in order.
  ghost predicate CallsAt(slots: seq<Bound>, origins: Origins, c: Command, calls: seq<Call>, sites: seq<Site>,
                          end: Site) {
    && |sites| == |calls|
    && (forall x: Site :: x in sites <==> Chosen(slots, origins, c, x) && Earlier(x, end))
    && (forall i :: 0 <= i < |sites| ==>
          Candidate(slots, origins, c, sites[i]) && calls[i] == CallAt(slots, origins, c, sites[i]))
    && (forall i, j :: 0 <= i < j < |sites| ==> Earlier(sites[i], sites[j]))
  }

  ghost predicate CalledBelow(slots: seq<Bound>, origins: Origins, c: Command, called: set<(nat, nat)>, end: Site) {
    && (forall x: Site :: Candidate(slots, origins, c, x) && Earlier(x, end) ==> PairAt(slots, origins, c, x) in called)
    && (forall pair :: pair in called ==>
          exists x: Site :: Candidate(slots, origins, c, x) && Earlier(x, end) && PairAt(slots, origins, c, x) == pair)
  }

  lemma Skipped(slots: seq<Bound>, origins: Origins, c: Command, s: Scan, sites: seq<Site>, end: Site, end': Site)
    requires CallsAt(slots, origins, c, s.calls, sites, end) && CalledBelow(slots, origins, c, s.called, end)
    requires forall x: Site :: Candidate(slots, origins, c, x) ==> (Earlier(x, end) <==> Earlier(x, end'))
    ensures CallsAt(slots, origins, c, s.calls, sites, end') && CalledBelow(slots, origins, c, s.called, end')
  {
    hide Candidate, Earlier;
  }

  lemma EarlierNext(end: Site)
    ensures forall x: Site :: Earlier(x, end.(position := end.position + 1)) <==> Earlier(x, end) || x == end
  {
  }

  lemma RepeatScanned(slots: seq<Bound>, origins: Origins, c: Command, s: Scan, sites: seq<Site>, end: Site)
    requires CallsAt(slots, origins, c, s.calls, sites, end) && CalledBelow(slots, origins, c, s.called, end)
    requires Candidate(slots, origins, c, end) && PairAt(slots, origins, c, end) in s.called
    ensures var end' := end.(position := end.position + 1);
            CallsAt(slots, origins, c, s.calls, sites, end') && CalledBelow(slots, origins, c, s.called, end')
  {
    EarlierNext(end);
    hide Candidate, Earlier, PairAt, CallAt;
    var y: Site :|
      Candidate(slots, origins, c, y) && Earlier(y, end)
      && PairAt(slots, origins, c, y) == PairAt(slots, origins, c, end);
    assert !Chosen(slots, origins, c, end);
  }

  lemma CallsMore(slots: seq<Bound>, origins: Origins, c: Command, calls: seq<Call>, sites: seq<Site>, end: Site)
    requires CallsAt(slots, origins, c, calls, sites, end)
    requires Candidate(slots, origins, c, end) && Chosen(slots, origins, c, end)
    ensures CallsAt(slots, origins, c, calls + [CallAt(slots, origins, c, end)], sites + [end],
                    end.(position := end.position + 1))
  {
    EarlierNext(end);
    hide Chosen, Candidate, Earlier, CallAt;
    forall i | 0 <= i < |sites| ensures Earlier(sites[i], end) { assert sites[i] in sites; }
  }

  lemma CalledMore(slots: seq<Bound>, origins: Origins, c: Command, called: set<(nat, nat)>, end: Site)
    requires CalledBelow(slots, origins, c, called, end) && Candidate(slots, origins, c, end)
    ensures CalledBelow(slots, origins, c, called + {PairAt(slots, origins, c, end)},
                        end.(position := end.position + 1))
  {
    EarlierNext(end);
    hide Candidate, Earlier, PairAt;
    var called', end' := called + {PairAt(slots, origins, c, end)}, end.(position := end.position + 1);
    forall pair | pair in called'
      ensures exists x: Site ::
                Candidate(slots, origins, c, x) && Earlier(x, end') && PairAt(slots, origins, c, x) == pair
    {
      if pair in called {
        var x: Site :| Candidate(slots, origins, c, x) && Earlier(x, end) && PairAt(slots, origins, c, x) == pair;
        assert Earlier(x, end');
      } else {
        assert Earlier(end, end');
      }
    }
  }

  lemma CandidateScanned(slots: seq<Bound>, origins: Origins, c: Command, s: Scan, sites: seq<Site>, end: Site)
    returns (sites': seq<Site>)
    requires CallsAt(slots, origins, c, s.calls, sites, end) && CalledBelow(slots, origins, c, s.called, end)
    requires Candidate(slots, origins, c, end)
    ensures var pair, end' := PairAt(slots, origins, c, end), end.(position := end.position + 1);
            var s' := if pair in s.called then s
                      else Scan(s.calls + [CallAt(slots, origins, c, end)], s.called + {pair});
            CallsAt(slots, origins, c, s'.calls, sites', end') && CalledBelow(slots, origins, c, s'.called, end')
  {
    hide Candidate, CallAt, PairAt, CallsAt;
    if PairAt(slots, origins, c, end) in s.called {
      sites' := sites;
      RepeatScanned(slots, origins, c, s, sites, end);
    } else {
      assert Chosen(slots, origins, c, end);
      sites' := sites + [end];
      CallsMore(slots, origins, c, s.calls, sites, end);
      CalledMore(slots, origins, c, s.called, end);
    }
  }

  lemma {:induction false} ListScanned(slots: seq<Bound>, origins: Origins, c: Command, n: nat, s: Scan,
                                       sites: seq<Site>, p: nat)
    returns (sites': seq<Site>)
    requires n < |slots| && p <= |OriginOf(origins, slots[n]).list|
    requires CallsAt(slots, origins, c, s.calls, sites, Site(n, 0))
    requires CalledBelow(slots, origins, c, s.called, Site(n, 0))
    ensures var s' := ScanList(s, OriginOf(origins, slots[n]), c, slots[n], p);
            && CallsAt(slots, origins, c, s'.calls, sites', Site(n, p))
            && CalledBelow(slots, origins, c, s'.called, Site(n, p))
    decreases p
  {
    hide CallsAt, CalledBelow;
    if p == 0 {
      sites' := sites;
    } else {
      sites' := ListScanned(slots, origins, c, n, s, sites, p - 1);
      var s' := ScanList(s, OriginOf(origins, slots[n]), c, slots[n], p - 1);
      if Alive(OriginOf(origins, slots[n]), c, p - 1) {
        sites' := CandidateScanned(slots, origins, c, s', sites', Site(n, p - 1));
      } else {
        Skipped(slots, origins, c, s', sites', Site(n, p - 1), Site(n, p));
      }
    }
  }

  lemma {:induction false} SlotsScanned(slots: seq<Bound>, origins: Origins, c: Command, n: nat)
    returns (sites: seq<Site>)
    requires n <= |slots|
    ensures var s := ScanSlots(slots, origins, c, n);
            CallsAt(slots, origins, c, s.calls, sites, Site(n, 0))
              && CalledBelow(slots, origins, c, s.called, Site(n, 0))
    decreases n
  {
    hide ScanList;
    if n == 0 {
      sites := [];
    } else {
      hide CallsAt, CalledBelow;
      sites := SlotsScanned(slots, origins, c, n - 1);
      var list := OriginOf(origins, slots[n - 1]).list;
      var s := ScanSlots(slots, origins, c, n - 1);
      sites := ListScanned(slots, origins, c, n - 1, s, sites, |list|);
      Skipped(slots, origins, c, ScanList(s, OriginOf(origins, slots[n - 1]), c, slots[n - 1], |list|), sites,
              Site(n - 1, |list|), Site(n, 0));
    }
  }

  // A command calls exactly the registrations for it in the lists of its slots' shaders that no earlier one of the
  // same identity and configuration precedes: slot by slot, and in each list in the order of registration.
  lemma ScanSelects(slots: seq<Bound>, origins: Origins, c: Command) returns (sites: seq<Site>)
    ensures var calls := ScanSlots(slots, origins, c, |slots|).calls;
            && |sites| == |calls|
            && (forall x: Site :: x in sites <==> Chosen(slots, origins, c, x))
            && (forall i :: 0 <= i < |sites| ==>
                  Candidate(slots, origins, c, sites[i]) && calls[i] == CallAt(slots, origins, c, sites[i]))
            && (forall i, j :: 0 <= i < j < |sites| ==> Earlier(sites[i], sites[j]))
  {
    sites := SlotsScanned(slots, origins, c, |slots|);
  }
}
