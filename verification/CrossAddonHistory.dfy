// What a sequence of operations says about modules and events, read off the sequence alone, and that the host's
// registrations are what it says.
module CrossAddonHistory {
  import opened Wrappers
  import opened CrossAddon

  // ---- What the sequence says ----

  // The module gets a record now if it has none yet.
  predicate Introduces(a: Action, t: nat) {
    (a == Join(t, true)) || (a.AddEvent? && a.token == t && a.roomForModule)
  }

  ghost predicate HasRecord(actions: seq<Action>, t: nat) {
    exists i :: 0 <= i < |actions| && Introduces(actions[i], t)
  }

  predicate Enters(a: Action, t: nat) {
    (a.Join? || a.AddEvent?) && a.token == t
  }

  // The module joined, by itself or with an event, when it had or got a record, and has not left since.
  ghost predicate IsIn(actions: seq<Action>, t: nat) {
    exists i :: 0 <= i < |actions| && EnteredAt(actions, t, i)
  }

  ghost predicate EnteredAt(actions: seq<Action>, t: nat, i: nat)
    requires i < |actions|
  {
    && Enters(actions[i], t) && HasRecord(actions[..i + 1], t)
    && forall j :: i < j < |actions| ==> actions[j] != Leave(t)
  }

  predicate Adds(a: Action, t: nat, event: nat, callback: nat) {
    a.AddEvent? && a.token == t && a.event == event && a.callback == callback
  }

  // The event got a record when the module had or got one.
  ghost predicate HasEvent(actions: seq<Action>, t: nat, event: nat, callback: nat) {
    exists i :: 0 <= i < |actions| && RecordedAt(actions, t, event, callback, i)
  }

  ghost predicate RecordedAt(actions: seq<Action>, t: nat, event: nat, callback: nat, i: nat)
    requires i < |actions|
  {
    Adds(actions[i], t, event, callback) && actions[i].room && HasRecord(actions[..i + 1], t)
  }

  // The last word on an event and callback since the module's last leave was to add it as active, and it found or
  // got a record then.
  ghost predicate WantsBy(actions: seq<Action>, t: nat, event: nat, callback: nat) {
    exists i :: 0 <= i < |actions| && WantedAt(actions, t, event, callback, i)
  }

  ghost predicate WantedAt(actions: seq<Action>, t: nat, event: nat, callback: nat, i: nat)
    requires i < |actions|
  {
    && Adds(actions[i], t, event, callback) && actions[i].active
    && HasRecord(actions[..i + 1], t) && HasEvent(actions[..i + 1], t, event, callback)
    && forall j :: i < j < |actions| ==> !Ends(actions[j], t, event, callback)
  }

  predicate Ends(a: Action, t: nat, event: nat, callback: nat) {
    || a == Leave(t)
    || a == DropEvent(t, event, callback)
    || (Adds(a, t, event, callback) && !a.active)
  }

  // Some module wants the event.
  ghost predicate IsWanted(actions: seq<Action>, event: nat) {
    exists t: nat, callback: nat :: WantsBy(actions, t, event, callback)
  }

  // Module t got its record before module u.
  ghost predicate Older(actions: seq<Action>, t: nat, u: nat) {
    exists i :: 0 <= i < |actions| && Introduces(actions[i], t) && !HasRecord(actions[..i + 1], u)
  }

  // The module that handles events: of those that are in, the one that got its record first.
  ghost predicate Handles(actions: seq<Action>, t: nat) {
    IsIn(actions, t) && forall u: nat :: u != t && IsIn(actions, u) ==> Older(actions, t, u)
  }

  // ---- One more operation ----

  lemma MoreRecords(actions: seq<Action>, a: Action, t: nat)
    ensures HasRecord(actions + [a], t) <==> HasRecord(actions, t) || Introduces(a, t)
  {
    hide Introduces;
    var more := actions + [a];
    assert more[|actions|] == a;
    assert forall i :: 0 <= i < |actions| ==> more[i] == actions[i];
  }

  lemma SamePrefix(actions: seq<Action>, a: Action)
    ensures forall i :: 0 <= i < |actions| ==>
              (actions + [a])[i] == actions[i] && (actions + [a])[..i + 1] == actions[..i + 1]
    ensures (actions + [a])[|actions|] == a && (actions + [a])[..|actions| + 1] == actions + [a]
  {
  }

  lemma MoreEntries(actions: seq<Action>, a: Action, t: nat)
    ensures IsIn(actions + [a], t) <==>
            (Enters(a, t) && HasRecord(actions + [a], t)) || (IsIn(actions, t) && a != Leave(t))
  {
    hide HasRecord, Enters;
    var more := actions + [a];
    SamePrefix(actions, a);
    forall i | 0 <= i < |actions| ensures EnteredAt(more, t, i) <==> EnteredAt(actions, t, i) && a != Leave(t) {
      if EnteredAt(more, t, i) { assert more[|actions|] != Leave(t); }
    }
    assert EnteredAt(more, t, |actions|) <==> Enters(a, t) && HasRecord(more, t);
    hide EnteredAt;
  }

  lemma MoreEvents(actions: seq<Action>, a: Action, t: nat, event: nat, callback: nat)
    ensures HasEvent(actions + [a], t, event, callback) <==>
            HasEvent(actions, t, event, callback)
            || (Adds(a, t, event, callback) && a.room && HasRecord(actions + [a], t))
  {
    hide HasRecord;
    var more := actions + [a];
    SamePrefix(actions, a);
    assert forall i :: 0 <= i < |actions| ==>
        (RecordedAt(more, t, event, callback, i) <==> RecordedAt(actions, t, event, callback, i));
    assert RecordedAt(more, t, event, callback, |actions|) <==>
           Adds(a, t, event, callback) && a.room && HasRecord(more, t);
    hide RecordedAt;
  }

  lemma MoreWants(actions: seq<Action>, a: Action, t: nat, event: nat, callback: nat)
    ensures WantsBy(actions + [a], t, event, callback) <==>
            || (Adds(a, t, event, callback) && a.active && HasRecord(actions + [a], t)
                && HasEvent(actions + [a], t, event, callback))
            || (WantsBy(actions, t, event, callback) && !Ends(a, t, event, callback))
  {
    hide HasRecord, HasEvent, Ends;
    var more := actions + [a];
    SamePrefix(actions, a);
    forall i | 0 <= i < |actions|
      ensures WantedAt(more, t, event, callback, i) <==>
              WantedAt(actions, t, event, callback, i) && !Ends(a, t, event, callback)
    {
      if WantedAt(more, t, event, callback, i) { assert !Ends(more[|actions|], t, event, callback); }
    }
    assert WantedAt(more, t, event, callback, |actions|) <==>
           Adds(a, t, event, callback) && a.active && HasRecord(more, t) && HasEvent(more, t, event, callback);
    hide WantedAt;
  }

  lemma StaysOlder(actions: seq<Action>, a: Action, t: nat, u: nat)
    requires Older(actions, t, u)
    ensures Older(actions + [a], t, u)
  {
    hide Introduces, HasRecord;
    SamePrefix(actions, a);
    var i :| 0 <= i < |actions| && Introduces(actions[i], t) && !HasRecord(actions[..i + 1], u);
    assert Introduces((actions + [a])[i], t) && !HasRecord((actions + [a])[..i + 1], u);
  }

  lemma EarlierRecord(actions: seq<Action>, k: nat, t: nat)
    requires k <= |actions|
    ensures HasRecord(actions[..k], t) ==> HasRecord(actions, t)
  {
    if i :| 0 <= i < k && Introduces(actions[..k][i], t) { assert Introduces(actions[i], t); }
  }

  lemma RecordBy(actions: seq<Action>, i: nat, k: nat, t: nat)
    requires i < k <= |actions| && Introduces(actions[i], t)
    ensures HasRecord(actions[..k], t)
  {
    assert actions[..k][i] == actions[i];
  }

  lemma NewIsYounger(actions: seq<Action>, a: Action, t: nat, u: nat)
    requires HasRecord(actions, t) && !HasRecord(actions, u)
    ensures Older(actions + [a], t, u)
  {
    SamePrefix(actions, a);
    var i :| 0 <= i < |actions| && Introduces(actions[i], t);
    EarlierRecord(actions, i + 1, u);
    assert Introduces((actions + [a])[i], t) && !HasRecord((actions + [a])[..i + 1], u);
  }

  lemma NeverBothOlder(actions: seq<Action>, t: nat, u: nat)
    ensures !(Older(actions, t, u) && Older(actions, u, t))
  {
    if Older(actions, t, u) && Older(actions, u, t) {
      var i :| 0 <= i < |actions| && Introduces(actions[i], t) && !HasRecord(actions[..i + 1], u);
      var j :| 0 <= j < |actions| && Introduces(actions[j], u) && !HasRecord(actions[..j + 1], t);
      if i <= j { RecordBy(actions, i, j + 1, t); } else { RecordBy(actions, j, i + 1, u); }
    }
  }

  // ---- What the records say ----

  function Find(events: seq<EventRecord>, event: nat, callback: nat): Option<bool> {
    var k := EventIndex(events, event, callback);
    if k < |events| then Some(events[k].active) else None
  }

  function EventsOf(ms: seq<Module>, t: nat): seq<EventRecord> {
    var i := IndexOf(ms, t);
    if i < |ms| then ms[i].events else []
  }

  predicate Distinct(events: seq<EventRecord>) {
    forall i, j :: 0 <= i < j < |events| ==>
      (events[i].event, events[i].callback) != (events[j].event, events[j].callback)
  }

  // With distinct records it does not matter which one is found.
  lemma FindExactly(events: seq<EventRecord>, event: nat, callback: nat)
    requires Distinct(events)
    ensures Find(events, event, callback) == None <==>
            forall k :: 0 <= k < |events| ==> (events[k].event, events[k].callback) != (event, callback)
    ensures forall k :: 0 <= k < |events| && events[k].event == event && events[k].callback == callback ==>
              Find(events, event, callback) == Some(events[k].active)
  {
    hide EventIndex;
  }

  lemma FirstIs(events: seq<EventRecord>, k: nat, event: nat, callback: nat)
    requires k <= |events| && (k < |events| ==> events[k].event == event && events[k].callback == callback)
    requires forall j :: 0 <= j < k ==> !(events[j].event == event && events[j].callback == callback)
    ensures EventIndex(events, event, callback) == k
  {
  }

  predicate SameKeys(events: seq<EventRecord>, events': seq<EventRecord>) {
    && |events| == |events'|
    && forall k :: 0 <= k < |events| ==>
         events[k].event == events'[k].event && events[k].callback == events'[k].callback
  }

  lemma SameKeysSame(events: seq<EventRecord>, events': seq<EventRecord>, event: nat, callback: nat)
    requires SameKeys(events, events')
    ensures EventIndex(events', event, callback) == EventIndex(events, event, callback)
    ensures Distinct(events) ==> Distinct(events')
  {
    SameEventIndex(events, events', event, callback);
    hide EventIndex;
  }

  lemma SettledFinds(ms: seq<Module>, events: seq<EventRecord>, handling: bool, event: nat, callback: nat)
    ensures Find(SettleEvents(ms, events, handling), event, callback) == Find(events, event, callback)
    ensures Distinct(events) ==> Distinct(SettleEvents(ms, events, handling))
  {
    hide EventIndex, Wanted, Distinct;
    SameKeysSame(events, SettleEvents(ms, events, handling), event, callback);
  }

  lemma DeactivatedFinds(events: seq<EventRecord>, event: nat, callback: nat)
    ensures Find(Deactivate(events), event, callback) ==
            if Find(events, event, callback) == None then None else Some(false)
    ensures Distinct(events) ==> Distinct(Deactivate(events))
  {
    hide EventIndex, Distinct;
    SameKeysSame(events, Deactivate(events), event, callback);
  }

  lemma AddedFinds(events: seq<EventRecord>, e0: nat, c0: nat, active: bool, room: bool, event: nat, callback: nat)
    ensures Find(WithEvent(events, e0, c0, active, room), event, callback) ==
            if (event, callback) == (e0, c0) && (room || Find(events, e0, c0) != None) then Some(active)
            else Find(events, event, callback)
    ensures Distinct(events) ==> Distinct(WithEvent(events, e0, c0, active, room))
  {
    hide EventIndex, Distinct;
    var k := EventIndex(events, e0, c0);
    if k < |events| {
      SameKeysSame(events, WithEvent(events, e0, c0, active, room), event, callback);
    } else if room {
      FrontFinds(events, EventRecord(e0, c0, true, active, false), event, callback);
    }
  }

  lemma FrontFinds(events: seq<EventRecord>, r: EventRecord, event: nat, callback: nat)
    requires EventIndex(events, r.event, r.callback) == |events|
    ensures Find([r] + events, event, callback) ==
            if (event, callback) == (r.event, r.callback) then Some(r.active) else Find(events, event, callback)
    ensures Distinct(events) ==> Distinct([r] + events)
  {
    hide EventIndex, Distinct;
    if Distinct(events) { FrontDistinct(events, r); }
    if (event, callback) == (r.event, r.callback) {
      FirstIs([r] + events, 0, event, callback);
    } else {
      FrontIndex(events, r, event, callback);
    }
  }

  lemma FrontIndex(events: seq<EventRecord>, r: EventRecord, event: nat, callback: nat)
    requires (event, callback) != (r.event, r.callback)
    ensures EventIndex([r] + events, event, callback) == EventIndex(events, event, callback) + 1
  {
    hide EventIndex;
    var k, added := EventIndex(events, event, callback), [r] + events;
    forall j | 0 <= j < k + 1 ensures !(added[j].event == event && added[j].callback == callback) {
      if j > 0 { assert added[j] == events[j - 1]; }
    }
    FirstIs(added, k + 1, event, callback);
  }

  lemma FrontDistinct(events: seq<EventRecord>, r: EventRecord)
    requires EventIndex(events, r.event, r.callback) == |events| && Distinct(events)
    ensures Distinct([r] + events)
  {
    hide EventIndex;
    var added := [r] + events;
    assert forall i :: 0 <= i < |events| ==> added[i + 1] == events[i];
  }

  lemma DroppedFinds(events: seq<EventRecord>, e0: nat, c0: nat, event: nat, callback: nat)
    requires EventIndex(events, e0, c0) < |events|
    ensures var k := EventIndex(events, e0, c0);
            var dropped := events[k := events[k].(active := false)];
            && Find(dropped, event, callback) ==
               (if (event, callback) == (e0, c0) then Some(false) else Find(events, event, callback))
            && (Distinct(events) ==> Distinct(dropped))
  {
    hide EventIndex, Distinct;
    var k := EventIndex(events, e0, c0);
    SameKeysSame(events, events[k := events[k].(active := false)], event, callback);
  }

  predicate Rec(ms: seq<Module>, t: nat) {
    IndexOf(ms, t) < |ms|
  }

  function Status(ms: seq<Module>, t: nat, event: nat, callback: nat): Option<bool> {
    Find(EventsOf(ms, t), event, callback)
  }

  function Tokens(ms: seq<Module>): (ts: seq<nat>)
    ensures |ts| == |ms|
  {
    seq(|ms|, i requires 0 <= i < |ms| => ms[i].token)
  }

  // What one module's records say is all that changes.
  lemma ChangedModule(ms: seq<Module>, i: nat, m: Module, t: nat)
    requires i < |ms| && i == IndexOf(ms, m.token)
    ensures var ms' := ms[i := m];
            && Tokens(ms') == Tokens(ms) && IndexOf(ms', t) == IndexOf(ms, t)
            && EventsOf(ms', t) == (if t == m.token then m.events else EventsOf(ms, t))
            && IsActive(ms', t) == (if t == m.token then m.active else IsActive(ms, t))
  {
    SameTokens(ms, ms[i := m], t);
  }

  lemma AddedModule(ms: seq<Module>, m: Module, t: nat)
    requires m.events == [] && !Rec(ms, m.token)
    ensures var ms' := [m] + ms;
            && Tokens(ms') == [m.token] + Tokens(ms)
            && (Rec(ms', t) <==> t == m.token || Rec(ms, t))
            && EventsOf(ms', t) == EventsOf(ms, t)
            && IsActive(ms', t) == (if t == m.token then m.active else IsActive(ms, t))
  {
    assert ([m] + ms)[1..] == ms;
  }

  lemma SettledModules(ms: seq<Module>, t: nat, event: nat, callback: nat)
    ensures var ms' := Settle(ms);
            && Tokens(ms') == Tokens(ms) && IndexOf(ms', t) == IndexOf(ms, t) && IsActive(ms', t) == IsActive(ms, t)
            && Status(ms', t, event, callback) == Status(ms, t, event, callback)
            && (Distinct(EventsOf(ms, t)) ==> Distinct(EventsOf(ms', t)))
  {
    hide SettleEvents, Find, Elected, Distinct;
    SettleTokens(ms, t);
    SameTokens(ms, Settle(ms), t);
    var i := IndexOf(ms, t);
    if i < |ms| { SettledFinds(ms, ms[i].events, Elected(ms) == Some(i), event, callback); }
  }

  // The module of a joining operation: in, with a new record if it had none and there was room.
  lemma ActivatedModules(ms: seq<Module>, t0: nat, next: nat, room: bool, t: nat)
    ensures var ms' := Activated(ms, t0, next, room);
            && (Rec(ms', t) <==> Rec(ms, t) || (t == t0 && room))
            && (IsActive(ms', t) <==> (t == t0 && Rec(ms', t)) || IsActive(ms, t))
            && EventsOf(ms', t) == EventsOf(ms, t)
            && Tokens(ms') == if !Rec(ms, t0) && room then [t0] + Tokens(ms) else Tokens(ms)
  {
    var i := IndexOf(ms, t0);
    if i < |ms| {
      ChangedModule(ms, i, ms[i].(active := true), t);
    } else if room {
      AddedModule(ms, Module(t0, next, true, []), t);
    }
  }

  // What the operation makes of one event and callback of one module.
  function NextStatus(before: Option<bool>, a: Action, t: nat, event: nat, callback: nat, record: bool, active: bool):
    Option<bool>
  {
    if Adds(a, t, event, callback) && record && (a.room || before != None) then Some(a.active)
    else if before != None && active && (a == Leave(t) || a == DropEvent(t, event, callback)) then Some(false)
    else before
  }

  // `ms` are the records before, `ms'` the records after the operation.
  ghost predicate Moved(ms: seq<Module>, ms': seq<Module>, a: Action, t: nat, event: nat, callback: nat) {
    && (Rec(ms', t) <==> Rec(ms, t) || Introduces(a, t))
    && (IsActive(ms', t) <==> (Enters(a, t) && Rec(ms', t)) || (IsActive(ms, t) && a != Leave(t)))
    && Status(ms', t, event, callback) ==
       NextStatus(Status(ms, t, event, callback), a, t, event, callback, Rec(ms', t), IsActive(ms, t))
    && (Distinct(EventsOf(ms, t)) ==> Distinct(EventsOf(ms', t)))
    && Tokens(ms') == if Introduces(a, a.token) && !Rec(ms, a.token) then [a.token] + Tokens(ms) else Tokens(ms)
  }

  lemma SettledMoved(ms: seq<Module>, ms': seq<Module>, a: Action, t: nat, event: nat, callback: nat)
    requires Moved(ms, ms', a, t, event, callback)
    ensures Moved(ms, Settle(ms'), a, t, event, callback)
  {
    hide Settle, Status, Distinct, IsActive, EventsOf, Tokens;
    SettledModules(ms', t, event, callback);
    SettleSize(ms');
  }

  lemma SettleSize(ms: seq<Module>)
    ensures |Settle(ms)| == |ms|
  {
  }

  lemma EventsAt(ms: seq<Module>, t: nat)
    ensures IndexOf(ms, t) < |ms| ==>
              var m := ms[IndexOf(ms, t)];
              m.token == t && EventsOf(ms, t) == m.events && IsActive(ms, t) == m.active
  {
  }

  lemma JoinMoves(ms: seq<Module>, next: nat, t0: nat, room: bool, t: nat, event: nat, callback: nat)
    ensures Moved(ms, Activated(ms, t0, next, room), Join(t0, room), t, event, callback)
  {
    hide Activated, Find, Distinct, EventsOf, Tokens, IsActive, Rec;
    ActivatedModules(ms, t0, next, room, t);
    ActivatedModules(ms, t0, next, room, t0);
  }

  lemma LeaveMoves(ms: seq<Module>, t0: nat, t: nat, event: nat, callback: nat)
    requires IsActive(ms, t0)
    ensures Moved(ms, Deactivated(ms, t0), Leave(t0), t, event, callback)
  {
    hide Find, Distinct, Deactivate;
    var i := IndexOf(ms, t0);
    ChangedModule(ms, i, ms[i].(active := false, events := Deactivate(ms[i].events)), t);
    DeactivatedFinds(ms[i].events, event, callback);
  }

  lemma AddMoves(ms: seq<Module>, next: nat, a: Action, t: nat, event: nat, callback: nat)
    requires a.AddEvent?
    ensures Moved(ms, WithModuleEvent(Activated(ms, a.token, next, a.roomForModule), a.token, a.event, a.callback,
                                      a.active,
                                      a.room), a, t, event, callback)
  {
    hide Activated, Find, Distinct, WithEvent, EventsOf, Tokens, IsActive, IndexOf;
    var r := Activated(ms, a.token, next, a.roomForModule);
    ActivatedModules(ms, a.token, next, a.roomForModule, t);
    ActivatedModules(ms, a.token, next, a.roomForModule, a.token);
    var i := IndexOf(r, a.token);
    EventsAt(r, a.token);
    if i < |r| {
      ChangedModule(r, i, r[i].(events := WithEvent(r[i].events, a.event, a.callback, a.active, a.room)), t);
      AddedFinds(r[i].events, a.event, a.callback, a.active, a.room, event, callback);
    }
  }

  lemma FindNothing(events: seq<EventRecord>, event: nat, callback: nat)
    ensures Find(events, event, callback) == None <==> EventIndex(events, event, callback) == |events|
  {
    hide EventIndex;
  }

  lemma DropMoves(ms: seq<Module>, a: Action, t: nat, event: nat, callback: nat)
    requires a.DropEvent? && IsActive(ms, a.token)
    ensures Moved(ms, WithoutModuleEvent(ms, a.token, a.event, a.callback), a, t, event, callback)
  {
    ActiveHasRecord(ms, a.token);
    hide Distinct, EventIndex, Find, EventsOf, Tokens, IndexOf, IsActive;
    var i := IndexOf(ms, a.token);
    EventsAt(ms, a.token);
    FindNothing(ms[i].events, a.event, a.callback);
    var k := EventIndex(ms[i].events, a.event, a.callback);
    if k < |ms[i].events| {
      ChangedModule(ms, i, ms[i].(events := ms[i].events[k := ms[i].events[k].(active := false)]), t);
      DroppedFinds(ms[i].events, a.event, a.callback, event, callback);
    }
  }

  lemma IdleMoves(ms: seq<Module>, a: Action, t: nat, event: nat, callback: nat)
    requires (a.Leave? || a.DropEvent?) && !IsActive(ms, a.token)
    ensures Moved(ms, ms, a, t, event, callback)
  {
    hide Find, Distinct;
  }

  lemma ActMoves(w: World, a: Action, t: nat, event: nat, callback: nat)
    ensures Moved(w.modules, Act(w, a).modules, a, t, event, callback)
  {
    hide Settle, Moved, Activated, Deactivated, WithModuleEvent, WithoutModuleEvent, NextSequence, IsActive;
    var ms, next := w.modules, w.nextSequence;
    match a
    case Join(t0, room) =>
      JoinMoves(ms, next, t0, room, t, event, callback);
      SettledMoved(ms, Activated(ms, t0, next, room), a, t, event, callback);
    case Leave(t0) =>
      if IsActive(ms, t0) {
        LeaveMoves(ms, t0, t, event, callback);
        SettledMoved(ms, Deactivated(ms, t0), a, t, event, callback);
      } else {
        IdleMoves(ms, a, t, event, callback);
      }
    case AddEvent(t0, e0, c0, active, roomForModule, room) =>
      AddMoves(ms, next, a, t, event, callback);
      SettledMoved(ms, WithModuleEvent(Activated(ms, t0, next, roomForModule), t0, e0, c0, active, room), a, t, event,
                   callback);
    case DropEvent(t0, e0, c0) =>
      if IsActive(ms, t0) {
        DropMoves(ms, a, t, event, callback);
        SettledMoved(ms, WithoutModuleEvent(ms, t0, e0, c0), a, t, event, callback);
      } else {
        IdleMoves(ms, a, t, event, callback);
      }
  }

  // ---- The records say what the sequence says ----

  ghost predicate ToldOf(ms: seq<Module>, actions: seq<Action>, t: nat) {
    && (Rec(ms, t) <==> HasRecord(actions, t))
    && (IsActive(ms, t) <==> IsIn(actions, t))
    && Distinct(EventsOf(ms, t))
  }

  ghost predicate ToldEvent(ms: seq<Module>, actions: seq<Action>, t: nat, event: nat, callback: nat) {
    Status(ms, t, event, callback) ==
    if HasEvent(actions, t, event, callback) then Some(WantsBy(actions, t, event, callback)) else None
  }

  // Newer records stand in front of older ones.
  ghost predicate ToldOrder(ts: seq<nat>, actions: seq<Action>) {
    forall i, j :: 0 <= i < j < |ts| ==> Older(actions, ts[j], ts[i])
  }

  ghost predicate Told(ms: seq<Module>, actions: seq<Action>) {
    && (forall t: nat :: ToldOf(ms, actions, t))
    && (forall t: nat, event: nat, callback: nat :: ToldEvent(ms, actions, t, event, callback))
    && ToldOrder(Tokens(ms), actions)
  }

  // A module that wants an event is in.
  lemma WantingIsIn(actions: seq<Action>, t: nat, event: nat, callback: nat)
    requires WantsBy(actions, t, event, callback)
    ensures IsIn(actions, t) && HasEvent(actions, t, event, callback)
  {
    hide HasRecord;
    var i :| 0 <= i < |actions| && WantedAt(actions, t, event, callback, i);
    assert EnteredAt(actions, t, i);
    EarlierEvent(actions, i + 1, t, event, callback);
  }

  lemma EarlierEvent(actions: seq<Action>, k: nat, t: nat, event: nat, callback: nat)
    requires k <= |actions| && HasEvent(actions[..k], t, event, callback)
    ensures HasEvent(actions, t, event, callback)
  {
    hide HasRecord;
    var i :| 0 <= i < k && RecordedAt(actions[..k], t, event, callback, i);
    assert actions[..k][..i + 1] == actions[..i + 1];
    assert RecordedAt(actions, t, event, callback, i);
  }

  lemma OneToldOf(ms: seq<Module>, ms': seq<Module>, actions: seq<Action>, a: Action, t: nat)
    requires ToldOf(ms, actions, t) && Moved(ms, ms', a, t, 0, 0)
    ensures ToldOf(ms', actions + [a], t)
  {
    hide HasRecord, IsIn, Rec, IsActive, Distinct, EventsOf, Tokens, Status, Enters, Introduces;
    MoreRecords(actions, a, t);
    MoreEntries(actions, a, t);
  }

  lemma OneToldEvent(ms: seq<Module>, ms': seq<Module>, actions: seq<Action>, a: Action, t: nat, event: nat,
                     callback: nat)
    requires ToldOf(ms, actions, t) && ToldEvent(ms, actions, t, event, callback)
    requires Moved(ms, ms', a, t, event, callback)
    ensures ToldEvent(ms', actions + [a], t, event, callback)
  {
    hide HasRecord, IsIn, HasEvent, WantsBy, Rec, IsActive, Distinct, EventsOf, Tokens, Status, Enters, Introduces;
    MoreRecords(actions, a, t);
    MoreEvents(actions, a, t, event, callback);
    MoreWants(actions, a, t, event, callback);
    ActiveHasRecord(ms, t);
    if WantsBy(actions, t, event, callback) { WantingIsIn(actions, t, event, callback); }
  }

  lemma ActiveHasRecord(ms: seq<Module>, t: nat)
    ensures IsActive(ms, t) ==> Rec(ms, t)
  {
  }

  lemma OneToldOrder(ms: seq<Module>, ms': seq<Module>, actions: seq<Action>, a: Action)
    requires ToldOrder(Tokens(ms), actions) && (forall t: nat :: ToldOf(ms, actions, t))
    requires Moved(ms, ms', a, a.token, 0, 0)
    ensures ToldOrder(Tokens(ms'), actions + [a])
  {
    hide HasRecord, IsIn, IsActive, Distinct, EventsOf, Status, Enters, Introduces, Older, NextStatus;
    var ts, ts' := Tokens(ms), Tokens(ms');
    forall i, j | 0 <= i < j < |ts| ensures Older(actions + [a], ts[j], ts[i]) { StaysOlder(actions, a, ts[j], ts[i]); }
    if ts' == [a.token] + ts && !Rec(ms, a.token) {
      forall j | 0 <= j < |ts| ensures Older(actions + [a], ts[j], a.token) {
        RecordListed(ms, j);
        assert ToldOf(ms, actions, ts[j]) && ToldOf(ms, actions, a.token);
        NewIsYounger(actions, a, ts[j], a.token);
      }
    }
  }

  lemma RecordListed(ms: seq<Module>, j: nat)
    requires j < |ms|
    ensures Rec(ms, ms[j].token)
  {
    if !Rec(ms, ms[j].token) { assert ms[j] in ms; }
  }

  lemma {:induction false} RunLast(w: World, actions: seq<Action>, a: Action)
    ensures Run(w, actions + [a]) == Act(Run(w, actions), a)
    decreases |actions|
  {
    hide Act;
    if actions == [] {
      assert [a][1..] == [];
      assert [] + [a] == [a];
    } else {
      assert (actions + [a])[1..] == actions[1..] + [a];
      RunLast(Act(w, actions[0]), actions[1..], a);
    }
  }

  lemma {:induction false} RunTold(actions: seq<Action>)
    ensures Told(Run(START, actions).modules, actions)
    decreases |actions|
  {
    hide Run, Act, ToldOf, ToldEvent, ToldOrder, Moved;
    if actions == [] {
      NothingTold();
    } else {
      var before, a := actions[..|actions| - 1], actions[|actions| - 1];
      RunTold(before);
      RunLast(START, before, a);
      assert before + [a] == actions;
      var w := Run(START, before);
      forall t: nat ensures ToldOf(Act(w, a).modules, actions, t) {
        ActMoves(w, a, t, 0, 0);
        OneToldOf(w.modules, Act(w, a).modules, before, a, t);
      }
      forall t: nat, event: nat, callback: nat ensures ToldEvent(Act(w, a).modules, actions, t, event, callback) {
        ActMoves(w, a, t, event, callback);
        OneToldEvent(w.modules, Act(w, a).modules, before, a, t, event, callback);
      }
      ActMoves(w, a, a.token, 0, 0);
      OneToldOrder(w.modules, Act(w, a).modules, before, a);
    }
  }

  lemma NothingTold()
    ensures Told(Run(START, []).modules, [])
  {
  }

  // ---- What the host holds ----

  lemma WantedIsTold(ms: seq<Module>, actions: seq<Action>, event: nat)
    requires Told(ms, actions) && forall i :: 0 <= i < |ms| ==> IndexOf(ms, ms[i].token) == i
    ensures Wanted(ms, event) <==> IsWanted(actions, event)
  {
    hide HasRecord, IsIn, HasEvent, WantsBy, Older, IndexOf;
    if Wanted(ms, event) {
      var m :| m in ms && Wants(m, event);
      var i :| 0 <= i < |ms| && ms[i] == m;
      var k :| 0 <= k < |m.events| && m.events[k].event == event && m.events[k].active;
      assert ToldOf(ms, actions, m.token) && ToldEvent(ms, actions, m.token, event, m.events[k].callback);
      FindExactly(m.events, event, m.events[k].callback);
      assert WantsBy(actions, m.token, event, m.events[k].callback);
    }
    if IsWanted(actions, event) {
      var t: nat, callback: nat :| WantsBy(actions, t, event, callback);
      WantingIsIn(actions, t, event, callback);
      assert ToldOf(ms, actions, t) && ToldEvent(ms, actions, t, event, callback);
      FoundActive(EventsOf(ms, t), event, callback);
      assert Wants(ms[IndexOf(ms, t)], event);
    }
  }

  lemma FoundActive(events: seq<EventRecord>, event: nat, callback: nat)
    requires Find(events, event, callback) == Some(true)
    ensures exists e <- events :: e.event == event && e.active
  {
    assert events[EventIndex(events, event, callback)] in events;
  }

  lemma HandlerIsTold(ms: seq<Module>, next: nat, actions: seq<Action>, t: nat)
    requires Told(ms, actions) && Ordered(ms, next)
    ensures Handles(actions, t) <==> Rec(ms, t) && IsHandler(ms, IndexOf(ms, t))
  {
    hide HasRecord, IsIn, HasEvent, WantsBy, Older, IndexOf, ToldEvent, Distinct, EventsOf;
    forall i | 0 <= i < |ms| ensures IndexOf(ms, ms[i].token) == i { IndexIs(ms, next, i); }
    forall u: nat ensures IsActive(ms, u) <==> IsIn(actions, u) { assert ToldOf(ms, actions, u); }
    var ts := Tokens(ms);
    if IsActive(ms, t) {
      var i := IndexOf(ms, t);
      forall u: nat | u != t && IsActive(ms, u)
        ensures Older(actions, t, u) <==> ms[i].sequence < ms[IndexOf(ms, u)].sequence
      {
        var j := IndexOf(ms, u);
        NeverBothOlder(actions, t, u);
        if i < j { assert Older(actions, ts[j], ts[i]); } else { assert Older(actions, ts[i], ts[j]); }
      }
      if Handles(actions, t) {
        forall j | 0 <= j < |ms| && ms[j].active && j != i ensures ms[i].sequence < ms[j].sequence {
          assert IsActive(ms, ms[j].token);
        }
      }
    }
  }

  lemma IndexIs(ms: seq<Module>, next: nat, i: nat)
    requires Ordered(ms, next) && i < |ms|
    ensures IndexOf(ms, ms[i].token) == i
  {
    assert ms[i] in ms;
  }

  lemma RecordOfHandler(ms: seq<Module>, t: nat, event: nat, callback: nat)
    requires (forall i :: 0 <= i < |ms| ==> IndexOf(ms, ms[i].token) == i) && Distinct(EventsOf(ms, t))
    ensures (exists i: nat, k: nat :: IsHandler(ms, i) && k < |ms[i].events| && ms[i].token == t
                                      && ms[i].events[k].event == event && ms[i].events[k].callback == callback
                                      && Wanted(ms, event))
            <==> Rec(ms, t) && IsHandler(ms, IndexOf(ms, t)) && Status(ms, t, event, callback) != None
                 && Wanted(ms, event)
  {
    hide Wanted, IsHandler, IndexOf, Find, Distinct;
    var h := IndexOf(ms, t);
    forall i: nat ensures IsHandler(ms, i) ==> i < |ms| { HandlerInside(ms, i); }
    FindExactly(EventsOf(ms, t), event, callback);
    if Rec(ms, t) && IsHandler(ms, h) && Status(ms, t, event, callback) != None && Wanted(ms, event) {
      var k :| 0 <= k < |ms[h].events| && (ms[h].events[k].event, ms[h].events[k].callback) == (event, callback);
      assert IsHandler(ms, h) && ms[h].events[k].event == event && ms[h].events[k].callback == callback;
    }
    if i: nat, k: nat :|
      IsHandler(ms, i) && k < |ms[i].events| && ms[i].token == t
      && ms[i].events[k].event == event && ms[i].events[k].callback == callback
    {
      assert h == i && EventsOf(ms, t) == ms[i].events;
    }
  }

  lemma HandlerInside(ms: seq<Module>, i: nat)
    ensures IsHandler(ms, i) ==> i < |ms|
  {
  }

  // After any sequence of operations the host holds a registration exactly if its module is the one that handles
  // events, the module has recorded that event and callback, and some module wants the event: all read off the
  // sequence.
  lemma HostServesSequence(actions: seq<Action>, t: nat, event: nat, callback: nat)
    ensures (t, event, callback) in HostSet(Run(START, actions).modules) <==>
            Handles(actions, t) && HasEvent(actions, t, event, callback) && IsWanted(actions, event)
  {
    hide Run, IsHandler, Wanted, Ordered, HasRecord, IsIn, HasEvent, WantsBy, Older, Handles, IsWanted, HostSet,
         IndexOf;
    hide Find, Rec, Status, Distinct, Tokens;
    HostServesHandler(actions, t, event, callback);
    RunTold(actions);
    StartSettled();
    RunKeeps(START, actions);
    var w := Run(START, actions);
    var ms := w.modules;
    forall i | 0 <= i < |ms| ensures IndexOf(ms, ms[i].token) == i { IndexIs(ms, w.nextSequence, i); }
    WantedIsTold(ms, actions, event);
    HandlerIsTold(ms, w.nextSequence, actions, t);
    assert ToldOf(ms, actions, t) && ToldEvent(ms, actions, t, event, callback);
    RecordOfHandler(ms, t, event, callback);
  }

  // The operations through the modules' handles leave the host with exactly those registrations.
  method PerformSequence(handles: map<nat, Shared>, control: ControlBlock, actions: seq<Action>)
    requires AllLinked(handles, control) && World(control.Views(), control.nextSequence) == START && handles != map[]
    requires forall a <- actions :: a.token in handles
    modifies handles.Values, control, control.modules, control.host
    ensures forall t: nat, event: nat, callback: nat ::
              (t, event, callback) in control.host.registered <==>
              Handles(actions, t) && HasEvent(actions, t, event, callback) && IsWanted(actions, event)
  {
    hide *;
    PerformAll(handles, control, actions);
    forall t: nat, event: nat, callback: nat
      ensures (t, event, callback) in HostSet(Run(START, actions).modules) <==>
              Handles(actions, t) && HasEvent(actions, t, event, callback) && IsWanted(actions, event)
    {
      HostServesSequence(actions, t, event, callback);
    }
  }
}
