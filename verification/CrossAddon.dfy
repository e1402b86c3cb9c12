// Modules of one process that share a control block: records of modules and their events, the election of
// the module that handles the host's events, and the registrations with the host.
module CrossAddon {
  import opened Wrappers

  // `bound` once the register and unregister functions of the event are set.
  datatype EventRecord = EventRecord(event: nat, callback: nat, bound: bool, active: bool, registered: bool)

  // The value of a module record.
  datatype Module = Module(token: nat, sequence: nat, active: bool, events: seq<EventRecord>)

  // A host registration: whose it is, for which event and callback.
  type Registration = (nat, nat, nat)

  predicate Wants(m: Module, event: nat) {
    m.active && exists e <- m.events :: e.event == event && e.active
  }

  predicate Wanted(ms: seq<Module>, event: nat) {
    exists m <- ms :: Wants(m, event)
  }

  // Which of the first n modules handles events: the active one with the lowest sequence.
  function ElectedAmong(ms: seq<Module>, n: nat): (h: Option<nat>)
    requires n <= |ms|
    ensures h.Some? ==> h.value < n && ms[h.value].active
    ensures h.Some? ==> forall i :: 0 <= i < n && ms[i].active ==> ms[h.value].sequence <= ms[i].sequence
    ensures h.None? ==> forall i :: 0 <= i < n ==> !ms[i].active
  {
    if n == 0 then None
    else
      var h := ElectedAmong(ms, n - 1);
      if ms[n - 1].active && (h.None? || ms[n - 1].sequence < ms[h.value].sequence) then Some(n - 1) else h
  }

  function Elected(ms: seq<Module>): (h: Option<nat>)
    ensures h.Some? ==> h.value < |ms| && ms[h.value].active
  {
    ElectedAmong(ms, |ms|)
  }

  // The records with the registrations they should have: those of the handler for wanted events.
  function SettleEvents(ms: seq<Module>, events: seq<EventRecord>, handling: bool): (r: seq<EventRecord>)
    ensures |r| == |events|
  {
    seq(|events|, i requires 0 <= i < |events| =>
      events[i].(registered := handling && Wanted(ms, events[i].event)))
  }

  function Settle(ms: seq<Module>): (r: seq<Module>)
    ensures |r| == |ms|
  {
    seq(|ms|, i requires 0 <= i < |ms| =>
      ms[i].(events := SettleEvents(ms, ms[i].events, Elected(ms) == Some(i))))
  }

  function HostSet(ms: seq<Module>): set<Registration> {
    set i, k | 0 <= i < |ms| && 0 <= k < |ms[i].events| && ms[i].events[k].registered ::
      (ms[i].token, ms[i].events[k].event, ms[i].events[k].callback)
  }

  // The host accepts a registration only while no other module holds one.
  class Host {
    var registered: set<Registration>

    constructor ()
      ensures registered == {}
    {
      registered := {};
    }

    method Register(token: nat, event: nat, callback: nat)
      requires forall r <- registered :: r.0 == token
      requires (token, event, callback) !in registered
      modifies this
      ensures registered == old(registered) + {(token, event, callback)}
    {
      registered := registered + {(token, event, callback)};
    }

    method Unregister(token: nat, event: nat, callback: nat)
      requires (token, event, callback) in registered
      modifies this
      ensures registered == old(registered) - {(token, event, callback)}
    {
      registered := registered - {(token, event, callback)};
    }
  }

  class ModuleRecord {
    const token: nat
    const sequence: nat
    var active: bool
    var registrationCount: nat
    var events: seq<EventRecord>

    constructor (token: nat, sequence: nat)
      ensures this.token == token && this.sequence == sequence && !active && registrationCount == 0 && events == []
    {
      this.token, this.sequence, active, registrationCount, events := token, sequence, false, 0, [];
    }

    function View(): Module
      reads this
    {
      Module(token, sequence, active, events)
    }
  }

  predicate DistinctEvents(events: seq<EventRecord>) {
    && (forall i, j :: 0 <= i < j < |events| ==>
          (events[i].event, events[i].callback) != (events[j].event, events[j].callback))
    && (forall i :: 0 <= i < |events| ==> events[i].bound)
  }

  // The registrations of one module's records.
  function Held(token: nat, events: seq<EventRecord>): set<Registration> {
    set k | 0 <= k < |events| && events[k].registered :: (token, events[k].event, events[k].callback)
  }

  predicate NoneRegistered(events: seq<EventRecord>) {
    forall i :: 0 <= i < |events| ==> !events[i].registered
  }

  class ControlBlock {
    // Newest module first.
    var modules: seq<ModuleRecord>
    var handler: ModuleRecord?
    var nextSequence: nat
    const host: Host

    constructor ()
      ensures Valid() && modules == [] && handler == null && host.registered == {} && fresh(host)
      ensures Settled()
    {
      modules, handler, nextSequence := [], null, 1;
      host := new Host();
    }

    function Views(): (ms: seq<Module>)
      reads this, modules
      ensures |ms| == |modules|
    {
      seq(|modules|, i requires 0 <= i < |modules| reads this, modules => modules[i].View())
    }

    // Structure: distinct records, and registrations with the host only for the handler's records.
    ghost predicate Valid()
      reads this, modules, host
    {
      && (forall i, j :: 0 <= i < j < |modules| ==>
            modules[i].token != modules[j].token && modules[i].sequence > modules[j].sequence)
      && (forall i :: 0 <= i < |modules| ==> modules[i].sequence < nextSequence)
      && (forall i :: 0 <= i < |modules| ==> DistinctEvents(modules[i].events))
      && (forall i :: 0 <= i < |modules| ==> modules[i].registrationCount == if modules[i].active then 1 else 0)
      && (handler != null ==> handler in modules)
      && (forall i :: 0 <= i < |modules| && modules[i] != handler ==> NoneRegistered(modules[i].events))
      && host.registered == if handler == null then {} else Held(handler.token, handler.events)
    }

    // Between operations: the elected module handles, and its registrations are the wanted ones.
    ghost predicate Settled()
      reads this, modules, host
    {
      && Valid()
      && Views() == Settle(Views())
      && HandlerIs(Elected(Views()))
    }

    ghost predicate HandlerIs(h: Option<nat>)
      reads this
    {
      match h
      case None => handler == null
      case Some(i) => i < |modules| && handler == modules[i]
    }

    method IsWanted(event: nat) returns (wanted: bool)
      ensures wanted == Wanted(Views(), event)
    {
      wanted := false;
      var i := 0;
      while i < |modules| && !wanted
        invariant i <= |modules|
        invariant wanted == exists j :: 0 <= j < i && Wants(Views()[j], event)
      {
        if modules[i].active {
          var k := 0;
          while k < |modules[i].events|
            invariant k <= |modules[i].events|
            invariant forall l :: 0 <= l < k ==> !(modules[i].events[l].event == event && modules[i].events[l].active)
          {
            if modules[i].events[k].event == event && modules[i].events[k].active {
              assert modules[i].events[k] in modules[i].events;
              wanted := true;
              break;
            }
            k := k + 1;
          }
        }
        assert Views()[i] == modules[i].View();
        i := i + 1;
      }
      assert forall j :: 0 <= j < |Views()| ==> Views()[j] in Views();
    }

    // Registers and unregisters the handler's records according to what the active modules want.
    method SyncReshadeEvents()
      requires Valid() && HandlerIs(Elected(Views()))
      modifies modules, host
      ensures Settled() && Views() == Settle(old(Views()))
      ensures forall m <- modules :: m.registrationCount == old(m.registrationCount)
    {
      hide Wanted, Held, SettleEvents, Settle, Elected, DistinctEvents, NoneRegistered;
      var m := handler;
      ghost var ms := Views();
      if m == null || !m.active {
        NothingToSettle(ms);
        SettleTwice(ms);
        return;
      }
      SyncEvents(m);
      ghost var i := Elected(ms).value;
      assert forall j :: 0 <= j < |ms| && j != i ==> Views()[j] == ms[j];
      SettledAt(ms, Views(), i);
      SettleTwice(ms);
    }

    // The same for the records of the handler alone.
    method SyncEvents(m: ModuleRecord)
      requires m in modules && DistinctEvents(m.events) && host.registered == Held(m.token, m.events)
      requires DistinctRecords()
      modifies m`events, host
      ensures host.registered == Held(m.token, m.events) && DistinctEvents(m.events)
      ensures m.events == SettleEvents(old(Views()), old(m.events), true)
    {
      hide Wanted, Held;
      ghost var ms, events := Views(), m.events;
      var k := 0;
      while k < |m.events|
        invariant k <= |m.events| == |events| && DistinctEvents(m.events)
        invariant forall j :: 0 <= j < |events| ==>
                    m.events[j] == events[j].(registered :=
                      if j < k then Wanted(ms, events[j].event) else events[j].registered)
        invariant host.registered == Held(m.token, m.events)
      {
        FlagsOnly(ms, Views(), m.events, events);
        SameWants(ms, Views(), m.events[k].event);
        var wanted := IsWanted(m.events[k].event);
        var e := m.events[k];
        HeldChange(m.token, m.events, k, wanted);
        HeldOne(m.token, m.events, k);
        if wanted && !e.registered && e.bound {
          HeldByModule(m.token, m.events);
          host.Register(m.token, e.event, e.callback);
          m.events := m.events[k := e.(registered := true)];
        } else if !wanted && e.registered && e.bound {
          host.Unregister(m.token, e.event, e.callback);
          m.events := m.events[k := e.(registered := false)];
        }
        k := k + 1;
      }
      assert m.events == SettleEvents(ms, events, true);
    }

    // Takes back all registrations of a module's records.
    method UnregisterReshadeEvents(m: ModuleRecord)
      requires DistinctEvents(m.events) && Held(m.token, m.events) <= host.registered
      modifies m`events, host
      ensures host.registered == old(host.registered) - old(Held(m.token, m.events))
      ensures m.events == Cleared(old(m.events))
    {
      hide Held;
      ghost var events, before := m.events, host.registered;
      var k := 0;
      while k < |m.events|
        invariant k <= |m.events| == |events| && DistinctEvents(m.events)
        invariant forall j :: 0 <= j < |events| ==>
                    m.events[j] == events[j].(registered := if j < k then false else events[j].registered)
        invariant Held(m.token, m.events) <= Held(m.token, events) <= before
        invariant host.registered == before - (Held(m.token, events) - Held(m.token, m.events))
      {
        var e := m.events[k];
        HeldChange(m.token, m.events, k, false);
        HeldOne(m.token, m.events, k);
        if e.registered && e.bound {
          host.Unregister(m.token, e.event, e.callback);
          m.events := m.events[k := e.(registered := false)];
        }
        k := k + 1;
      }
      NoneHeld(m.token, m.events);
      assert m.events == Cleared(events);
    }

    // The active module with the lowest sequence.
    method BestModule() returns (elected: ModuleRecord?)
      ensures match Elected(Views()) case None => elected == null case Some(k) => elected == modules[k]
    {
      ghost var ms := Views();
      ghost var at: Option<nat> := None;
      elected := null;
      var i := 0;
      while i < |modules|
        invariant i <= |modules| && at == ElectedAmong(ms, i)
        invariant match at case None => elected == null case Some(k) => elected == modules[k]
      {
        assert ms[i] == modules[i].View();
        if modules[i].active && (elected == null || modules[i].sequence < elected.sequence) {
          elected, at := modules[i], Some(i);
        }
        i := i + 1;
      }
    }

    // Makes the best module the handler; a change of handler takes back all registrations of the old one
    // before the new one gets any.
    method ElectHandler()
      requires Valid()
      modifies this`handler, modules, host
      ensures Valid() && HandlerIs(Elected(Views()))
      ensures Views() == if handler == old(handler) then old(Views()) else Settle(old(Views()))
      ensures forall m <- modules :: m.registrationCount == old(m.registrationCount)
    {
      hide Wanted, Held, SettleEvents, Settle, DistinctEvents, NoneRegistered, Elected, Alike, Valid, Views;
      ghost var ms := Views();
      var elected := BestModule();
      if elected == handler { return; }
      MoveHandler(elected);
      SameElectionAlike(ms, Views());
      SettleIgnoresFlags(ms, Views());
      SyncReshadeEvents();
    }

    // Takes back all registrations and makes another module the handler.
    method MoveHandler(elected: ModuleRecord?)
      requires Valid() && (elected == null || elected in modules)
      modifies this`handler, modules, host
      ensures Valid() && handler == elected && Alike(old(Views()), Views())
      ensures forall m <- modules :: m.registrationCount == old(m.registrationCount)
    {
      hide Valid, Views, Held, DistinctEvents, NoneRegistered, Alike;
      SelfAlike(Views());
      HandlerListed();
      if handler != null { TakeBack(handler); } else { NoneWithoutHandler(); }
      SetHandler(elected);
    }

    method SetHandler(elected: ModuleRecord?)
      requires Valid() && host.registered == {} && (elected == null || elected in modules)
      requires forall i :: 0 <= i < |modules| ==> NoneRegistered(modules[i].events)
      modifies this`handler
      ensures Valid() && handler == elected && Views() == old(Views())
    {
      hide Held, DistinctEvents, NoneRegistered;
      handler := elected;
      AllCleared();
    }

    lemma HandlerListed()
      requires Valid()
      ensures handler != null ==> handler in modules
    {
    }

    lemma NoneWithoutHandler()
      requires Valid() && handler == null
      ensures host.registered == {} && forall i :: 0 <= i < |modules| ==> NoneRegistered(modules[i].events)
    {
    }

    method TakeBack(m: ModuleRecord)
      requires Valid() && m == handler
      modifies m`events, host
      ensures Valid() && host.registered == {} && Alike(old(Views()), Views())
      ensures forall i :: 0 <= i < |modules| ==> NoneRegistered(modules[i].events)
    {
      hide Held, DistinctEvents, NoneRegistered, Alike, Cleared;
      ghost var ms := Views();
      UnregisterReshadeEvents(m);
      NoneHeld(m.token, m.events);
      ClearedDistinct(old(m.events));
      ClearedTwice(ms, Views(), m.events, old(m.events));
    }

    lemma RecordAt(m: ModuleRecord)
      requires Valid() && m in modules
      ensures var i := IndexOf(Views(), m.token); i < |modules| && modules[i] == m && Views()[i] == m.View()
      ensures m.active == IsActive(Views(), m.token)
    {
      hide Held, NoneRegistered, DistinctEvents;
      var i := IndexOf(Views(), m.token);
      var j :| 0 <= j < |modules| && modules[j] == m;
      assert Views()[j] in Views() && Views()[j].token == m.token;
    }

    lemma AllCleared()
      requires forall i :: 0 <= i < |modules| ==> NoneRegistered(modules[i].events)
      ensures handler != null && handler in modules ==> Held(handler.token, handler.events) == {}
    {
    }

    // Election and registrations after a change of the records.
    method Resettle()
      requires Valid()
      modifies this`handler, modules, host
      ensures Settled() && Views() == Settle(old(Views()))
    {
      hide Valid, Views, Settle, Elected;
      ghost var ms := Views();
      ElectHandler();
      SyncReshadeEvents();
      SettleTwice(ms);
    }

    method FindModule(token: nat) returns (m: ModuleRecord?)
      ensures m == null <==> forall r <- modules :: r.token != token
      ensures m != null ==> m in modules && m.token == token
    {
      m := null;
      var i := 0;
      while i < |modules|
        invariant i <= |modules| && forall j :: 0 <= j < i ==> modules[j].token != token
      {
        if modules[i].token == token { return modules[i]; }
        i := i + 1;
      }
    }

    // A new record at the front, with the next sequence number.
    method CreateModule(token: nat) returns (m: ModuleRecord)
      requires Valid() && forall r <- modules :: r.token != token
      modifies this`modules, this`nextSequence
      ensures Valid() && fresh(m) && modules == [m] + old(modules) && m.token == token
              && nextSequence == old(nextSequence) + 1
      ensures !m.active && m.registrationCount == 0
      ensures Views() == [Module(token, old(nextSequence), false, [])] + old(Views())
    {
      hide Held, NoneRegistered, DistinctEvents;
      ghost var ms := Views();
      m := new ModuleRecord(token, nextSequence);
      EmptyRecord();
      assert Views() == ms;
      nextSequence := nextSequence + 1;
      modules := [m] + modules;
      assert Views()[1..] == ms;
    }

    // The record of a module, made if needed and possible.
    method Obtain(token: nat, room: bool) returns (m: ModuleRecord?)
      requires Valid()
      modifies this`modules, this`nextSequence
      ensures Valid()
      ensures m == null <==> !room && IndexOf(old(Views()), token) == |old(Views())|
      ensures m != null ==> m in modules && m.token == token && m.active == IsActive(old(Views()), token)
      ensures Views() == WithRecord(old(Views()), token, old(nextSequence), room)
      ensures nextSequence == NextSequence(old(Views()), token, old(nextSequence), room)
      ensures forall r <- modules :: r in old(modules) || fresh(r)
      ensures forall r <- old(modules) :: r in modules
      ensures m == null ==> modules == old(modules)
    {
      hide Valid, Views;
      ghost var ms := Views();
      TokensOfViews(token);
      m := FindModule(token);
      if m != null {
        RecordAt(m);
        return;
      }
      if room { m := CreateModule(token); }
    }

    // Deactivates a module after taking back its registrations, elects and registers.
    method Retire(m: ModuleRecord)
      requires Settled() && m in modules && m.active
      modifies this`handler, modules, host
      ensures Settled()
      ensures Views() == Settle(Deactivated(old(Views()), m.token))
    {
      hide *;
      ghost var ms := Views();
      SettledIsValid();
      SetInactive(m);
      RetiredAlike(ms, m.token);
      SettleIgnoresFlags(Views(), Deactivated(ms, m.token));
      Resettle();
    }

    lemma SettledIsValid()
      requires Settled()
      ensures Valid() && HandlerIs(Elected(Views())) && Views() == Settle(Views())
    {
    }

    method SetInactive(m: ModuleRecord)
      requires Valid() && m in modules && m.active
      modifies m, host
      ensures Valid() && Views() == Retired(old(Views()), m.token)
    {
      hide Valid, Views, Retired, IndexOf, Deactivate, Cleared;
      ClearRecords(m);
      TurnOff(m);
      RetiredInSteps(old(Views()), m.token);
    }

    method TurnOff(m: ModuleRecord)
      requires Valid() && m in modules && m.active
      modifies m`active, m`registrationCount
      ensures Valid()
      ensures var i := IndexOf(old(Views()), m.token);
              i < |old(Views())| && old(Views())[i] == old(m.View())
              && Views() == old(Views())[i := old(m.View()).(active := false)]
    {
      hide Held, DistinctEvents, NoneRegistered, IndexOf;
      RecordAt(m);
      if m.registrationCount > 0 { m.registrationCount := m.registrationCount - 1; }
      m.active := false;
    }

    // Takes back a module's registrations and deactivates its events.
    method ClearRecords(m: ModuleRecord)
      requires Valid() && m in modules
      modifies m`events, host
      ensures Valid() && m.events == Deactivate(Cleared(old(m.events)))
      ensures var i := IndexOf(old(Views()), m.token);
              i < |old(Views())| && old(Views())[i] == old(m.View()) && Views() == old(Views())[i := m.View()]
    {
      hide Held, DistinctEvents, NoneRegistered, Cleared, Deactivate, IndexOf;
      RecordAt(m);
      HeldByHost(m);
      DeactivatedRecord(m.events, m.token);
      ClearEvents(m);
    }

    method ClearEvents(m: ModuleRecord)
      requires DistinctEvents(m.events) && Held(m.token, m.events) <= host.registered
      modifies m`events, host
      ensures m.events == Deactivate(Cleared(old(m.events)))
      ensures host.registered == old(host.registered) - old(Held(m.token, m.events))
    {
      hide *;
      UnregisterReshadeEvents(m);
      DeactivateEvents(m);
    }

    method DeactivateEvents(m: ModuleRecord)
      modifies m`events
      ensures m.events == Deactivate(old(m.events))
    {
      var k := 0;
      while k < |m.events|
        invariant k <= |m.events| == |old(m.events)|
        invariant forall j :: 0 <= j < |m.events| ==>
                    m.events[j] == if j < k then old(m.events)[j].(active := false) else old(m.events)[j]
      {
        m.events := m.events[k := m.events[k].(active := false)];
        k := k + 1;
      }
    }

    // The host holds what a module's records say, which is nothing for all but the handler.
    lemma HeldByHost(m: ModuleRecord)
      requires Valid() && m in modules
      ensures Held(m.token, m.events) <= host.registered && DistinctEvents(m.events)
      ensures host.registered - Held(m.token, m.events) == if m == handler then {} else host.registered
    {
      hide Held, DistinctEvents, NoneRegistered;
      if m != handler { NoneHeld(m.token, m.events); }
    }

    // Exchanges the event records of a module for ones with the same registrations.
    method ReplaceEvents(m: ModuleRecord, events: seq<EventRecord>)
      requires Valid() && m in modules && DistinctEvents(events)
      requires Held(m.token, events) == Held(m.token, m.events) && (NoneRegistered(m.events) ==> NoneRegistered(events))
      requires HandlerIs(Elected(Views()))
      modifies m`events
      ensures Valid() && HandlerIs(Elected(Views()))
      ensures var i := IndexOf(old(Views()), m.token);
              i < |old(Views())| && old(Views())[i] == old(m.View())
              && Views() == old(Views())[i := old(m.View()).(events := events)]
    {
      hide Held, DistinctEvents, NoneRegistered, Elected, IndexOf;
      ghost var ms := Views();
      RecordAt(m);
      m.events := events;
      assert Views() == ms[IndexOf(ms, m.token) := old(m.View()).(events := events)];
      SameElected(ms, Views());
    }

    // Sets the activity of an event record, made if needed and possible.
    method SetEvent(m: ModuleRecord, event: nat, callback: nat, active: bool, room: bool) returns (changed: bool)
      requires Settled() && m in modules
      modifies m`events
      ensures Valid() && HandlerIs(Elected(Views()))
      ensures Views() == WithModuleEvent(old(Views()), m.token, event, callback, active, room)
      ensures !changed ==> Views() == old(Views())
    {
      hide Valid, Views, DistinctEvents, NoneRegistered, Held, Elected, Settle, Settled, IndexOf, EventIndex;
      var k := FindEvent(m, event, callback);
      SettledIsValid();
      RecordAt(m);
      changed := k < |m.events| || room;
      if changed {
        var events := WithEvent(m.events, event, callback, active, room);
        HasDistinct(m);
        WithEventSame(m.token, m.events, event, callback, active, room);
        ReplaceEvents(m, events);
      }
    }

    method ClearEvent(m: ModuleRecord, event: nat, callback: nat) returns (changed: bool)
      requires Settled() && m in modules
      modifies m`events
      ensures Valid() && HandlerIs(Elected(Views()))
      ensures Views() == WithoutModuleEvent(old(Views()), m.token, event, callback)
      ensures !changed ==> Views() == old(Views())
    {
      hide Valid, Views, DistinctEvents, NoneRegistered, Held, Elected, Settle, Settled, IndexOf, EventIndex;
      var k := FindEvent(m, event, callback);
      SettledIsValid();
      RecordAt(m);
      changed := k < |m.events|;
      if changed {
        HasDistinct(m);
        InactiveSame(m.token, m.events, k);
        ReplaceEvents(m, m.events[k := m.events[k].(active := false)]);
      }
    }

    method FindEvent(m: ModuleRecord, event: nat, callback: nat) returns (k: nat)
      ensures k == EventIndex(m.events, event, callback)
    {
      k := 0;
      while k < |m.events| && !(m.events[k].event == event && m.events[k].callback == callback)
        invariant k <= |m.events|
        invariant forall j :: 0 <= j < k ==> !(m.events[j].event == event && m.events[j].callback == callback)
      {
        k := k + 1;
      }
      EventIndexIs(m.events, event, callback, k);
    }

    lemma HasDistinct(m: ModuleRecord)
      requires Valid() && m in modules
      ensures DistinctEvents(m.events)
    {
    }

    lemma TokensOfViews(token: nat)
      requires Valid()
      ensures IndexOf(Views(), token) == |Views()| <==> forall r <- modules :: r.token != token
    {
      hide Held, NoneRegistered, DistinctEvents, Valid;
      var i := IndexOf(Views(), token);
      if i < |Views()| {
        assert modules[i] in modules && modules[i].token == token;
      } else {
        forall j | 0 <= j < |modules| ensures modules[j].token != token {
          assert Views()[j] in Views();
        }
      }
    }

    // Activates a module, elects and registers.
    method Activate(m: ModuleRecord)
      requires Valid() && m in modules && !m.active
      modifies this`handler, modules, host
      ensures Settled()
      ensures Views() == Settle(Activated(old(Views()), m.token, 0, false))
    {
      hide *;
      SetActive(m);
      Resettle();
    }

    method SetActive(m: ModuleRecord)
      requires Valid() && m in modules && !m.active
      modifies m`active, m`registrationCount
      ensures Valid() && m.active && Views() == Activated(old(Views()), m.token, 0, false)
    {
      hide Held, NoneRegistered, DistinctEvents;
      ghost var ms := Views();
      m.active := true;
      m.registrationCount := m.registrationCount + 1;
      RecordAt(m);
    }

    ghost predicate DistinctRecords()
      reads this
    {
      forall i, j :: 0 <= i < j < |modules| ==> modules[i] != modules[j]
    }
  }

  function Cleared(events: seq<EventRecord>): (r: seq<EventRecord>)
    ensures |r| == |events| && NoneRegistered(r)
  {
    seq(|events|, i requires 0 <= i < |events| => events[i].(registered := false))
  }

  // Modules that differ in registrations only.
  ghost predicate Alike(ms: seq<Module>, ms': seq<Module>) {
    && |ms| == |ms'|
    && forall i :: 0 <= i < |ms| ==>
         && ms[i].token == ms'[i].token && ms[i].sequence == ms'[i].sequence && ms[i].active == ms'[i].active
         && Cleared(ms[i].events) == Cleared(ms'[i].events)
  }

  lemma ClearedWants(m: Module, m': Module, event: nat)
    requires m.active == m'.active && Cleared(m.events) == Cleared(m'.events) && Wants(m, event)
    ensures Wants(m', event)
  {
    var e :| e in m.events && e.event == event && e.active;
    var k :| 0 <= k < |m.events| && m.events[k] == e;
    assert Cleared(m.events)[k] == Cleared(m'.events)[k];
    assert m'.events[k] in m'.events;
  }

  // What is wanted does not depend on what is registered.
  lemma SameWants(ms: seq<Module>, ms': seq<Module>, event: nat)
    requires Alike(ms, ms')
    ensures Wanted(ms, event) == Wanted(ms', event)
  {
    hide Wants;
    if Wanted(ms, event) { WantedMoves(ms, ms', event); }
    if Wanted(ms', event) { WantedMoves(ms', ms, event); }
  }

  lemma WantedMoves(ms: seq<Module>, ms': seq<Module>, event: nat)
    requires Alike(ms, ms') && Wanted(ms, event)
    ensures Wanted(ms', event)
  {
    hide Wants;
    var m :| m in ms && Wants(m, event);
    var i :| 0 <= i < |ms| && ms[i] == m;
    ClearedWants(ms[i], ms'[i], event);
    assert ms'[i] in ms';
  }

  lemma HeldOne(token: nat, events: seq<EventRecord>, k: nat)
    requires DistinctEvents(events) && k < |events|
    ensures (token, events[k].event, events[k].callback) in Held(token, events) <==> events[k].registered
  {
  }

  lemma HeldByModule(token: nat, events: seq<EventRecord>)
    ensures forall r <- Held(token, events) :: r.0 == token
  {
  }

  lemma HeldChange(token: nat, events: seq<EventRecord>, k: nat, registered: bool)
    requires DistinctEvents(events) && k < |events|
    ensures var e := (token, events[k].event, events[k].callback);
            Held(token, events[k := events[k].(registered := registered)]) ==
            if registered then Held(token, events) + {e} else Held(token, events) - {e}
  {
    var e := (token, events[k].event, events[k].callback);
    var events' := events[k := events[k].(registered := registered)];
    var held := if registered then Held(token, events) + {e} else Held(token, events) - {e};
    forall r ensures r in Held(token, events') <==> r in held {
      if r in Held(token, events) {
        var j :| 0 <= j < |events| && events[j].registered && r == (token, events[j].event, events[j].callback);
        assert j != k ==> events'[j] == events[j];
      }
      if r in Held(token, events') {
        var j :| 0 <= j < |events'| && events'[j].registered && r == (token, events'[j].event, events'[j].callback);
        assert j != k ==> events'[j] == events[j];
      }
      assert events'[k].registered == registered;
    }
  }

  lemma NoneHeld(token: nat, events: seq<EventRecord>)
    requires NoneRegistered(events)
    ensures Held(token, events) == {}
  {
  }

  lemma NothingToSettle(ms: seq<Module>)
    requires Elected(ms).None? && forall i :: 0 <= i < |ms| ==> NoneRegistered(ms[i].events)
    ensures Settle(ms) == ms
  {
    forall i | 0 <= i < |ms| ensures SettleEvents(ms, ms[i].events, false) == ms[i].events {
    }
  }

  lemma SettledAt(ms: seq<Module>, ms': seq<Module>, i: nat)
    requires |ms'| == |ms| && Elected(ms) == Some(i)
    requires forall j :: 0 <= j < |ms| && j != i ==> ms'[j] == ms[j] && NoneRegistered(ms[j].events)
    requires ms'[i] == ms[i].(events := SettleEvents(ms, ms[i].events, true))
    ensures ms' == Settle(ms)
  {
    hide Wanted;
    forall j | 0 <= j < |ms| && j != i ensures SettleEvents(ms, ms[j].events, false) == ms[j].events {
    }
  }

  lemma {:induction false} SameElection(ms: seq<Module>, ms': seq<Module>, n: nat)
    requires n <= |ms| == |ms'|
    requires forall i :: 0 <= i < |ms| ==> ms[i].active == ms'[i].active && ms[i].sequence == ms'[i].sequence
    ensures ElectedAmong(ms, n) == ElectedAmong(ms', n)
  {
    if n > 0 { SameElection(ms, ms', n - 1); }
  }

  lemma SettleAlike(ms: seq<Module>)
    ensures Alike(ms, Settle(ms)) && Elected(Settle(ms)) == Elected(ms)
  {
    hide Wanted;
    forall i | 0 <= i < |ms| ensures Cleared(Settle(ms)[i].events) == Cleared(ms[i].events) {
    }
    SameElection(ms, Settle(ms), |ms|);
  }

  // Settling does nothing to what is settled.
  lemma SettleTwice(ms: seq<Module>)
    ensures Settle(Settle(ms)) == Settle(ms) && Elected(Settle(ms)) == Elected(ms)
  {
    SettleAlike(ms);
    hide Wanted, Alike;
    var r := Settle(ms);
    forall i | 0 <= i < |ms|
      ensures SettleEvents(r, r[i].events, Elected(r) == Some(i)) == r[i].events
    {
      forall k | 0 <= k < |r[i].events| ensures Wanted(r, r[i].events[k].event) == Wanted(ms, ms[i].events[k].event) {
        SameWants(ms, r, ms[i].events[k].event);
      }
    }
  }

  lemma FlagsOnly(ms: seq<Module>, ms': seq<Module>, events': seq<EventRecord>, events: seq<EventRecord>)
    requires |ms| == |ms'| && |events| == |events'|
    requires forall k :: 0 <= k < |events| ==> events'[k] == events[k].(registered := events'[k].registered)
    requires forall i :: 0 <= i < |ms| ==>
               ms'[i] == ms[i] || (ms[i].events == events && ms'[i] == ms[i].(events := events'))
    ensures Alike(ms, ms')
  {
    assert Cleared(events) == Cleared(events');
  }

  lemma ClearedDistinct(events: seq<EventRecord>)
    requires DistinctEvents(events)
    ensures DistinctEvents(Cleared(events))
  {
  }

  // Settling does not depend on what was registered before.
  lemma SettleIgnoresFlags(ms: seq<Module>, ms': seq<Module>)
    requires Alike(ms, ms')
    ensures Settle(ms) == Settle(ms')
  {
    hide Wanted;
    SameElection(ms, ms', |ms|);
    var handling := Elected(ms);
    forall i | 0 <= i < |ms| ensures Settle(ms)[i] == Settle(ms')[i] {
      SettleEventsAlike(ms, ms', ms[i].events, ms'[i].events, handling == Some(i));
    }
  }

  lemma SettleEventsAlike(ms: seq<Module>, ms': seq<Module>, events: seq<EventRecord>, events': seq<EventRecord>,
                          handling: bool)
    requires Alike(ms, ms') && Cleared(events) == Cleared(events')
    ensures SettleEvents(ms, events, handling) == SettleEvents(ms', events', handling)
  {
    assert |events| == |Cleared(events)| == |events'|;
    forall k | 0 <= k < |events|
      ensures SettleEvents(ms, events, handling)[k] == SettleEvents(ms', events', handling)[k]
    {
      assert Cleared(events)[k] == Cleared(events')[k];
      SameWants(ms, ms', events[k].event);
      hide Wanted, Alike;
    }
  }

  lemma SelfAlike(ms: seq<Module>)
    ensures Alike(ms, ms)
  {
  }

  lemma SameElectionAlike(ms: seq<Module>, ms': seq<Module>)
    requires Alike(ms, ms')
    ensures Elected(ms) == Elected(ms')
  {
    SameElection(ms, ms', |ms|);
  }

  lemma ClearedTwice(ms: seq<Module>, ms': seq<Module>, events': seq<EventRecord>, events: seq<EventRecord>)
    requires |ms| == |ms'| && events' == Cleared(events)
    requires forall i :: 0 <= i < |ms| ==>
               ms'[i] == ms[i] || (ms[i].events == events && ms'[i] == ms[i].(events := events'))
    ensures Alike(ms, ms')
  {
    FlagsOnly(ms, ms', events', events);
  }

  // ---- Operations on the values of the records ----

  function IndexOf(ms: seq<Module>, token: nat): (i: nat)
    ensures i <= |ms|
    ensures i < |ms| ==> ms[i].token == token
    ensures i == |ms| ==> forall m <- ms :: m.token != token
  {
    if ms == [] then 0
    else if ms[0].token == token then 0
    else
      var i := 1 + IndexOf(ms[1..], token);
      assert ms == [ms[0]] + ms[1..];
      i
  }

  // The module is active; it gets a record when it has none and one can be made.
  function Activated(ms: seq<Module>, token: nat, sequence: nat, room: bool): seq<Module> {
    var i := IndexOf(ms, token);
    if i < |ms| then ms[i := ms[i].(active := true)]
    else if room then [Module(token, sequence, true, [])] + ms
    else ms
  }

  function Deactivate(events: seq<EventRecord>): (r: seq<EventRecord>)
    ensures |r| == |events|
  {
    seq(|events|, i requires 0 <= i < |events| => events[i].(active := false))
  }

  function Deactivated(ms: seq<Module>, token: nat): seq<Module> {
    var i := IndexOf(ms, token);
    if i < |ms| then ms[i := ms[i].(active := false, events := Deactivate(ms[i].events))] else ms
  }

  function EventIndex(events: seq<EventRecord>, event: nat, callback: nat): (k: nat)
    ensures k <= |events|
    ensures k < |events| ==> events[k].event == event && events[k].callback == callback
    ensures forall j :: 0 <= j < k ==> !(events[j].event == event && events[j].callback == callback)
  {
    if events == [] then 0
    else
      var k := EventIndex(events[..|events| - 1], event, callback);
      if k < |events| - 1 || (events[k].event == event && events[k].callback == callback) then k else |events|
  }

  // The event record with its activity set; a missing one is put at the front if there is room.
  function WithEvent(events: seq<EventRecord>, event: nat, callback: nat, active: bool, room: bool): seq<EventRecord> {
    var k := EventIndex(events, event, callback);
    if k < |events| then events[k := events[k].(bound := true, active := active)]
    else if room then [EventRecord(event, callback, true, active, false)] + events
    else events
  }

  function WithModuleEvent(ms: seq<Module>, token: nat, event: nat, callback: nat, active: bool,
                           room: bool): seq<Module> {
    var i := IndexOf(ms, token);
    if i < |ms| then ms[i := ms[i].(events := WithEvent(ms[i].events, event, callback, active, room))] else ms
  }

  function WithoutModuleEvent(ms: seq<Module>, token: nat, event: nat, callback: nat): seq<Module> {
    var i := IndexOf(ms, token);
    if i == |ms| then ms
    else
      var k := EventIndex(ms[i].events, event, callback);
      if k == |ms[i].events| then ms
      else ms[i := ms[i].(events := ms[i].events[k := ms[i].events[k].(active := false)])]
  }

  // The handle through which one module uses the shared control block.
  class Shared {
    const token: nat
    const control: ControlBlock
    var mine: ModuleRecord?

    constructor (token: nat, control: ControlBlock)
      ensures this.token == token && this.control == control && mine == null
    {
      this.token, this.control, mine := token, control, null;
    }

    // The handle points at its module's record exactly while the module is active.
    ghost predicate Linked()
      reads this, control, control.modules, control.host
    {
      && control.Settled()
      && (mine != null ==> mine in control.modules && mine.token == token)
      && (mine != null <==> IsActive(control.Views(), token))
    }

    // What another module's operation leaves alone is enough for this handle to stay linked.
    twostate lemma StaysLinked()
      requires old(Linked()) && mine == old(mine) && control.Settled()
      requires forall r <- old(control.modules) :: r in control.modules
      requires IsActive(control.Views(), token) == old(IsActive(control.Views(), token))
      ensures Linked()
    {
    }

    // Finds or makes the module's record, activates it and settles.
    method RegisterModule(room: bool) returns (added: bool)
      requires Linked()
      modifies this, control, control.modules, control.host
      ensures Linked()
      ensures control.Views() == Settle(Activated(old(control.Views()), token, old(control.nextSequence), room))
      ensures control.nextSequence == NextSequence(old(control.Views()), token, old(control.nextSequence), room)
      ensures added == (old(mine) == null && mine != null)
      ensures mine == null ==> !room && old(mine) == null
      ensures forall r <- old(control.modules) :: r in control.modules
      ensures forall i :: 0 <= i < |control.modules| ==>
                control.modules[i] in old(control.modules) || fresh(control.modules[i])
    {
      hide ControlBlock.Valid, ControlBlock.Views, Settle, Activated, WithRecord, NextSequence, IsActive, IndexOf,
           Elected;
      ghost var ms := control.Views();
      ActivatedRecord(ms, token, control.nextSequence, room);
      var m := mine;
      if m == null {
        m := control.Obtain(token, room);
      } else {
        control.RecordAt(m);
      }
      if m == null { return false; }
      mine := m;
      added := !m.active;
      if added {
        assert forall i :: 0 <= i < |control.modules| ==>
                 control.modules[i] in old(control.modules) || fresh(control.modules[i]);
        control.Activate(m);
      } else {
        control.SyncReshadeEvents();
      }
    }

    method UnregisterModule() returns (removed: bool)
      requires Linked()
      modifies this, control, control.modules, control.host
      ensures Linked() && mine == null && removed == (old(mine) != null)
      ensures control.modules == old(control.modules) && control.nextSequence == old(control.nextSequence)
      ensures control.Views() ==
                if removed then Settle(Deactivated(old(control.Views()), token)) else old(control.Views())
    {
      hide ControlBlock.Valid, ControlBlock.Views, Settle, Deactivated, IsActive, IndexOf, Elected;
      ghost var ms := control.Views();
      var m := mine;
      if m == null { return false; }
      control.RecordAt(m);
      control.Retire(m);
      DeactivatedInactive(ms, token);
      mine := null;
      removed := true;
    }

    // Adds an event of the module, or sets the activity of one it has, after making the module active.
    method RegisterEvent(event: nat, callback: nat, active: bool, roomForModule: bool, roomForEvent: bool)
      requires Linked()
      modifies this, control, control.modules, control.host
      ensures Linked()
      ensures control.Views() ==
              Settle(WithModuleEvent(Activated(old(control.Views()), token, old(control.nextSequence), roomForModule),
                                     token, event, callback, active, roomForEvent))
      ensures control.nextSequence ==
                NextSequence(old(control.Views()), token, old(control.nextSequence), roomForModule)
      ensures forall r <- old(control.modules) :: r in control.modules
      ensures forall i :: 0 <= i < |control.modules| ==>
                control.modules[i] in old(control.modules) || fresh(control.modules[i])
    {
      hide ControlBlock.Valid, ControlBlock.Views, Settle, Activated, WithModuleEvent, IsActive, IndexOf, Elected;
      ghost var activated := Activated(control.Views(), token, control.nextSequence, roomForModule);
      var added := RegisterModule(roomForModule);
      SettledEvent(activated, token, event, callback, active, roomForEvent);
      SettleTwice(activated);
      SettleTokens(activated, token);
      if mine == null {
        NoModuleNoEvent(old(control.Views()), token, old(control.nextSequence), roomForModule, event, callback, active,
                        roomForEvent);
        return;
      }
      var changed := control.SetEvent(mine, event, callback, active, roomForEvent);
      assert forall i :: 0 <= i < |control.modules| ==>
               control.modules[i] in old(control.modules) || fresh(control.modules[i]);
      if changed { control.SyncReshadeEvents(); }
      SettledEventActive(activated, token, event, callback, active, roomForEvent);
    }

    method UnregisterEvent(event: nat, callback: nat)
      requires Linked()
      modifies this, control, control.modules, control.host
      ensures Linked()
      ensures control.Views() == if mine == null then old(control.Views())
                                 else Settle(WithoutModuleEvent(old(control.Views()), token, event, callback))
      ensures control.modules == old(control.modules) && control.nextSequence == old(control.nextSequence)
              && mine == old(mine)
    {
      hide ControlBlock.Valid, ControlBlock.Views, Settle, WithoutModuleEvent, IsActive, IndexOf, Elected;
      ghost var ms := control.Views();
      if mine == null { return; }
      var changed := control.ClearEvent(mine, event, callback);
      if changed { control.SyncReshadeEvents(); }
      WithoutEventActive(ms, token, event, callback);
    }
  }

  // A record for the module, not yet active if it is new.
  function WithRecord(ms: seq<Module>, token: nat, sequence: nat, room: bool): seq<Module> {
    if IndexOf(ms, token) == |ms| && room then [Module(token, sequence, false, [])] + ms else ms
  }

  function NextSequence(ms: seq<Module>, token: nat, sequence: nat, room: bool): nat {
    if IndexOf(ms, token) == |ms| && room then sequence + 1 else sequence
  }

  lemma ActivatedRecord(ms: seq<Module>, token: nat, sequence: nat, room: bool)
    ensures Activated(WithRecord(ms, token, sequence, room), token, 0, false) == Activated(ms, token, sequence, room)
    ensures IsActive(ms, token) ==> Activated(ms, token, sequence, room) == ms
    ensures !room ==> WithRecord(ms, token, sequence, room) == ms
    ensures IsActive(ms, token) || !room ==> NextSequence(ms, token, sequence, room) == sequence
    ensures IsActive(Settle(Activated(ms, token, sequence, room)), token) <==> room || IndexOf(ms, token) < |ms|
    ensures !room && IndexOf(ms, token) == |ms| ==> Activated(ms, token, sequence, room) == ms && !IsActive(ms, token)
  {
    hide Settle;
    var i, r := IndexOf(ms, token), Activated(ms, token, sequence, room);
    SettleTokens(r, token);
    if i < |ms| {
      SameTokens(ms, ms[i := ms[i].(active := true)], token);
    }
  }

  lemma {:induction false} SameTokens(ms: seq<Module>, ms': seq<Module>, token: nat)
    requires |ms| == |ms'| && forall i :: 0 <= i < |ms| ==> ms[i].token == ms'[i].token
    ensures IndexOf(ms, token) == IndexOf(ms', token)
    decreases |ms|
  {
    if ms != [] { SameTokens(ms[1..], ms'[1..], token); }
  }

  lemma SettleTokens(ms: seq<Module>, token: nat)
    ensures IndexOf(Settle(ms), token) == IndexOf(ms, token) && IsActive(Settle(ms), token) == IsActive(ms, token)
  {
    hide SettleEvents;
    SameTokens(ms, Settle(ms), token);
  }

  predicate IsActive(ms: seq<Module>, token: nat) {
    var i := IndexOf(ms, token);
    i < |ms| && ms[i].active
  }

  lemma EmptyRecord()
    ensures DistinctEvents([]) && NoneRegistered([])
  {
  }

  lemma SameElected(ms: seq<Module>, ms': seq<Module>)
    requires |ms| == |ms'|
    requires forall i :: 0 <= i < |ms| ==> ms[i].active == ms'[i].active && ms[i].sequence == ms'[i].sequence
    ensures Elected(ms) == Elected(ms')
  {
    SameElection(ms, ms', |ms|);
  }

  // Deactivated, and without the registrations of its records.
  function Retired(ms: seq<Module>, token: nat): seq<Module> {
    var i := IndexOf(ms, token);
    if i < |ms| then ms[i := ms[i].(active := false, events := Deactivate(Cleared(ms[i].events)))] else ms
  }

  lemma DeactivatedRecord(events: seq<EventRecord>, token: nat)
    requires DistinctEvents(events)
    ensures var events' := Deactivate(Cleared(events));
            DistinctEvents(events') && NoneRegistered(events') && Held(token, events') == {}
  {
  }

  lemma RetiredInSteps(ms: seq<Module>, token: nat)
    requires IndexOf(ms, token) < |ms|
    ensures var i := IndexOf(ms, token);
            var cleared := ms[i := ms[i].(events := Deactivate(Cleared(ms[i].events)))];
            && IndexOf(cleared, token) == i
            && Retired(ms, token) == cleared[i := cleared[i].(active := false)]
  {
    var i := IndexOf(ms, token);
    SameTokens(ms, ms[i := ms[i].(events := Deactivate(Cleared(ms[i].events)))], token);
  }

  lemma RetiredAlike(ms: seq<Module>, token: nat)
    ensures Alike(Retired(ms, token), Deactivated(ms, token))
  {
    var i := IndexOf(ms, token);
    if i < |ms| {
      assert Cleared(Deactivate(Cleared(ms[i].events))) == Cleared(Deactivate(ms[i].events));
    }
  }

  lemma EventIndexIs(events: seq<EventRecord>, event: nat, callback: nat, k: nat)
    requires k <= |events| && (k < |events| ==> events[k].event == event && events[k].callback == callback)
    requires forall j :: 0 <= j < k ==> !(events[j].event == event && events[j].callback == callback)
    ensures EventIndex(events, event, callback) == k
  {
  }

  lemma WithEventSame(token: nat, events: seq<EventRecord>, event: nat, callback: nat, active: bool, room: bool)
    requires DistinctEvents(events)
    ensures var events' := WithEvent(events, event, callback, active, room);
            && DistinctEvents(events') && Held(token, events') == Held(token, events)
            && (NoneRegistered(events) ==> NoneRegistered(events'))
  {
    var k := EventIndex(events, event, callback);
    if k < |events| {
      SameFlagsHeld(token, events, WithEvent(events, event, callback, active, room));
    } else if room {
      PrependHeld(token, EventRecord(event, callback, true, active, false), events);
    }
  }

  lemma SameFlagsHeld(token: nat, events: seq<EventRecord>, events': seq<EventRecord>)
    requires |events| == |events'|
    requires forall k :: 0 <= k < |events| ==>
               events'[k].event == events[k].event && events'[k].callback == events[k].callback
                 && events'[k].registered == events[k].registered
    ensures Held(token, events') == Held(token, events)
  {
  }

  lemma PrependHeld(token: nat, e: EventRecord, events: seq<EventRecord>)
    requires !e.registered
    ensures Held(token, [e] + events) == Held(token, events)
  {
    forall r | r in Held(token, events) ensures r in Held(token, [e] + events) {
      var k :| 0 <= k < |events| && events[k].registered && r == (token, events[k].event, events[k].callback);
      assert ([e] + events)[k + 1] == events[k];
    }
  }

  lemma InactiveSame(token: nat, events: seq<EventRecord>, k: nat)
    requires DistinctEvents(events) && k < |events|
    ensures var events' := events[k := events[k].(active := false)];
            && DistinctEvents(events') && Held(token, events') == Held(token, events)
            && (NoneRegistered(events) ==> NoneRegistered(events'))
  {
    SameFlagsHeld(token, events, events[k := events[k].(active := false)]);
  }

  lemma DeactivatedInactive(ms: seq<Module>, token: nat)
    ensures !IsActive(Settle(Deactivated(ms, token)), token)
  {
    hide Settle, Deactivate;
    SettleTokens(Deactivated(ms, token), token);
    SameTokens(ms, Deactivated(ms, token), token);
  }

  // An event set on settled records settles like one set on the records before.
  lemma SettledEvent(ms: seq<Module>, token: nat, event: nat, callback: nat, active: bool, room: bool)
    ensures Settle(WithModuleEvent(Settle(ms), token, event, callback, active, room)) ==
            Settle(WithModuleEvent(ms, token, event, callback, active, room))
  {
    hide Settle, WithEvent, EventIndex;
    var i := IndexOf(ms, token);
    SettleTokens(ms, token);
    SettleAlike(ms);
    if i < |ms| {
      WithEventCleared(ms[i].events, Settle(ms)[i].events, event, callback, active, room);
    }
    SettleIgnoresFlags(WithModuleEvent(Settle(ms), token, event, callback, active, room),
                       WithModuleEvent(ms, token, event, callback, active, room));
  }

  lemma {:induction false} SameEventIndex(events: seq<EventRecord>, events': seq<EventRecord>, event: nat,
                                          callback: nat)
    requires |events| == |events'|
    requires forall k :: 0 <= k < |events| ==>
               events[k].event == events'[k].event && events[k].callback == events'[k].callback
    ensures EventIndex(events, event, callback) == EventIndex(events', event, callback)
    decreases |events|
  {
    if events != [] { SameEventIndex(events[..|events| - 1], events'[..|events| - 1], event, callback); }
  }

  lemma WithEventCleared(events: seq<EventRecord>, events': seq<EventRecord>, event: nat, callback: nat, active: bool,
                         room: bool)
    requires Cleared(events) == Cleared(events')
    ensures Cleared(WithEvent(events, event, callback, active, room)) ==
              Cleared(WithEvent(events', event, callback, active, room))
  {
    assert |events| == |Cleared(events)| == |events'|;
    forall k | 0 <= k < |events| ensures events'[k] == events[k].(registered := events'[k].registered) {
      assert Cleared(events)[k] == Cleared(events')[k];
    }
    SameEventIndex(events, events', event, callback);
    hide EventIndex;
  }

  lemma NoModuleNoEvent(ms: seq<Module>, token: nat, sequence: nat, made: bool, event: nat, callback: nat,
                        active: bool, room: bool)
    ensures var activated := Activated(ms, token, sequence, made);
            !IsActive(Settle(activated), token) ==>
                WithModuleEvent(activated, token, event, callback, active, room) == activated
  {
    hide Settle;
    ActivatedRecord(ms, token, sequence, made);
  }

  lemma SettledEventActive(ms: seq<Module>, token: nat, event: nat, callback: nat, active: bool, room: bool)
    ensures IsActive(Settle(WithModuleEvent(ms, token, event, callback, active, room)), token) == IsActive(ms, token)
  {
    hide Settle, WithEvent;
    SettleTokens(WithModuleEvent(ms, token, event, callback, active, room), token);
    SameTokens(ms, WithModuleEvent(ms, token, event, callback, active, room), token);
  }

  lemma WithoutEventActive(ms: seq<Module>, token: nat, event: nat, callback: nat)
    ensures IsActive(Settle(WithoutModuleEvent(ms, token, event, callback)), token) == IsActive(ms, token)
  {
    hide Settle, EventIndex;
    SettleTokens(WithoutModuleEvent(ms, token, event, callback), token);
    SameTokens(ms, WithoutModuleEvent(ms, token, event, callback), token);
  }

  // ---- Any sequence of operations by any number of modules ----

  datatype Action =
    | Join(token: nat, room: bool)
    | Leave(token: nat)
    | AddEvent(token: nat, event: nat, callback: nat, active: bool, roomForModule: bool, room: bool)
    | DropEvent(token: nat, event: nat, callback: nat)

  datatype World = World(modules: seq<Module>, nextSequence: nat)

  // What the operations of a module's handle make of the records.
  function Act(w: World, a: Action): World {
    var ms := w.modules;
    match a
    case Join(token, room) =>
      World(Settle(Activated(ms, token, w.nextSequence, room)), NextSequence(ms, token, w.nextSequence, room))
    case Leave(token) =>
      if IsActive(ms, token) then World(Settle(Deactivated(ms, token)), w.nextSequence) else w
    case AddEvent(token, event, callback, active, roomForModule, room) =>
      World(Settle(WithModuleEvent(Activated(ms, token, w.nextSequence, roomForModule), token, event, callback, active,
                                   room)),
            NextSequence(ms, token, w.nextSequence, roomForModule))
    case DropEvent(token, event, callback) =>
      if IsActive(ms, token) then World(Settle(WithoutModuleEvent(ms, token, event, callback)), w.nextSequence) else w
  }

  function Run(w: World, actions: seq<Action>): World
    decreases |actions|
  {
    if actions == [] then w else Run(Act(w, actions[0]), actions[1..])
  }

  const START := World([], 1)

  ghost predicate Ordered(ms: seq<Module>, next: nat) {
    && (forall i :: 0 <= i < |ms| ==> ms[i].sequence < next)
    && (forall i, j :: 0 <= i < j < |ms| ==> ms[i].sequence > ms[j].sequence && ms[i].token != ms[j].token)
  }

  lemma SameOrder(ms: seq<Module>, ms': seq<Module>, next: nat)
    requires Ordered(ms, next) && |ms| == |ms'|
    requires forall i :: 0 <= i < |ms| ==> ms'[i].token == ms[i].token && ms'[i].sequence == ms[i].sequence
    ensures Ordered(ms', next)
  {
  }

  // Settling keeps the order and is done.
  lemma SettleOrdered(ms: seq<Module>, next: nat)
    requires Ordered(ms, next)
    ensures Ordered(Settle(ms), next) && Settle(Settle(ms)) == Settle(ms)
  {
    SettleTwice(ms);
    hide SettleEvents, Ordered;
    SameOrder(ms, Settle(ms), next);
  }

  lemma ActivatedOrdered(ms: seq<Module>, token: nat, next: nat, room: bool)
    requires Ordered(ms, next)
    ensures Ordered(Activated(ms, token, next, room), NextSequence(ms, token, next, room))
  {
    hide IndexOf;
    var i := IndexOf(ms, token);
    if i < |ms| {
      SameOrder(ms, ms[i := ms[i].(active := true)], next);
    } else if room {
      PrependOrdered(ms, token, next);
    }
  }

  lemma PrependOrdered(ms: seq<Module>, token: nat, next: nat)
    requires Ordered(ms, next) && forall m <- ms :: m.token != token
    ensures Ordered([Module(token, next, true, [])] + ms, next + 1)
  {
  }

  lemma ChangedOrdered(ms: seq<Module>, next: nat, token: nat, event: nat, callback: nat, active: bool, room: bool)
    requires Ordered(ms, next)
    ensures Ordered(Deactivated(ms, token), next)
    ensures Ordered(WithModuleEvent(ms, token, event, callback, active, room), next)
    ensures Ordered(WithoutModuleEvent(ms, token, event, callback), next)
  {
    hide Ordered, WithEvent, Deactivate, EventIndex;
    SameOrder(ms, Deactivated(ms, token), next);
    SameOrder(ms, WithModuleEvent(ms, token, event, callback, active, room), next);
    SameOrder(ms, WithoutModuleEvent(ms, token, event, callback), next);
  }

  lemma ActKeeps(w: World, a: Action)
    requires Ordered(w.modules, w.nextSequence) && Settle(w.modules) == w.modules
    ensures var w' := Act(w, a); Ordered(w'.modules, w'.nextSequence) && Settle(w'.modules) == w'.modules
  {
    hide Settle, Ordered, Activated, Deactivated, WithModuleEvent, WithoutModuleEvent, NextSequence, IsActive;
    var ms, next := w.modules, w.nextSequence;
    match a
    case Join(token, room) =>
      ActivatedOrdered(ms, token, next, room);
      SettleOrdered(Activated(ms, token, next, room), NextSequence(ms, token, next, room));
    case Leave(token) =>
      ChangedOrdered(ms, next, token, 0, 0, false, false);
      SettleOrdered(Deactivated(ms, token), next);
    case AddEvent(token, event, callback, active, roomForModule, room) =>
      var r, next' := Activated(ms, token, next, roomForModule), NextSequence(ms, token, next, roomForModule);
      ActivatedOrdered(ms, token, next, roomForModule);
      ChangedOrdered(r, next', token, event, callback, active, room);
      SettleOrdered(WithModuleEvent(r, token, event, callback, active, room), next');
    case DropEvent(token, event, callback) =>
      ChangedOrdered(ms, next, token, event, callback, false, false);
      SettleOrdered(WithoutModuleEvent(ms, token, event, callback), next);
  }

  lemma {:induction false} RunKeeps(w: World, actions: seq<Action>)
    requires Ordered(w.modules, w.nextSequence) && Settle(w.modules) == w.modules
    ensures var w' := Run(w, actions); Ordered(w'.modules, w'.nextSequence) && Settle(w'.modules) == w'.modules
    decreases |actions|
  {
    hide Act, Settle, Ordered;
    if actions != [] {
      ActKeeps(w, actions[0]);
      RunKeeps(Act(w, actions[0]), actions[1..]);
    }
  }

  // An operation of one module leaves the activity of every other module alone.
  lemma OthersStayActive(w: World, a: Action, token: nat)
    requires token != a.token
    ensures IsActive(Act(w, a).modules, token) == IsActive(w.modules, token)
  {
    hide Settle, SettleEvents, WithEvent, Deactivate, EventIndex;
    var ms := w.modules;
    match a
    case Join(t, room) =>
      ActivatedOthers(ms, t, w.nextSequence, room, token);
      SettleTokens(Activated(ms, t, w.nextSequence, room), token);
    case Leave(t) =>
      ChangedOthers(ms, Deactivated(ms, t), t, token);
      SettleTokens(Deactivated(ms, t), token);
    case AddEvent(t, event, callback, active, roomForModule, room) =>
      var r := Activated(ms, t, w.nextSequence, roomForModule);
      ActivatedOthers(ms, t, w.nextSequence, roomForModule, token);
      ChangedOthers(r, WithModuleEvent(r, t, event, callback, active, room), t, token);
      SettleTokens(WithModuleEvent(r, t, event, callback, active, room), token);
    case DropEvent(t, event, callback) =>
      ChangedOthers(ms, WithoutModuleEvent(ms, t, event, callback), t, token);
      SettleTokens(WithoutModuleEvent(ms, t, event, callback), token);
  }

  // Only the record of module t differs, if any.
  lemma ChangedOthers(ms: seq<Module>, ms': seq<Module>, t: nat, token: nat)
    requires t != token && |ms| == |ms'|
    requires forall i :: 0 <= i < |ms| ==> ms'[i].token == ms[i].token && (ms'[i] == ms[i] || ms[i].token == t)
    ensures IsActive(ms', token) == IsActive(ms, token)
  {
    hide IndexOf;
    SameTokens(ms, ms', token);
  }

  lemma ActivatedOthers(ms: seq<Module>, t: nat, sequence: nat, room: bool, token: nat)
    requires t != token
    ensures IsActive(Activated(ms, t, sequence, room), token) == IsActive(ms, token)
  {
    var i := IndexOf(ms, t);
    if i < |ms| {
      hide IndexOf;
      ChangedOthers(ms, ms[i := ms[i].(active := true)], t, token);
    } else if room {
      var added := [Module(t, sequence, true, [])] + ms;
      assert added[1..] == ms;
    }
  }

  // The module that handles events: active, and older than all other active modules.
  ghost predicate IsHandler(ms: seq<Module>, i: nat) {
    i < |ms| && ms[i].active && forall j :: 0 <= j < |ms| && ms[j].active && j != i ==> ms[i].sequence < ms[j].sequence
  }

  lemma ElectedIsHandler(ms: seq<Module>, next: nat)
    requires Ordered(ms, next)
    ensures forall i: nat :: Elected(ms) == Some(i) <==> IsHandler(ms, i)
    ensures Elected(ms) == None <==> forall m <- ms :: !m.active
  {
    forall i: nat | IsHandler(ms, i) ensures Elected(ms) == Some(i) {
      assert ms[i].active;
    }
    if Elected(ms) == None {
      forall m | m in ms ensures !m.active {
        var i :| 0 <= i < |ms| && ms[i] == m;
      }
    }
  }

  // After any sequence of operations: only events of the oldest active module are registered with the host,
  // and each of its events exactly when some active module wants that event.
  lemma HostServesHandler(actions: seq<Action>, token: nat, event: nat, callback: nat)
    ensures var ms := Run(START, actions).modules;
            (token, event, callback) in HostSet(ms) <==>
            exists i: nat, k: nat :: IsHandler(ms, i) && k < |ms[i].events| && ms[i].token == token
                                     && ms[i].events[k].event == event && ms[i].events[k].callback == callback
                                     && Wanted(ms, event)
  {
    StartSettled();
    RunKeeps(START, actions);
    var w := Run(START, actions);
    var ms := w.modules;
    ElectedIsHandler(ms, w.nextSequence);
    hide Run, IsHandler, Wanted, Ordered;
    forall i, k | 0 <= i < |ms| && 0 <= k < |ms[i].events|
      ensures ms[i].events[k].registered == (IsHandler(ms, i) && Wanted(ms, ms[i].events[k].event))
    {
      assert Settle(ms)[i].events[k] == ms[i].events[k];
    }
  }

  lemma StartSettled()
    ensures Ordered(START.modules, START.nextSequence) && Settle(START.modules) == START.modules
  {
  }

  // There is no handler, and nothing registered, exactly when no module is active.
  lemma NoHandlerWithoutModules(actions: seq<Action>)
    ensures var ms := Run(START, actions).modules;
            (forall m <- ms :: !m.active) <==> !exists i: nat :: IsHandler(ms, i)
    ensures var ms := Run(START, actions).modules;
            (forall m <- ms :: !m.active) ==> HostSet(ms) == {}
  {
    StartSettled();
    RunKeeps(START, actions);
    var w := Run(START, actions);
    ElectedIsHandler(w.modules, w.nextSequence);
    hide Run, IsHandler, Wanted, Ordered, Elected, ElectedAmong;
    var ms := w.modules;
    forall i, k | 0 <= i < |ms| && 0 <= k < |ms[i].events|
      ensures ms[i].events[k].registered ==> Elected(ms) == Some(i)
    {
      assert Settle(ms)[i].events[k] == ms[i].events[k];
    }
  }

  // The control block's host holds exactly the registrations of the records' values.
  lemma HostHoldsRecords(control: ControlBlock)
    requires control.Settled()
    ensures control.host.registered == HostSet(control.Views())
  {
    hide Settle, Elected, DistinctEvents;
    var ms := control.Views();
    forall r ensures r in HostSet(ms) <==> r in control.host.registered {
      if control.handler != null && r in control.host.registered {
        var h :| 0 <= h < |control.modules| && control.modules[h] == control.handler;
        var k :| 0 <= k < |control.handler.events| && control.handler.events[k].registered
                 && r == (control.handler.token, control.handler.events[k].event, control.handler.events[k].callback);
        assert ms[h].events[k].registered;
      }
    }
  }

  // ---- Runs through the handles ----

  // The handles of the modules of one process.
  ghost predicate AllLinked(handles: map<nat, Shared>, control: ControlBlock)
    reads handles.Values, control, control.modules, control.host
  {
    forall t <- handles :: handles[t].token == t && handles[t].control == control && handles[t].Linked()
  }

  // One operation through its module's handle; all other handles stay linked.
  method Perform(handles: map<nat, Shared>, control: ControlBlock, a: Action)
    requires AllLinked(handles, control) && a.token in handles
    modifies handles.Values, control, control.modules, control.host
    ensures AllLinked(handles, control)
    ensures World(control.Views(), control.nextSequence) == Act(old(World(control.Views(), control.nextSequence)), a)
    ensures forall i :: 0 <= i < |control.modules| ==>
              control.modules[i] in old(control.modules) || fresh(control.modules[i])
  {
    hide ControlBlock.Views, ControlBlock.Settled, Settle, Activated, Deactivated, WithModuleEvent, WithoutModuleEvent,
         NextSequence, IsActive;
    ghost var w := World(control.Views(), control.nextSequence);
    var handle := handles[a.token];
    match a {
      case Join(_, room) => var _ := handle.RegisterModule(room);
      case Leave(_) => var _ := handle.UnregisterModule();
      case AddEvent(_, event, callback, active, roomForModule, room) =>
        handle.RegisterEvent(event, callback, active, roomForModule, room);
      case DropEvent(_, event, callback) => handle.UnregisterEvent(event, callback);
    }
    assert World(control.Views(), control.nextSequence) == Act(w, a);
    forall t | t in handles ensures handles[t].Linked() {
      if t != a.token {
        OthersStayActive(w, a, t);
        handles[t].StaysLinked();
      }
    }
  }

  // Any sequence of operations by any number of modules, from a new control block on: the host holds the
  // registrations that the run of the records says.
  method PerformAll(handles: map<nat, Shared>, control: ControlBlock, actions: seq<Action>)
    requires AllLinked(handles, control) && World(control.Views(), control.nextSequence) == START
    requires forall a <- actions :: a.token in handles
    modifies handles.Values, control, control.modules, control.host
    ensures AllLinked(handles, control)
    ensures World(control.Views(), control.nextSequence) == Run(START, actions)
    ensures handles != map[] ==> control.host.registered == HostSet(Run(START, actions).modules)
  {
    hide ControlBlock.Views, ControlBlock.Settled, Act, HostSet;
    var k := 0;
    while k < |actions|
      invariant k <= |actions| && AllLinked(handles, control)
      invariant Run(World(control.Views(), control.nextSequence), actions[k..]) == Run(START, actions)
      invariant forall i :: 0 <= i < |control.modules| ==>
                  control.modules[i] in old(control.modules) || fresh(control.modules[i])
    {
      assert actions[k..][0] == actions[k] && actions[k..][1..] == actions[k + 1..];
      Perform(handles, control, actions[k]);
      k := k + 1;
    }
    assert actions[k..] == [];
    if handles != map[] {
      ghost var t :| t in handles;
      assert handles[t].Linked();
      HostHoldsRecords(control);
    }
  }
}
