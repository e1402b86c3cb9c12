// QueueSignal with callbacks, the delivery worker and the fence destructor, as threads that interleave
// at every lock operation, driver call and completion query.
module CallbackDelivery {

  // A queued callback; value 0 marks a reservation whose point is not known yet.
  datatype Entry = Entry(value: nat, id: nat)

  // An accepted signal brings a point above all earlier ones.
  datatype Outcome = Accepted(gap: nat) | Rejected | Threw

  // How far the submission that holds the lock has got.
  datatype Progress = Reserved | Answered(completion: nat) | Unwinding

  // The delivery mutex: free, held by one submitting thread, or held by the worker.
  datatype Lock = Free | Submitting(thread: nat, callback: bool, progress: Progress) | Delivering

  // The worker: waiting for the lock or for work, looking at the front entry under the lock, running a
  // callback without it, leaving after a failed query, and gone.
  datatype Worker = Waiting | Checking | Calling(id: nat) | Failing | Gone

  datatype Delivery = Delivered(entry: Entry, observed: nat)

  datatype State = State(
    pending: seq<Entry>,
    stopping: bool,
    lock: Lock,
    entered: map<nat, bool>,    // threads past the first stopping check, and whether they bring a callback
    worker: Worker,
    value: nat,                 // the backend's latest point
    nextId: nat,                // callbacks reserved so far
    accepted: seq<Entry>,       // submissions accepted with a callback, in the order of submission
    refused: set<nat>,          // callbacks of rejected and of throwing submissions
    popped: seq<Delivery>,      // callbacks taken for delivery, with the completed value seen
    called: seq<nat>,           // callbacks whose invocation has ended
    popsAtStop: nat             // callbacks taken by the time stopping was set
  )

  datatype Action =
    | Enter(t: nat, callback: bool)
    | Acquire(t: nat)
    | Backend(outcome: Outcome)
    | Finish
    | Wake
    | Observe(completed: nat)
    | QueryThrows
    | CallbackEnds
    | RecordFailure
    | Destroy

  function Stop(s: State): State {
    if s.stopping then s else s.(stopping := true, popsAtStop := |s.popped|)
  }

  function Front(es: seq<Entry>): seq<Entry>
    requires |es| > 0
  {
    es[..|es| - 1]
  }

  function Back(es: seq<Entry>): Entry
    requires |es| > 0
  {
    es[|es| - 1]
  }

  function AcquireLock(s: State, t: nat): State {
    if t !in s.entered || s.lock != Free then s
    else
      var s' := s.(entered := s.entered - {t});
      if s.stopping then s'
      else if !s.entered[t] then s'.(lock := Submitting(t, false, Reserved))
      else
        s'.(lock := Submitting(t, true, Reserved), pending := s.pending + [Entry(0, s.nextId)], nextId := s.nextId + 1)
  }

  function BackendAnswers(s: State, outcome: Outcome): State {
    if !s.lock.Submitting? || s.lock.progress != Reserved then s
    else
      match outcome
      case Accepted(gap) =>
        s.(value := s.value + 1 + gap, lock := s.lock.(progress := Answered(s.value + 1 + gap)))
      case Rejected => s.(lock := s.lock.(progress := Answered(0)))
      case Threw => s.(lock := s.lock.(progress := Unwinding))
  }

  // The accepted point is written into the reservation; without a point the reservation is withdrawn.
  function FinishSubmission(s: State): State {
    if !s.lock.Submitting? || s.lock.progress == Reserved then s
    else if !s.lock.callback || s.pending == [] then s.(lock := Free)
    else if s.lock.progress.Answered? && s.lock.progress.completion != 0 then
      var entry := Back(s.pending).(value := s.lock.progress.completion);
      s.(pending := Front(s.pending) + [entry], accepted := s.accepted + [entry], lock := Free)
    else s.(pending := Front(s.pending), refused := s.refused + {Back(s.pending).id}, lock := Free)
  }

  function WakeWorker(s: State): State {
    if s.worker != Waiting || s.lock != Free then s
    else if s.stopping then s.(worker := Gone)
    else if s.pending == [] then s
    else s.(worker := Checking, lock := Delivering)
  }

  function ObserveFront(s: State, completed: nat): State {
    if s.worker != Checking || s.pending == [] then s
    else if completed < s.pending[0].value then s.(worker := Waiting, lock := Free)
    else s.(worker := Calling(s.pending[0].id), lock := Free, pending := s.pending[1..],
            popped := s.popped + [Delivered(s.pending[0], completed)])
  }

  // One step; an action that its thread cannot take leaves the state unchanged.
  function Act(s: State, a: Action): State {
    match a
    case Enter(t, callback) =>
      if t in s.entered || s.lock != Free || s.stopping then s else s.(entered := s.entered[t := callback])
    case Acquire(t) => AcquireLock(s, t)
    case Backend(outcome) => BackendAnswers(s, outcome)
    case Finish => FinishSubmission(s)
    case Wake => WakeWorker(s)
    case Observe(completed) => ObserveFront(s, completed)
    case QueryThrows => if s.worker != Checking then s else s.(worker := Failing, lock := Free)
    case CallbackEnds => if !s.worker.Calling? then s else s.(worker := Waiting, called := s.called + [s.worker.id])
    case RecordFailure => if s.worker != Failing || s.lock != Free then s else Stop(s).(worker := Gone)
    case Destroy => if s.lock != Free then s else Stop(s)
  }

  function Run(s: State, actions: seq<Action>): State
    decreases |actions|
  {
    if actions == [] then s else Run(Act(s, actions[0]), actions[1..])
  }

  const START := State([], false, Free, map[], Waiting, 0, 0, [], {}, [], [], 0)

  // ---- What every state satisfies ----

  predicate Reserving(s: State) {
    s.lock.Submitting? && s.lock.callback
  }

  // The queue without the reservation that only its submitter can see.
  function Committed(s: State): seq<Entry> {
    if Reserving(s) && |s.pending| > 0 then Front(s.pending) else s.pending
  }

  // The callbacks accepted so far and, last, the one with a reservation.
  function HandedIn(s: State): seq<Entry> {
    if Reserving(s) && |s.pending| > 0 then s.accepted + [Back(s.pending)] else s.accepted
  }

  // The point that the lock holder has got from the backend but not written yet.
  function InFlight(s: State): nat {
    if s.lock.Submitting? && s.lock.progress.Answered? then s.lock.progress.completion else 0
  }

  function Entries(ds: seq<Delivery>): (es: seq<Entry>)
    ensures |es| == |ds| && forall i :: 0 <= i < |ds| ==> es[i] == ds[i].entry
  {
    seq(|ds|, i requires 0 <= i < |ds| => ds[i].entry)
  }

  ghost predicate Increasing(es: seq<Entry>) {
    && (forall i :: 0 <= i < |es| ==> 0 < es[i].value)
    && (forall i, j :: 0 <= i < j < |es| ==> es[i].value < es[j].value)
  }

  // No accepted point is above the backend's latest, nor reaches the one in flight.
  ghost predicate Below(es: seq<Entry>, value: nat, inFlight: nat) {
    && inFlight <= value
    && (forall i :: 0 <= i < |es| ==> es[i].value <= value && (inFlight != 0 ==> es[i].value < inFlight))
  }

  ghost predicate Known(es: seq<Entry>, nextId: nat, refused: set<nat>) {
    && (forall i :: 0 <= i < |es| ==> es[i].id < nextId && es[i].id !in refused)
    && (forall id :: id in refused ==> id < nextId)
    && (forall i, j :: 0 <= i < j < |es| ==> es[i].id != es[j].id)
  }

  ghost predicate Seen(ds: seq<Delivery>) {
    forall i :: 0 <= i < |ds| ==> ds[i].entry.value <= ds[i].observed
  }

  // Invocations end in the order of delivery; the worker runs at most the callback it took last.
  ghost predicate CalledInOrder(called: seq<nat>, worker: Worker, popped: seq<Delivery>) {
    && (if worker.Calling? then |called| + 1 == |popped| && popped[|called|].entry.id == worker.id
        else |called| == |popped|)
    && forall i :: 0 <= i < |called| ==> called[i] == popped[i].entry.id
  }

  ghost predicate Inv(s: State) {
    && (s.worker == Checking <==> s.lock == Delivering)
    && (s.lock == Delivering ==> s.pending != [])
    && (s.stopping ==> s.lock == Free)
    && (Reserving(s) ==> |s.pending| > 0 && Back(s.pending).value == 0)
    && (s.stopping ==> |s.popped| == s.popsAtStop)
    && Below(s.accepted, s.value, InFlight(s))
    && Increasing(s.accepted)
    && Known(HandedIn(s), s.nextId, s.refused)
    && s.accepted == Entries(s.popped) + Committed(s)
    && Seen(s.popped)
    && CalledInOrder(s.called, s.worker, s.popped)
  }

  lemma InvAcquired(s: State, s': State, e: Entry)
    requires Inv(s) && s.lock == Free && e == Entry(0, s.nextId)
    requires s' == s.(entered := s'.entered, lock := s'.lock, pending := s.pending + [e], nextId := s.nextId + 1)
    requires s'.lock.Submitting? && s'.lock.callback && s'.lock.progress == Reserved && !s.stopping
    ensures Inv(s')
  {
    hide CalledInOrder, Seen, Increasing, Entries, Known, Below;
    assert Back(s'.pending) == e && Front(s'.pending) == s.pending;
    assert HandedIn(s) == s.accepted;
    KnownGrows(s.accepted, e, s.refused);
  }

  lemma AcquireKeeps(s: State, t: nat)
    requires Inv(s)
    ensures Inv(AcquireLock(s, t))
  {
    hide CalledInOrder, Seen, Increasing, Entries, Known, Below;
    if t in s.entered && s.lock == Free && !s.stopping && s.entered[t] {
      InvAcquired(s, AcquireLock(s, t), Entry(0, s.nextId));
    }
  }

  lemma BackendKeeps(s: State, outcome: Outcome)
    requires Inv(s)
    ensures Inv(BackendAnswers(s, outcome))
  {
    hide CalledInOrder, Seen, Increasing, Entries, Known;
  }

  lemma KnownGrows(es: seq<Entry>, e: Entry, refused: set<nat>)
    requires Known(es, e.id, refused)
    ensures Known(es + [e], e.id + 1, refused)
  {
  }

  lemma KnownSplit(es: seq<Entry>, e: Entry, nextId: nat, refused: set<nat>)
    requires Known(es + [e], nextId, refused)
    ensures Known(es, nextId, refused) && Known(es, nextId, refused + {e.id})
  {
    assert (es + [e])[|es|] == e;
    assert forall i :: 0 <= i < |es| ==> (es + [e])[i] == es[i];
  }

  lemma KnownIgnoresValue(es: seq<Entry>, e: Entry, value: nat, nextId: nat, refused: set<nat>)
    requires Known(es + [e], nextId, refused)
    ensures Known(es + [e.(value := value)], nextId, refused)
  {
    assert forall i :: 0 <= i <= |es| ==> (es + [e.(value := value)])[i].id == (es + [e])[i].id;
  }

  // The point in flight is above all accepted ones, so writing it keeps the order.
  lemma WritingPoint(es: seq<Entry>, e: Entry, value: nat)
    requires Increasing(es) && Below(es, value, e.value) && e.value > 0
    ensures Increasing(es + [e]) && Below(es + [e], value, 0)
  {
  }

  lemma FinishKeeps(s: State)
    requires Inv(s)
    ensures Inv(FinishSubmission(s))
  {
    hide CalledInOrder, Seen, Entries, Known, Increasing;
    var s' := FinishSubmission(s);
    if Reserving(s) {
      KnownSplit(s.accepted, Back(s.pending), s.nextId, s.refused);
      KnownIgnoresValue(s.accepted, Back(s.pending), InFlight(s), s.nextId, s.refused);
      if InFlight(s) != 0 {
        WritingPoint(s.accepted, Back(s.pending).(value := InFlight(s)), s.value);
        hide Below;
      }
    }
    assert s'.accepted == Entries(s'.popped) + Committed(s');
  }

  lemma WakeKeeps(s: State)
    requires Inv(s)
    ensures Inv(WakeWorker(s))
  {
    hide Seen, Increasing, Entries, Known, Below;
  }

  // The front entry moves from the queue to what has been taken.
  lemma TakingFront(popped: seq<Delivery>, pending: seq<Entry>, completed: nat)
    requires |pending| > 0
    ensures Entries(popped + [Delivered(pending[0], completed)]) + pending[1..] == Entries(popped) + pending
  {
  }

  lemma SeeingFront(popped: seq<Delivery>, d: Delivery)
    requires Seen(popped) && d.entry.value <= d.observed
    ensures Seen(popped + [d])
  {
  }

  lemma CallingFront(called: seq<nat>, worker: Worker, popped: seq<Delivery>, d: Delivery)
    requires CalledInOrder(called, worker, popped) && !worker.Calling?
    ensures CalledInOrder(called, Calling(d.entry.id), popped + [d])
  {
  }

  lemma ObserveKeeps(s: State, completed: nat)
    requires Inv(s)
    ensures Inv(ObserveFront(s, completed))
  {
    if s.worker == Checking && s.pending != [] && s.pending[0].value <= completed {
      hide Increasing, Known, Below, Seen, CalledInOrder, Entries;
      var d := Delivered(s.pending[0], completed);
      TakingFront(s.popped, s.pending, completed);
      SeeingFront(s.popped, d);
      CallingFront(s.called, s.worker, s.popped, d);
    } else {
      hide Increasing, Known, Below, Seen, Entries;
    }
  }

  // The steps that leave the queue and the points alone.
  lemma OtherKeeps(s: State, a: Action)
    requires Inv(s)
    requires a.Enter? || a.QueryThrows? || a.CallbackEnds? || a.RecordFailure? || a.Destroy?
    ensures Inv(Act(s, a))
  {
    hide Seen, Increasing, Entries, Known, Below;
  }

  lemma ActKeeps(s: State, a: Action)
    requires Inv(s)
    ensures Inv(Act(s, a))
  {
    hide Inv;
    match a
    case Acquire(t) => AcquireKeeps(s, t);
    case Backend(outcome) => BackendKeeps(s, outcome);
    case Finish => FinishKeeps(s);
    case Wake => WakeKeeps(s);
    case Observe(completed) => ObserveKeeps(s, completed);
    case _ => OtherKeeps(s, a);
  }

  lemma {:induction false} RunKeeps(s: State, actions: seq<Action>)
    requires Inv(s)
    ensures Inv(Run(s, actions))
    decreases |actions|
  {
    if actions != [] {
      ActKeeps(s, actions[0]);
      RunKeeps(Act(s, actions[0]), actions[1..]);
    }
  }

  lemma Reached(actions: seq<Action>)
    ensures Inv(Run(START, actions))
  {
    RunKeeps(START, actions);
  }

  // ---- What every interleaving guarantees ----

  // Callbacks are taken in the order of their accepted submissions, none is lost, doubled or invented:
  // what has been taken, then what waits, is what was accepted.
  lemma DeliveredInOrder(actions: seq<Action>)
    ensures var s := Run(START, actions);
            && s.accepted == Entries(s.popped) + Committed(s)
            && forall i, j :: 0 <= i < j < |s.accepted| ==> s.accepted[i].id != s.accepted[j].id
  {
    Reached(actions);
    var s := Run(START, actions);
    assert forall i :: 0 <= i < |s.accepted| ==> HandedIn(s)[i] == s.accepted[i];
  }

  // No callback is taken before a completed value at or above its own accepted point was seen.
  lemma DeliveredAfterCompletion(actions: seq<Action>)
    ensures forall d <- Run(START, actions).popped :: 0 < d.entry.value <= d.observed
  {
    hide Run, Known, Below, CalledInOrder;
    Reached(actions);
    var s := Run(START, actions);
    forall i | 0 <= i < |s.popped| ensures 0 < s.popped[i].entry.value {
      assert s.accepted[i] == s.popped[i].entry;
    }
  }

  // A rejected or throwing submission never has its callback taken.
  lemma RefusedNeverDelivered(actions: seq<Action>, i: nat)
    requires i < |Run(START, actions).popped|
    ensures Run(START, actions).popped[i].entry.id !in Run(START, actions).refused
  {
    hide Run, Increasing, Below, Seen, CalledInOrder;
    Reached(actions);
    var s := Run(START, actions);
    assert HandedIn(s)[i] == s.accepted[i] == s.popped[i].entry;
  }

  lemma IncreasingRest(es: seq<Entry>, k: nat)
    requires k <= |es| && Increasing(es)
    ensures Increasing(es[k..])
  {
  }

  // Whenever the lock is free, every queued point is set and points strictly increase along the queue.
  lemma FreeQueueIncreases(actions: seq<Action>)
    requires Run(START, actions).lock == Free
    ensures Increasing(Run(START, actions).pending)
  {
    hide Run, Increasing, Known, Below, Seen, CalledInOrder;
    Reached(actions);
    var s := Run(START, actions);
    assert s.pending == s.accepted[|s.popped|..];
    IncreasingRest(s.accepted, |s.popped|);
  }

  // Invocations end in submission order, one at a time, each callback at most once.
  lemma CalledInSubmissionOrder(actions: seq<Action>, i: nat)
    requires i < |Run(START, actions).called|
    ensures i < |Run(START, actions).accepted| && Run(START, actions).called[i] == Run(START, actions).accepted[i].id
    ensures |Run(START, actions).called| <= |Run(START, actions).popped| <= |Run(START, actions).called| + 1
  {
    Reached(actions);
    var s := Run(START, actions);
    assert s.accepted[i] == s.popped[i].entry;
  }

  // Once stopping is set it stays set, no further callback is taken and no further submission is accepted.
  lemma {:induction false} StoppingEndsDelivery(actions: seq<Action>, more: seq<Action>)
    requires Run(START, actions).stopping
    ensures var s, s' := Run(START, actions), Run(Run(START, actions), more);
            && s'.stopping && s'.popped == s.popped && s'.pending == s.pending
            && s'.accepted == s.accepted && s'.refused == s.refused && s'.value == s.value && s'.nextId == s.nextId
  {
    Reached(actions);
    StoppedStays(Run(START, actions), more);
  }

  lemma StoppedOnce(s: State, a: Action)
    requires s.stopping && s.lock == Free && s.worker != Checking
    ensures Stopped(s, Act(s, a))
  {
  }

  // What stays from the stop on.
  ghost predicate Stopped(s: State, s': State) {
    && s'.stopping && s'.popped == s.popped && s'.pending == s.pending
    && s'.accepted == s.accepted && s'.refused == s.refused && s'.value == s.value && s'.nextId == s.nextId
    && (s.worker == Gone ==> s'.worker == Gone && s'.called == s.called)
  }

  lemma {:induction false} StoppedStays(s: State, more: seq<Action>)
    requires Inv(s) && s.stopping
    ensures Stopped(s, Run(s, more))
    decreases |more|
  {
    hide Act, Increasing, Known, Below, Seen, CalledInOrder, Entries;
    if more != [] {
      ActKeeps(s, more[0]);
      StoppedOnce(s, more[0]);
      StoppedStays(Act(s, more[0]), more[1..]);
    }
  }

  // Delivery stops exactly when the fence is destroyed or a failed query is recorded, both under the lock.
  lemma StopsExactly(s: State, a: Action)
    requires !s.stopping
    ensures Act(s, a).stopping <==> s.lock == Free && (a == Destroy || (a == RecordFailure && s.worker == Failing))
    ensures Act(s, a).stopping ==> Act(s, a).accepted == s.accepted && Act(s, a).popped == s.popped
  {
  }

  // A stopped worker ends the callback it is in, leaves, and has called everything it took; it never comes back.
  lemma StoppedWorkerLeaves(s: State, more: seq<Action>)
    requires Inv(s) && s.stopping
    ensures var s' := Run(s, [CallbackEnds, RecordFailure, Wake]);
            && s'.worker == Gone && |s'.called| == |s.popped|
            && (forall i :: 0 <= i < |s.popped| ==> s'.called[i] == s.popped[i].entry.id)
            && Run(s', more).worker == Gone && Run(s', more).called == s'.called
  {
    hide Increasing, Known, Below, Seen, Entries, Act;
    var s1 := Act(s, CallbackEnds);
    var s2 := Act(s1, RecordFailure);
    var s3 := Act(s2, Wake);
    ActKeeps(s, CallbackEnds);
    ActKeeps(s1, RecordFailure);
    ActKeeps(s2, Wake);
    LeavesInThree(s);
    RunFirst(s, CallbackEnds, [RecordFailure, Wake]);
    RunFirst(s1, RecordFailure, [Wake]);
    RunFirst(s2, Wake, []);
    assert [CallbackEnds, RecordFailure, Wake] == [CallbackEnds] + [RecordFailure, Wake];
    assert [RecordFailure, Wake] == [RecordFailure] + [Wake] && [Wake] == [Wake] + [];
    StoppedStays(s3, more);
  }

  lemma LeavesInThree(s: State)
    requires Inv(s) && s.stopping
    ensures var s' := Act(Act(Act(s, CallbackEnds), RecordFailure), Wake);
            s'.worker == Gone && s'.stopping && s'.popped == s.popped
  {
    hide Increasing, Known, Below, Seen, Entries, CalledInOrder;
  }

  // What the worker does undisturbed for each queued callback once the backend shows `completed`.
  function Rounds(n: nat, completed: nat): seq<Action> {
    if n == 0 then [] else [Wake, Observe(completed), CallbackEnds] + Rounds(n - 1, completed)
  }

  lemma RunFirst(s: State, a: Action, rest: seq<Action>)
    ensures Run(s, [a] + rest) == Run(Act(s, a), rest)
  {
    hide Act;
    assert ([a] + rest)[1..] == rest;
  }

  // The three steps take the callback at the front of the queue and call it.
  lemma RoundActs(s: State, completed: nat)
    requires Inv(s) && s.lock == Free && !s.stopping && s.worker == Waiting
    requires s.pending != [] && s.pending[0].value <= completed
    ensures var s' := Act(Act(Act(s, Wake), Observe(completed)), CallbackEnds);
            && s'.lock == Free && !s'.stopping && s'.worker == Waiting
            && s'.pending == s.pending[1..] && s'.accepted == s.accepted
  {
    hide Increasing, Known, Below, Seen, CalledInOrder, Entries;
  }

  // One round calls the callback at the front of the queue.
  lemma RoundCallsFront(s: State, completed: nat, rest: seq<Action>) returns (s': State)
    requires Inv(s) && s.lock == Free && !s.stopping && s.worker == Waiting
    requires s.pending != [] && s.pending[0].value <= completed
    ensures Run(s, [Wake, Observe(completed), CallbackEnds] + rest) == Run(s', rest)
    ensures Inv(s') && s'.lock == Free && !s'.stopping && s'.worker == Waiting
    ensures s'.pending == s.pending[1..] && s'.accepted == s.accepted
  {
    hide Run, Inv, Act;
    var s1 := Act(s, Wake);
    var s2 := Act(s1, Observe(completed));
    s' := Act(s2, CallbackEnds);
    ActKeeps(s, Wake);
    ActKeeps(s1, Observe(completed));
    ActKeeps(s2, CallbackEnds);
    RoundActs(s, completed);
    RunFirst(s, Wake, [Observe(completed), CallbackEnds] + rest);
    RunFirst(s1, Observe(completed), [CallbackEnds] + rest);
    RunFirst(s2, CallbackEnds, rest);
    assert [Wake, Observe(completed), CallbackEnds] + rest == [Wake] + ([Observe(completed), CallbackEnds] + rest);
    assert [Observe(completed), CallbackEnds] + rest == [Observe(completed)] + ([CallbackEnds] + rest);
  }

  // No accepted callback is stuck: unless delivery is stopped, a worker that sees the last accepted
  // point completed ends up having called every accepted callback, in order.
  lemma {:induction false} QueueDrains(s: State, completed: nat)
    requires Inv(s) && s.lock == Free && !s.stopping && s.worker == Waiting
    requires forall e <- s.pending :: e.value <= completed
    ensures var s' := Run(s, Rounds(|s.pending|, completed));
            && s'.pending == [] && s'.accepted == s.accepted && |s'.called| == |s.accepted|
            && forall i :: 0 <= i < |s.accepted| ==> s'.called[i] == s.accepted[i].id
    decreases |s.pending|
  {
    if s.pending != [] {
      var s' := RoundCallsFront(s, completed, Rounds(|s.pending| - 1, completed));
      QueueDrains(s', completed);
    } else {
      forall i | 0 <= i < |s.accepted| ensures s.called[i] == s.accepted[i].id {
        assert s.accepted[i] == s.popped[i].entry;
      }
    }
  }
}
