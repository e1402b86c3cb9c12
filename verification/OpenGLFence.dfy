// OpenGLFence: a producer that inserts sync objects into its context, a worker with a context of its own
// that waits for and deletes them, and the destructor, interleaving at every lock and driver call.
// A section under the fence's mutex is one step; nothing in it can be interrupted by the other threads.
module OpenGLFence {

  const MAX_UINT64: nat := 0xFFFF_FFFF_FFFF_FFFF

  // Sync objects are numbered in the order in which the producer context creates them.
  datatype Pending = Pending(sync: nat, value: nat)

  // QueueFence: outside, past the first check, past the ready check, with a sync it has not handed over,
  // and with one handed over but `value` not yet raised.
  datatype Producer = Outside | NotStopped | Ready | Made(sync: nat) | Pushed

  datatype Worker =
    | Starting
    | Waiting
    | Holding(registration: Pending)   // about to look at `stopping`
    | Polling(registration: Pending)   // inside glClientWaitSync
    | Releasing(registration: Pending) // about to delete the sync
    | Exited

  datatype WaitResult = Signaled | TimeoutExpired | WaitFailed

  datatype State = State(
    producer: Producer,
    worker: Worker,
    pending: seq<Pending>,
    ready: bool,
    failed: bool,
    stopping: bool,
    value: nat,
    completed: nat,
    signaled: nat,             // syncs the GPU has passed; a context passes its syncs in order
    deletions: seq<nat>,       // for every sync ever created, how often it was deleted
    accepted: seq<Pending>     // registrations handed to the worker
  )

  datatype Action =
    | GpuStep
    | BindWorker(ok: bool)
    | EnterQueueFence
    | CheckReady
    | CreateSync(contextCurrent: bool, created: bool)
    | HandOver(outOfMemory: bool)
    | RaiseValue
    | TakePending
    | LookAtStopping
    | WaitReturns(result: WaitResult)
    | DeleteSync
    | Destroy

  function Delete(s: State, sync: nat): State {
    if sync < |s.deletions| then s.(deletions := s.deletions[sync := s.deletions[sync] + 1]) else s
  }

  function MakeSync(s: State, contextCurrent: bool, created: bool): State {
    if s.producer != Ready then s
    else if !contextCurrent || !created then s.(producer := Outside)
    else s.(producer := Made(|s.deletions|), deletions := s.deletions + [0])
  }

  function Push(s: State, outOfMemory: bool): State {
    if !s.producer.Made? then s
    else if s.stopping || outOfMemory then Delete(s, s.producer.sync).(producer := Outside)
    else
      var registration := Pending(s.producer.sync, s.value + 1);
      s.(pending := s.pending + [registration], accepted := s.accepted + [registration], producer := Pushed)
  }

  function Take(s: State): State {
    if s.worker != Waiting then s
    else if s.pending != [] then s.(worker := Holding(s.pending[0]), pending := s.pending[1..])
    else if s.stopping then s.(worker := Exited)
    else s
  }

  // The driver reports a sync as signaled only after the GPU has passed it.
  function AfterWait(s: State, result: WaitResult): State {
    if !s.worker.Polling? then s
    else
      match result
      case Signaled =>
        if s.worker.registration.sync < s.signaled
        then s.(completed := s.worker.registration.value, worker := Releasing(s.worker.registration))
        else s
      case TimeoutExpired => s.(worker := Holding(s.worker.registration))
      case WaitFailed => s.(failed := true, stopping := true, worker := Releasing(s.worker.registration))
  }

  // One step; an action that its thread cannot take leaves the state unchanged.
  function Act(s: State, a: Action): State {
    match a
    case GpuStep => if s.signaled < |s.deletions| then s.(signaled := s.signaled + 1) else s
    case BindWorker(ok) =>
      if s.worker != Starting then s
      else if ok then s.(worker := Waiting, ready := true)
      else s.(worker := Exited, failed := true, stopping := true)
    case EnterQueueFence =>
      if s.producer != Outside || s.stopping || s.value >= MAX_UINT64 - 1 then s else s.(producer := NotStopped)
    case CheckReady =>
      if s.producer != NotStopped then s else s.(producer := if s.ready then Ready else Outside)
    case CreateSync(contextCurrent, created) => MakeSync(s, contextCurrent, created)
    case HandOver(outOfMemory) => Push(s, outOfMemory)
    case RaiseValue => if s.producer != Pushed then s else s.(value := s.value + 1, producer := Outside)
    case TakePending => Take(s)
    case LookAtStopping =>
      if !s.worker.Holding? then s
      else if s.stopping then s.(worker := Releasing(s.worker.registration))
      else s.(worker := Polling(s.worker.registration))
    case WaitReturns(result) => AfterWait(s, result)
    case DeleteSync =>
      if !s.worker.Releasing? then s else Delete(s, s.worker.registration.sync).(worker := Waiting)
    case Destroy => s.(stopping := true)
  }

  function Run(s: State, actions: seq<Action>): State
    decreases |actions|
  {
    if actions == [] then s else Run(Act(s, actions[0]), actions[1..])
  }

  const START := State(Outside, Starting, [], false, false, false, 0, 0, 0, [], [])

  // ---- What every state satisfies ----

  predicate Holds(w: Worker) {
    w.Holding? || w.Polling? || w.Releasing?
  }

  function Taken(s: State): int {
    |s.accepted| - |s.pending|
  }

  // A sync somebody still has to delete: the producer, the queue or the worker.
  ghost predicate Live(s: State, sync: nat) {
    || (s.producer.Made? && s.producer.sync == sync)
    || (Holds(s.worker) && s.worker.registration.sync == sync)
    || Queued(s.pending, sync)
  }

  ghost predicate Queued(pending: seq<Pending>, sync: nat) {
    exists i :: 0 <= i < |pending| && pending[i].sync == sync
  }

  // Points are 1, 2, 3, ... and their syncs come in the order of creation.
  ghost predicate Numbered(accepted: seq<Pending>, bound: nat) {
    && (forall i :: 0 <= i < |accepted| ==> accepted[i].value == i + 1 && accepted[i].sync < bound)
    && (forall i, j :: 0 <= i < j < |accepted| ==> accepted[i].sync < accepted[j].sync)
  }

  ghost predicate DeletedOnce(s: State) {
    forall sync: nat :: sync < |s.deletions| ==> s.deletions[sync] == if Live(s, sync) then 0 else 1
  }

  ghost predicate IsRest(pending: seq<Pending>, accepted: seq<Pending>)
    requires |pending| <= |accepted|
  {
    pending == accepted[|accepted| - |pending|..]
  }

  ghost predicate WorkerOk(s: State) {
    && 0 <= Taken(s)
    && IsRest(s.pending, s.accepted)
    && (Holds(s.worker) ==> 0 < Taken(s) && s.worker.registration == s.accepted[Taken(s) - 1])
    && (s.worker.Holding? || s.worker.Polling? ==> s.completed < Taken(s))
    && (s.worker == Starting ==> !s.ready)
    && (s.worker == Exited ==> s.stopping && s.pending == [])
  }

  ghost predicate CompletedOk(s: State) {
    && s.completed <= Taken(s)
    && (!s.stopping && (s.worker == Starting || s.worker == Waiting || s.worker.Releasing?) ==>
          s.completed == Taken(s))
    && (s.completed > 0 ==> s.accepted[s.completed - 1].sync < s.signaled)
    && s.signaled <= |s.deletions|
  }

  ghost predicate ProducerOk(s: State) {
    && (s.producer.Made? ==> s.producer.sync + 1 == |s.deletions|)
    && |s.accepted| == s.value + (if s.producer == Pushed then 1 else 0)
    && (!s.ready ==> s.deletions == [] && s.accepted == [] && !s.producer.Ready? && !s.producer.Made?)
    && s.value < MAX_UINT64 && (!s.producer.Outside? ==> s.value < MAX_UINT64 - 1)
  }

  // The syncs handed over are older than the one the producer is working on.
  function Handed(s: State): nat {
    if s.producer.Made? then s.producer.sync else |s.deletions|
  }

  ghost predicate Inv(s: State) {
    WorkerOk(s) && CompletedOk(s) && ProducerOk(s) && Numbered(s.accepted, Handed(s)) && DeletedOnce(s)
  }

  lemma QueuedLast(pending: seq<Pending>, r: Pending, sync: nat)
    ensures Queued(pending + [r], sync) <==> Queued(pending, sync) || r.sync == sync
  {
    if Queued(pending, sync) {
      var i :| 0 <= i < |pending| && pending[i].sync == sync;
      assert (pending + [r])[i].sync == sync;
    }
    assert (pending + [r])[|pending|] == r;
  }

  lemma QueuedFirst(pending: seq<Pending>, sync: nat)
    requires pending != []
    ensures Queued(pending, sync) <==> pending[0].sync == sync || Queued(pending[1..], sync)
  {
    if Queued(pending[1..], sync) {
      var i :| 0 <= i < |pending[1..]| && pending[1..][i].sync == sync;
      assert pending[i + 1].sync == sync;
    }
    if Queued(pending, sync) && pending[0].sync != sync {
      var i :| 0 <= i < |pending| && pending[i].sync == sync;
      assert pending[1..][i - 1].sync == sync;
    }
  }

  // Queued syncs are older than `bound`, and newer than the one the worker holds.
  lemma QueuedOrder(s: State, sync: nat)
    requires WorkerOk(s) && Numbered(s.accepted, Handed(s)) && Queued(s.pending, sync)
    ensures sync < Handed(s)
    ensures Holds(s.worker) ==> s.worker.registration.sync < sync
  {
    var i :| 0 <= i < |s.pending| && s.pending[i].sync == sync;
    assert s.accepted[Taken(s) + i] == s.pending[i];
  }

  lemma MakeSyncKeeps(s: State, contextCurrent: bool, created: bool)
    requires Inv(s)
    ensures Inv(MakeSync(s, contextCurrent, created))
  {
    hide Queued, IsRest;
    var s' := MakeSync(s, contextCurrent, created);
    forall sync: nat | sync < |s'.deletions| ensures s'.deletions[sync] == if Live(s', sync) then 0 else 1 {
      if sync < |s.deletions| { assert Live(s', sync) == Live(s, sync); }
    }
  }

  lemma PushKeepsDeleted(s: State, outOfMemory: bool)
    requires Inv(s)
    ensures DeletedOnce(Push(s, outOfMemory))
  {
    hide Queued, CompletedOk, IsRest;
    var s' := Push(s, outOfMemory);
    if s.producer.Made? {
      var mine := s.producer.sync;
      if Queued(s.pending, mine) { QueuedOrder(s, mine); }
      forall sync: nat | sync < |s'.deletions| ensures s'.deletions[sync] == if Live(s', sync) then 0 else 1 {
        QueuedLast(s.pending, Pending(mine, s.value + 1), sync);
        assert Live(s', sync) == (if s'.producer == Pushed then Live(s, sync) else Live(s, sync) && sync != mine);
      }
    }
  }

  lemma PushKeepsWorker(s: State, outOfMemory: bool)
    requires WorkerOk(s)
    ensures WorkerOk(Push(s, outOfMemory)) && Taken(Push(s, outOfMemory)) == Taken(s)
  {
    hide IsRest;
    if s.producer.Made? && !s.stopping && !outOfMemory {
      RestGrows(s.pending, s.accepted, Pending(s.producer.sync, s.value + 1));
    }
  }

  lemma RestGrows(pending: seq<Pending>, accepted: seq<Pending>, r: Pending)
    requires |pending| <= |accepted| && IsRest(pending, accepted)
    ensures IsRest(pending + [r], accepted + [r])
  {
    var k := |accepted| - |pending|;
    assert (accepted + [r])[k..] == accepted[k..] + [r];
  }

  lemma RestShrinks(pending: seq<Pending>, accepted: seq<Pending>)
    requires 0 < |pending| <= |accepted| && IsRest(pending, accepted)
    ensures IsRest(pending[1..], accepted) && pending[0] == accepted[|accepted| - |pending|]
  {
  }

  lemma PushKeepsNumbered(s: State, outOfMemory: bool)
    requires Numbered(s.accepted, Handed(s)) && ProducerOk(s)
    ensures Numbered(Push(s, outOfMemory).accepted, Handed(Push(s, outOfMemory)))
  {
  }

  lemma PushKeepsCounts(s: State, outOfMemory: bool)
    requires ProducerOk(s)
    ensures ProducerOk(Push(s, outOfMemory))
  {
  }

  lemma PushKeepsCompleted(s: State, outOfMemory: bool)
    requires CompletedOk(s) && 0 <= Taken(s) == Taken(Push(s, outOfMemory)) <= |s.accepted|
    ensures CompletedOk(Push(s, outOfMemory))
  {
    hide Taken;
  }

  lemma PushKeeps(s: State, outOfMemory: bool)
    requires Inv(s)
    ensures Inv(Push(s, outOfMemory))
  {
    PushKeepsDeleted(s, outOfMemory);
    PushKeepsWorker(s, outOfMemory);
    PushKeepsNumbered(s, outOfMemory);
    PushKeepsCounts(s, outOfMemory);
    PushKeepsCompleted(s, outOfMemory);
    hide Push, DeletedOnce, WorkerOk, Numbered, ProducerOk, CompletedOk;
  }

  lemma TakeKeeps(s: State)
    requires Inv(s)
    ensures Inv(Take(s))
  {
    hide Queued, IsRest;
    var s' := Take(s);
    if s.worker == Waiting && s.pending != [] {
      hide Numbered;
      RestShrinks(s.pending, s.accepted);
      forall sync: nat | sync < |s'.deletions| ensures s'.deletions[sync] == if Live(s', sync) then 0 else 1 {
        QueuedFirst(s.pending, sync);
        assert Live(s', sync) == Live(s, sync);
      }
    }
  }

  lemma AfterWaitKeeps(s: State, result: WaitResult)
    requires Inv(s)
    ensures Inv(AfterWait(s, result))
  {
    hide Queued, IsRest;
    var s' := AfterWait(s, result);
    forall sync: nat | sync < |s'.deletions| ensures s'.deletions[sync] == if Live(s', sync) then 0 else 1 {
      assert Live(s', sync) == Live(s, sync);
    }
  }

  lemma DeleteKeeps(s: State)
    requires Inv(s)
    ensures Inv(Act(s, DeleteSync))
  {
    hide Queued, IsRest;
    var s' := Act(s, DeleteSync);
    if s.worker.Releasing? {
      var mine := s.worker.registration.sync;
      if Queued(s.pending, mine) { QueuedOrder(s, mine); }
      forall sync: nat | sync < |s'.deletions| ensures s'.deletions[sync] == if Live(s', sync) then 0 else 1 {
        assert Live(s', sync) == (Live(s, sync) && sync != mine);
      }
    }
  }

  predicate TouchesNoSync(a: Action) {
    !a.CreateSync? && !a.HandOver? && !a.TakePending? && !a.WaitReturns? && !a.DeleteSync?
  }

  lemma OtherKeepsDeleted(s: State, a: Action)
    requires DeletedOnce(s) && TouchesNoSync(a)
    ensures DeletedOnce(Act(s, a))
  {
    hide Queued;
    var s' := Act(s, a);
    forall sync: nat | sync < |s'.deletions| ensures s'.deletions[sync] == if Live(s', sync) then 0 else 1 {
      assert Live(s', sync) == Live(s, sync);
    }
  }

  lemma OtherKeepsTaken(s: State, a: Action)
    requires TouchesNoSync(a)
    ensures Act(s, a).accepted == s.accepted && Act(s, a).pending == s.pending && Taken(Act(s, a)) == Taken(s)
  {
    hide MakeSync, Push, Take, AfterWait, Delete;
  }

  lemma OtherMovesWorker(s: State, a: Action)
    requires TouchesNoSync(a) && (s.worker == Starting ==> !s.ready)
    ensures var s' := Act(s, a);
            && s'.completed == s.completed && (s.stopping ==> s'.stopping)
            && (Holds(s'.worker) ==> Holds(s.worker) && s'.worker.registration == s.worker.registration)
            && (s'.worker.Holding? || s'.worker.Polling? ==> s.worker.Holding? || s.worker.Polling?)
            && (s'.worker == Starting ==> s.worker == Starting && !s'.ready)
            && (s'.worker == Exited && s.worker != Exited ==> s.worker == Starting && s'.stopping)
  {
    hide MakeSync, Push, Take, AfterWait, Delete;
  }

  lemma NothingQueued(s: State)
    requires WorkerOk(s) && s.accepted == []
    ensures s.pending == []
  {
  }

  lemma OtherKeepsWorker(s: State, a: Action)
    requires WorkerOk(s) && TouchesNoSync(a)
    requires s.worker == Starting ==> s.accepted == []
    ensures WorkerOk(Act(s, a))
  {
    hide Act, Taken, IsRest;
    if s.accepted == [] { NothingQueued(s); }
    OtherKeepsTaken(s, a);
    OtherMovesWorker(s, a);
  }

  lemma OtherKeepsProducer(s: State, a: Action)
    requires ProducerOk(s) && TouchesNoSync(a)
    requires s.worker == Starting ==> !s.ready
    ensures ProducerOk(Act(s, a)) && Handed(Act(s, a)) == Handed(s)
  {
    hide MakeSync, Push, Take, AfterWait, Delete;
  }

  lemma OtherKeepsCompleted(s: State, a: Action)
    requires CompletedOk(s) && TouchesNoSync(a)
    ensures CompletedOk(Act(s, a)) && Act(s, a).accepted == s.accepted
  {
    hide MakeSync, Push, Take, AfterWait, Delete, Taken;
    OtherKeepsTaken(s, a);
  }

  lemma OtherKeeps(s: State, a: Action)
    requires Inv(s) && TouchesNoSync(a)
    ensures Inv(Act(s, a))
  {
    OtherKeepsDeleted(s, a);
    OtherKeepsWorker(s, a);
    OtherKeepsProducer(s, a);
    OtherKeepsCompleted(s, a);
    hide DeletedOnce, Numbered, Act, WorkerOk, ProducerOk, CompletedOk, Handed;
  }

  lemma ActKeeps(s: State, a: Action)
    requires Inv(s)
    ensures Inv(Act(s, a))
  {
    hide Inv;
    match a
    case CreateSync(contextCurrent, created) => MakeSyncKeeps(s, contextCurrent, created);
    case HandOver(outOfMemory) => PushKeeps(s, outOfMemory);
    case TakePending => TakeKeeps(s);
    case WaitReturns(result) => AfterWaitKeeps(s, result);
    case DeleteSync => DeleteKeeps(s);
    case _ => OtherKeeps(s, a);
  }

  lemma {:induction false} RunKeeps(s: State, actions: seq<Action>)
    requires Inv(s)
    ensures Inv(Run(s, actions))
    decreases |actions|
  {
    hide Inv, Act;
    if actions != [] {
      ActKeeps(s, actions[0]);
      RunKeeps(Act(s, actions[0]), actions[1..]);
    }
  }

  lemma Reached(actions: seq<Action>)
    ensures Inv(Run(START, actions))
  {
    RunKeeps(START, actions);
  }

  // ---- What every interleaving guarantees ----

  // No sync is ever deleted twice, and one that was deleted is not needed any more.
  lemma NeverDeletedTwice(actions: seq<Action>, sync: nat)
    requires sync < |Run(START, actions).deletions|
    ensures Run(START, actions).deletions[sync] == if Live(Run(START, actions), sync) then 0 else 1
  {
    hide Run, Act, IsRest;
    Reached(actions);
  }

  // When the worker has gone and QueueFence is not under way, every sync was deleted exactly once.
  lemma AllDeletedAtExit(actions: seq<Action>)
    requires Run(START, actions).worker == Exited && !Run(START, actions).producer.Made?
    ensures forall n <- Run(START, actions).deletions :: n == 1
  {
    hide Run, Act, Numbered, CompletedOk, ProducerOk;
    Reached(actions);
    var s := Run(START, actions);
    forall sync: nat | sync < |s.deletions| ensures s.deletions[sync] == 1 {
      assert !Queued(s.pending, sync);
    }
  }

  // The GPU has passed the sync of every point up to the completed value.
  lemma CompletedPointsArePassed(actions: seq<Action>, point: nat)
    requires 0 < point <= Run(START, actions).completed
    ensures var s := Run(START, actions);
            && point <= |s.accepted| && s.accepted[point - 1].value == point && s.accepted[point - 1].sync < s.signaled
  {
    hide Run, Act, DeletedOnce, ProducerOk, IsRest;
    Reached(actions);
  }

  lemma WaitMovesForward(s: State, result: WaitResult)
    requires Inv(s)
    ensures s.completed <= AfterWait(s, result).completed
  {
    hide DeletedOnce, ProducerOk, Handed, IsRest;
  }

  lemma PushMovesForward(s: State, outOfMemory: bool)
    ensures var s' := Push(s, outOfMemory);
            && s.accepted <= s'.accepted && s'.completed == s.completed && s'.worker == s.worker
            && s'.stopping == s.stopping && (s.stopping ==> s'.accepted == s.accepted)
  {
  }

  lemma ActMovesForward(s: State, a: Action)
    requires Inv(s)
    ensures s.completed <= Act(s, a).completed && s.accepted <= Act(s, a).accepted
    ensures s.stopping ==> Act(s, a).stopping && Act(s, a).accepted == s.accepted
    ensures s.stopping && !s.worker.Polling? ==> !Act(s, a).worker.Polling? && Act(s, a).completed == s.completed
  {
    hide Inv, Push;
    if a.WaitReturns? { WaitMovesForward(s, a.result); }
    if a.HandOver? { PushMovesForward(s, a.outOfMemory); }
  }

  // The completed value never falls and accepted points are never renumbered.
  lemma {:induction false} CompletedNeverFalls(s: State, more: seq<Action>)
    requires Inv(s)
    ensures s.completed <= Run(s, more).completed && s.accepted <= Run(s, more).accepted
    decreases |more|
  {
    hide Inv, Act;
    if more != [] {
      ActMovesForward(s, more[0]);
      ActKeeps(s, more[0]);
      CompletedNeverFalls(Act(s, more[0]), more[1..]);
    }
  }

  // After a stop no point is accepted; and unless the worker was inside a wait, none is completed either.
  lemma {:induction false} NothingAfterStop(s: State, more: seq<Action>)
    requires Inv(s) && s.stopping
    ensures Run(s, more).stopping && Run(s, more).accepted == s.accepted
    ensures !s.worker.Polling? ==> Run(s, more).completed == s.completed
    decreases |more|
  {
    hide Inv, Act;
    if more != [] {
      ActMovesForward(s, more[0]);
      ActKeeps(s, more[0]);
      NothingAfterStop(Act(s, more[0]), more[1..]);
    }
  }

  // No sync exists before the worker has a context to delete it in.
  lemma NothingBeforeReady(actions: seq<Action>)
    requires !Run(START, actions).ready
    ensures Run(START, actions).deletions == [] && Run(START, actions).accepted == []
  {
    hide Run, Act;
    Reached(actions);
  }

  // The point QueueFence returns is the number of registrations so far; the queue of an idle producer
  // can show at most that value.
  lemma PointsCountRegistrations(actions: seq<Action>)
    requires Run(START, actions).producer == Outside
    ensures Run(START, actions).value == |Run(START, actions).accepted|
    ensures Run(START, actions).completed <= Run(START, actions).value < MAX_UINT64
  {
    hide Run, Act;
    Reached(actions);
  }

  // ---- What is accepted, and that it completes ----

  lemma RunFirst(s: State, a: Action, rest: seq<Action>)
    ensures Run(s, [a] + rest) == Run(Act(s, a), rest)
  {
    hide Act;
    assert ([a] + rest)[1..] == rest;
  }

  lemma RunFour(s: State, a: Action, b: Action, c: Action, d: Action, rest: seq<Action>)
    ensures Run(s, [a, b, c, d] + rest) == Run(Act(Act(Act(Act(s, a), b), c), d), rest)
  {
    hide Act, Run;
    RunTwo(s, a, b, [c, d] + rest);
    RunTwo(Act(Act(s, a), b), c, d, rest);
    assert [a, b, c, d] + rest == [a, b] + ([c, d] + rest);
  }

  lemma RunTwo(s: State, a: Action, b: Action, rest: seq<Action>)
    ensures Run(s, [a, b] + rest) == Run(Act(Act(s, a), b), rest)
  {
    hide Act, Run;
    RunFirst(s, a, [b] + rest);
    RunFirst(Act(s, a), b, rest);
    assert [a, b] + rest == [a] + ([b] + rest);
  }

  // QueueFence, undisturbed.
  function Registering(contextCurrent: bool, created: bool, outOfMemory: bool): seq<Action> {
    [EnterQueueFence, CheckReady, CreateSync(contextCurrent, created), HandOver(outOfMemory)] + [RaiseValue]
  }

  // A call of QueueFence is accepted exactly if the fence is not stopping, below the largest values and ready, the
  // producer's context is current, and a sync object and a place for it can be had; then it gets the next point.
  lemma RegisteredExactly(s: State, contextCurrent: bool, created: bool, outOfMemory: bool)
    requires s.producer == Outside
    ensures var s' := Run(s, Registering(contextCurrent, created, outOfMemory));
            var accepted := !s.stopping && s.value < MAX_UINT64 - 1 && s.ready && contextCurrent && created
              && !outOfMemory;
            && s'.producer == Outside
            && s'.value == (if accepted then s.value + 1 else s.value)
            && s'.accepted == (if accepted then s.accepted + [Pending(|s.deletions|, s.value + 1)] else s.accepted)
            && s'.pending == (if accepted then s.pending + [Pending(|s.deletions|, s.value + 1)] else s.pending)
            && s'.completed == s.completed && s'.worker == s.worker && s'.stopping == s.stopping
  {
    hide Run, Act;
    RunFour(s, EnterQueueFence, CheckReady, CreateSync(contextCurrent, created), HandOver(outOfMemory), [RaiseValue]);
    var s1 := Act(Act(s, EnterQueueFence), CheckReady);
    var s2 := Act(Act(s1, CreateSync(contextCurrent, created)), HandOver(outOfMemory));
    CheckedExactly(s);
    HandedExactly(s1, contextCurrent, created, outOfMemory);
    RaisedExactly(s2);
    RunFirst(s2, RaiseValue, []);
    assert [RaiseValue] + [] == [RaiseValue];
    RunNothing(Act(s2, RaiseValue));
  }

  lemma CheckedExactly(s: State)
    requires s.producer == Outside
    ensures Act(Act(s, EnterQueueFence), CheckReady) ==
            if !s.stopping && s.value < MAX_UINT64 - 1 && s.ready then s.(producer := Ready) else s
  {
  }

  lemma HandedExactly(s: State, contextCurrent: bool, created: bool, outOfMemory: bool)
    requires s.producer == Outside || (s.producer == Ready && !s.stopping)
    ensures var s' := Act(Act(s, CreateSync(contextCurrent, created)), HandOver(outOfMemory));
            var r := Pending(|s.deletions|, s.value + 1);
            && s'.value == s.value && s'.completed == s.completed && s'.worker == s.worker && s'.stopping == s.stopping
            && if s.producer == Ready && contextCurrent && created && !outOfMemory
               then s'.producer == Pushed && s'.accepted == s.accepted + [r] && s'.pending == s.pending + [r]
               else s'.producer == Outside && s'.accepted == s.accepted && s'.pending == s.pending
  {
  }

  lemma RaisedExactly(s: State)
    ensures Act(s, RaiseValue) == if s.producer == Pushed then s.(value := s.value + 1, producer := Outside) else s
  {
  }

  lemma RunNothing(s: State)
    ensures Run(s, []) == s
  {
  }

  // What the worker does undisturbed for each registration whose sync the GPU has passed.
  function Rounds(n: nat): seq<Action> {
    if n == 0 then [] else [TakePending, LookAtStopping, WaitReturns(Signaled), DeleteSync] + Rounds(n - 1)
  }

  lemma RoundActs(s: State)
    requires s.worker == Waiting && !s.stopping && s.pending != [] && s.pending[0].sync < s.signaled
    ensures var s' := Act(Act(Act(Act(s, TakePending), LookAtStopping), WaitReturns(Signaled)), DeleteSync);
            && s'.worker == Waiting && !s'.stopping && s'.pending == s.pending[1..] && s'.accepted == s.accepted
            && s'.completed == s.pending[0].value && s'.signaled == s.signaled && s'.producer == s.producer
  {
    assert Act(s, TakePending) == s.(worker := Holding(s.pending[0]), pending := s.pending[1..]);
  }

  lemma RoundCompletes(s: State, rest: seq<Action>) returns (s': State)
    requires Inv(s) && s.worker == Waiting && !s.stopping && s.pending != [] && s.pending[0].sync < s.signaled
    ensures Run(s, [TakePending, LookAtStopping, WaitReturns(Signaled), DeleteSync] + rest) == Run(s', rest)
    ensures Inv(s') && s'.worker == Waiting && !s'.stopping && s'.pending == s.pending[1..]
    ensures s'.accepted == s.accepted && s'.signaled == s.signaled && s'.producer == s.producer
  {
    hide Inv, Act, Run;
    s' := Act(Act(Act(Act(s, TakePending), LookAtStopping), WaitReturns(Signaled)), DeleteSync);
    ActKeeps(s, TakePending);
    ActKeeps(Act(s, TakePending), LookAtStopping);
    ActKeeps(Act(Act(s, TakePending), LookAtStopping), WaitReturns(Signaled));
    ActKeeps(Act(Act(Act(s, TakePending), LookAtStopping), WaitReturns(Signaled)), DeleteSync);
    RoundActs(s);
    RunFour(s, TakePending, LookAtStopping, WaitReturns(Signaled), DeleteSync, rest);
  }

  // No accepted point is stuck: unless the fence is stopped, a worker whose syncs the GPU has passed ends up having
  // completed every accepted point and deleted every sync that was handed over.
  lemma {:induction false} FenceDrains(s: State)
    requires Inv(s) && s.worker == Waiting && !s.stopping
    requires forall r <- s.pending :: r.sync < s.signaled
    ensures var s' := Run(s, Rounds(|s.pending|));
            && s'.pending == [] && s'.accepted == s.accepted && s'.completed == |s.accepted|
            && AllDeleted(s.accepted, s'.deletions)
    decreases |s.pending|
  {
    hide Run, Act, Inv, AllDeleted;
    if s.pending != [] {
      var s' := RoundCompletes(s, Rounds(|s.pending| - 1));
      FenceDrains(s');
    } else {
      RunNothing(s);
      AllDone(s);
    }
  }

  // Every sync handed over was deleted, once.
  ghost predicate AllDeleted(accepted: seq<Pending>, deletions: seq<nat>) {
    forall i :: 0 <= i < |accepted| ==> accepted[i].sync < |deletions| && deletions[accepted[i].sync] == 1
  }

  lemma AllDone(s: State)
    requires Inv(s) && s.worker == Waiting && s.pending == []
    ensures AllDeleted(s.accepted, s.deletions) && (!s.stopping ==> s.completed == |s.accepted|)
  {
    hide IsRest;
    forall i | 0 <= i < |s.accepted|
      ensures s.accepted[i].sync < |s.deletions| && s.deletions[s.accepted[i].sync] == 1
    {
      assert s.accepted[i].sync < Handed(s);
      assert !Queued(s.pending, s.accepted[i].sync);
    }
  }

  // The worker is ready exactly if it could bind its context; otherwise the fence is stopped before anything happened.
  lemma StartsExactly(s: State, ok: bool)
    requires Inv(s) && s.worker == Starting
    ensures var s' := Act(s, BindWorker(ok));
            && (s'.ready <==> ok) && (s'.worker == Waiting <==> ok) && (s'.worker == Exited <==> !ok)
            && (s'.failed <==> s.failed || !ok) && (s'.stopping <==> s.stopping || !ok)
            && s'.deletions == [] && s'.accepted == [] && s'.completed == 0
  {
    hide DeletedOnce, IsRest, Numbered;
  }

  // A sync that signals after the last one published raises the completed value; a wait that fails stops the fence.
  lemma WaitEndsExactly(s: State, result: WaitResult)
    requires s.worker.Polling?
    ensures var s', r := Act(s, WaitReturns(result)), s.worker.registration;
            && (s'.completed == if result == Signaled && r.sync < s.signaled then r.value else s.completed)
            && (s'.stopping <==> s.stopping || result == WaitFailed)
            && (s'.worker.Releasing? <==> result == WaitFailed || (result == Signaled && r.sync < s.signaled))
  {
  }

  // What the worker does once the fence is stopped.
  function Drain(n: nat): seq<Action> {
    if n == 0 then [TakePending] else [TakePending, LookAtStopping, DeleteSync] + Drain(n - 1)
  }

  lemma DrainActs(s: State)
    requires s.worker == Waiting && s.stopping && s.pending != []
    ensures var s' := Act(Act(Act(s, TakePending), LookAtStopping), DeleteSync);
            && s'.worker == Waiting && s'.stopping && s'.pending == s.pending[1..] && s'.accepted == s.accepted
            && s'.completed == s.completed
  {
    assert Act(s, TakePending) == s.(worker := Holding(s.pending[0]), pending := s.pending[1..]);
  }

  lemma DrainOne(s: State, rest: seq<Action>) returns (s': State)
    requires Inv(s) && s.worker == Waiting && s.stopping && s.pending != []
    ensures Run(s, [TakePending, LookAtStopping, DeleteSync] + rest) == Run(s', rest)
    ensures Inv(s') && s'.worker == Waiting && s'.stopping && s'.pending == s.pending[1..]
    ensures s'.accepted == s.accepted && s'.completed == s.completed
  {
    hide Inv, Act, Run;
    var s1 := Act(s, TakePending);
    var s2 := Act(s1, LookAtStopping);
    s' := Act(s2, DeleteSync);
    ActKeeps(s, TakePending);
    ActKeeps(s1, LookAtStopping);
    ActKeeps(s2, DeleteSync);
    DrainActs(s);
    RunTwo(s, TakePending, LookAtStopping, [DeleteSync] + rest);
    RunFirst(s2, DeleteSync, rest);
    assert [TakePending, LookAtStopping, DeleteSync] + rest == [TakePending, LookAtStopping] + ([DeleteSync] + rest);
  }

  lemma NothingToTake(s: State)
    requires s.worker == Waiting && s.stopping && s.pending == []
    ensures Act(s, TakePending) == s.(worker := Exited)
  {
  }

  // A stopped fence is wound up: the worker deletes every sync handed over, publishes no completion, and leaves.
  lemma {:induction false} StoppedFenceDrains(s: State)
    requires Inv(s) && s.worker == Waiting && s.stopping
    ensures var s' := Run(s, Drain(|s.pending|));
            && s'.worker == Exited && s'.pending == [] && s'.accepted == s.accepted && s'.completed == s.completed
            && AllDeleted(s.accepted, s'.deletions)
    decreases |s.pending|
  {
    hide Run, Act, Inv, AllDeleted;
    if s.pending != [] {
      var s' := DrainOne(s, Drain(|s.pending| - 1));
      StoppedFenceDrains(s');
    } else {
      RunFirst(s, TakePending, []);
      assert [TakePending] + [] == [TakePending];
      RunNothing(Act(s, TakePending));
      NothingToTake(s);
      AllDone(s);
    }
  }
}
