// QueueSignal with callbacks on a real fence: the submission that holds the delivery lock signals the fence,
// and the worker sees what the fence reports.
module FenceDelivery {
  import C = CallbackDelivery
  import G = GpuQueues
  import K = KmtFence
  import S = SharedFence

  // A lost device shows the largest value for every shared fence, whatever has executed.
  datatype Fence = Joined(k: K.History) | Shared(kind: S.Kind, s: S.History, lost: bool)

  function Value(f: Fence): nat {
    match f
    case Joined(k) => k.kmt.primary.value
    case Shared(_, s, _) => s.state.value
  }

  // GetCompletedValue.
  function Shown(f: Fence): nat {
    match f
    case Joined(k) => K.Observed(k.kmt)
    case Shared(_, s, lost) => if lost then S.MAX_UINT64 else s.state.gpu.Completed(s.state.fence)
  }

  // The fence reports the value in GPU memory: the D3DKMT binding is valid, and the device is not lost.
  predicate Bound(f: Fence) {
    match f
    case Joined(k) => k.kmt.valid
    case Shared(_, _, lost) => !lost
  }

  ghost predicate FenceInv(f: Fence) {
    match f
    case Joined(k) => K.HistoryInv(k)
    case Shared(kind, s, _) => S.HistoryInv(kind, s)
  }

  ghost predicate New(f: Fence) {
    match f
    case Joined(k) => K.Fresh(k.kmt) && k.points == []
    case Shared(_, s, _) => S.Fresh(s.state) && s.points == []
  }

  ghost predicate IsPoint(f: Fence, v: nat) {
    match f
    case Joined(k) => exists i :: 0 <= i < |k.points| && k.points[i].value == v
    case Shared(_, s, _) => exists i :: 0 <= i < |s.points| && s.points[i].value == v
  }

  // The work that point v covers has executed, and so has the signal of v.
  ghost predicate WorkDone(f: Fence, v: nat) {
    match f
    case Joined(k) => exists i :: 0 <= i < |k.points| && k.points[i].value == v && K.Reached(k.kmt, k.points[i])
    case Shared(_, s, _) =>
      exists i :: 0 <= i < |s.points| && s.points[i].value == v && SharedReached(s.state, s.points[i])
  }

  ghost predicate SharedReached(s: S.State, pt: S.Point) {
    && G.Retired(s.gpu, pt.queue, pt.mark)
    && forall p: nat :: s.gpu.IsSignal(s.fence, pt.queue, p, pt.value) ==> s.gpu.Executed(pt.queue, p)
  }

  // The value in GPU memory.
  function Native(f: Fence): nat {
    match f
    case Joined(k) => k.kmt.gpu.Completed(k.kmt.primary.fence)
    case Shared(_, s, _) => s.state.gpu.Completed(s.state.fence)
  }

  // The signal of a submission: the fence afterwards, and the accepted point or 0.
  function Signalled(f: Fence, source: nat, script: seq<G.Turn>): (Fence, nat) {
    match f
    case Joined(k) =>
      var k' := K.Act(k, K.Automatic(script));
      (Joined(k'), if |k.points| < |k'.points| then k'.points[|k'.points| - 1].value else 0)
    case Shared(kind, s, lost) =>
      var s' := S.Act(kind, s, S.Queue(source, script));
      (Shared(kind, s', lost), if |s.points| < |s'.points| then s'.points[|s'.points| - 1].value else 0)
  }

  // What the submission hears of it.
  function Answer(f: Fence, completion: nat): C.Outcome {
    if completion <= Value(f) then C.Rejected else C.Accepted(completion - Value(f) - 1)
  }

  function HostStep(f: Fence, step: G.HostStep): Fence {
    match f
    case Joined(k) => Joined(K.Act(k, K.Host(step)))
    case Shared(kind, s, lost) => Shared(kind, S.Act(kind, s, S.Host(step)), lost)
  }

  function Unbound(f: Fence): Fence {
    match f
    case Joined(k) => Joined(K.Act(k, K.Invalidate))
    case Shared(kind, s, _) => Shared(kind, s, true)
  }

  datatype Action =
    | Host(step: G.HostStep)
    | Invalidate                                 // the binding goes away, or the device is lost
    | Submit(source: nat, script: seq<G.Turn>)   // the backend call of the submission that holds the lock
    | Look                                       // the worker reads the completed value
    | Delivery(a: C.Action)                      // any other step of submitters, worker and destructor

  datatype State = State(delivery: C.State, fence: Fence)

  predicate AtBackend(d: C.State) {
    d.lock.Submitting? && d.lock.progress == C.Reserved
  }

  predicate Free(a: C.Action) {
    !a.Observe? && (a.Backend? ==> a.outcome == C.Threw)
  }

  function Act(s: State, a: Action): State {
    match a
    case Host(step) => s.(fence := HostStep(s.fence, step))
    case Invalidate => s.(fence := Unbound(s.fence))
    case Submit(source, script) =>
      if !AtBackend(s.delivery) then s
      else
        var (fence, completion) := Signalled(s.fence, source, script);
        State(C.Act(s.delivery, C.Backend(Answer(s.fence, completion))), fence)
    case Look => s.(delivery := C.Act(s.delivery, C.Observe(Shown(s.fence))))
    case Delivery(a) => if Free(a) then s.(delivery := C.Act(s.delivery, a)) else s
  }

  function Run(s: State, actions: seq<Action>): State
    decreases |actions|
  {
    if actions == [] then s else Run(Act(s, actions[0]), actions[1..])
  }

  // ---- The fence is a backend of increasing points ----

  // An accepted submission gets the next point, which is the fence's value from then on; a refused one
  // leaves the value.
  lemma NextPoint(f: Fence, source: nat, script: seq<G.Turn>)
    requires FenceInv(f)
    ensures var (f', completion) := Signalled(f, source, script);
            && FenceInv(f')
            && (completion != 0 ==> completion == Value(f) + 1 == Value(f') && IsPoint(f', completion))
            && (completion == 0 ==> Value(f') == Value(f))
            && (forall v: nat :: IsPoint(f, v) ==> IsPoint(f', v))
            && (Bound(f') <==> Bound(f)) && (Bound(f) ==> Shown(f) <= Shown(f'))
  {
    match f
    case Joined(k) => JoinedNext(k, script);
    case Shared(kind, s, _) => SharedNext(kind, s, source, script);
  }

  lemma JoinedNext(k: K.History, script: seq<G.Turn>)
    requires K.HistoryInv(k)
    ensures var k' := K.Act(k, K.Automatic(script));
            && K.HistoryInv(k') && k.points <= k'.points && k'.kmt.valid == k.kmt.valid
            && k'.kmt.primary.fence == k.kmt.primary.fence
            && k.kmt.gpu.Completed(k.kmt.primary.fence) <= k'.kmt.gpu.Completed(k.kmt.primary.fence)
            && (|k.points| < |k'.points| ==>
                  k'.points[|k'.points| - 1].value == k.kmt.primary.value + 1 == k'.kmt.primary.value)
            && (|k.points| == |k'.points| ==> k'.kmt.primary.value == k.kmt.primary.value)
  {
    hide K.HistoryInv, K.KmtInv, K.Covered, K.AfterQueueFence, K.OnTimeline, K.Acceptable;
    K.ActKeeps(k, K.Automatic(script));
    var s := k.kmt.(script := script);
    InvKmt(k, script);
    K.QueueFenceCovers(s, s.primary.value + 1);
  }

  lemma InvKmt(k: K.History, script: seq<G.Turn>)
    requires K.HistoryInv(k)
    ensures K.KmtInv(k.kmt.(script := script))
  {
    K.ScriptKeeps(k.kmt, script);
  }

  lemma SharedNext(kind: S.Kind, s: S.History, source: nat, script: seq<G.Turn>)
    requires S.HistoryInv(kind, s)
    ensures var s' := S.Act(kind, s, S.Queue(source, script));
            && S.HistoryInv(kind, s') && s.points <= s'.points && s'.state.fence == s.state.fence
            && s.state.gpu.Completed(s.state.fence) <= s'.state.gpu.Completed(s.state.fence)
            && |s.points| == s.state.value && |s'.points| == s'.state.value <= s.state.value + 1
            && (|s.points| < |s'.points| ==> s'.points[|s'.points| - 1].value == s'.state.value)
  {
    hide S.StateInv, S.SignalledAfter, S.D3D12Queued, S.ReShadeQueued;
    S.ActKeeps(kind, s, S.Queue(source, script));
  }

  // ---- The delivery part of a run is a run of the delivery protocol ----

  function Projected(s: State, a: Action): seq<C.Action> {
    match a
    case Submit(source, script) =>
      if AtBackend(s.delivery) then [C.Backend(Answer(s.fence, Signalled(s.fence, source, script).1))] else []
    case Look => [C.Observe(Shown(s.fence))]
    case Delivery(a) => if Free(a) then [a] else []
    case _ => []
  }

  function ProjectedRun(s: State, actions: seq<Action>): seq<C.Action>
    decreases |actions|
  {
    if actions == [] then [] else Projected(s, actions[0]) + ProjectedRun(Act(s, actions[0]), actions[1..])
  }

  lemma ProjectedOne(s: State, a: Action)
    ensures C.Run(s.delivery, Projected(s, a)) == Act(s, a).delivery
  {
    hide C.Act, Signalled, Answer, HostStep, Shown;
    var cs := Projected(s, a);
    assert |cs| <= 1 && (cs != [] ==> cs[1..] == []);
  }

  lemma {:induction false} RunInTwo(d: C.State, a: seq<C.Action>, b: seq<C.Action>)
    ensures C.Run(d, a + b) == C.Run(C.Run(d, a), b)
    decreases |a|
  {
    hide C.Act;
    if a == [] {
      assert a + b == b;
    } else {
      assert (a + b)[1..] == a[1..] + b;
      RunInTwo(C.Act(d, a[0]), a[1..], b);
    }
  }

  // With a fence as its backend the protocol does nothing that it could not do anyway: the points that the
  // fence accepts are outcomes of the kind that the protocol takes for granted.
  lemma {:induction false} DeliveryIsProtocol(s: State, actions: seq<Action>)
    ensures C.Run(s.delivery, ProjectedRun(s, actions)) == Run(s, actions).delivery
    decreases |actions|
  {
    hide Act, Projected, C.Act;
    if actions != [] {
      ProjectedOne(s, actions[0]);
      RunInTwo(s.delivery, Projected(s, actions[0]), ProjectedRun(Act(s, actions[0]), actions[1..]));
      DeliveryIsProtocol(Act(s, actions[0]), actions[1..]);
    }
  }

  // ---- What every state satisfies ----

  ghost predicate Points(f: Fence, es: seq<C.Entry>) {
    forall i :: 0 <= i < |es| ==> IsPoint(f, es[i].value)
  }

  ghost predicate SeenBelow(ds: seq<C.Delivery>, shown: nat) {
    forall i :: 0 <= i < |ds| ==> ds[i].observed <= shown
  }

  ghost predicate Inv(s: State) {
    && C.Inv(s.delivery) && FenceInv(s.fence)
    && s.delivery.value == Value(s.fence)
    && Points(s.fence, s.delivery.accepted)
    && (C.InFlight(s.delivery) != 0 ==> IsPoint(s.fence, C.InFlight(s.delivery)))
    && (Bound(s.fence) ==> SeenBelow(s.delivery.popped, Shown(s.fence)))
  }

  // A step of the protocol without its backend and its observations.
  lemma OtherStep(d: C.State, a: C.Action)
    requires C.Inv(d) && Free(a)
    ensures var d' := C.Act(d, a);
            && d'.value == d.value && d'.popped == d.popped
            && (C.InFlight(d') == C.InFlight(d) || C.InFlight(d') == 0)
            && |d.accepted| <= |d'.accepted|
            && (forall i :: 0 <= i < |d.accepted| ==> d'.accepted[i] == d.accepted[i])
            && (forall i :: |d.accepted| <= i < |d'.accepted| ==> d'.accepted[i].value == C.InFlight(d) != 0)
  {
    hide C.Known, C.Increasing, C.Below, C.Seen, C.CalledInOrder, C.Entries, C.Committed, C.HandedIn;
  }

  lemma ObserveStep(d: C.State, completed: nat)
    requires C.Inv(d)
    ensures var d' := C.Act(d, C.Observe(completed));
            && d'.value == d.value && d'.accepted == d.accepted && C.InFlight(d') == C.InFlight(d)
            && |d.popped| <= |d'.popped| && d'.popped[..|d.popped|] == d.popped
            && (forall i :: |d.popped| <= i < |d'.popped| ==> d'.popped[i].observed == completed)
  {
    hide C.Known, C.Increasing, C.Below, C.Seen, C.CalledInOrder, C.Entries, C.Committed, C.HandedIn;
  }

  lemma BackendStep(d: C.State, f: Fence, completion: nat)
    requires AtBackend(d) && d.value == Value(f) && (completion != 0 ==> completion == Value(f) + 1)
    ensures var d' := C.Act(d, C.Backend(Answer(f, completion)));
            && d'.accepted == d.accepted && d'.popped == d.popped && C.InFlight(d') == completion
            && d'.value == if completion != 0 then completion else d.value
  {
  }

  lemma HostStepKeeps(f: Fence, step: G.HostStep)
    requires FenceInv(f)
    ensures var f' := HostStep(f, step);
            && FenceInv(f') && Value(f') == Value(f) && (Bound(f') <==> Bound(f))
            && (forall v: nat :: IsPoint(f, v) ==> IsPoint(f', v))
            && (Bound(f) ==> Shown(f) <= Shown(f'))
  {
    hide K.HistoryInv, S.HistoryInv;
    match f
    case Joined(k) => K.ActKeeps(k, K.Host(step));
    case Shared(kind, s, _) => S.ActKeeps(kind, s, S.Host(step));
  }

  lemma UnboundKeeps(f: Fence)
    requires FenceInv(f)
    ensures var f' := Unbound(f);
            && FenceInv(f') && Value(f') == Value(f) && !Bound(f')
            && (forall v: nat :: IsPoint(f, v) ==> IsPoint(f', v))
  {
    hide K.HistoryInv;
    if f.Joined? { K.ActKeeps(f.k, K.Invalidate); }
  }

  lemma ActKeeps(s: State, a: Action)
    requires Inv(s)
    ensures Inv(Act(s, a)) && (Bound(Act(s, a).fence) ==> Bound(s.fence))
  {
    hide C.Inv, FenceInv, IsPoint, C.Act, C.InFlight, Value, Shown, HostStep, Signalled, Unbound, Answer;
    match a
    case Host(step) => HostStepKeeps(s.fence, step);
    case Invalidate => UnboundKeeps(s.fence);
    case Submit(source, script) =>
      if AtBackend(s.delivery) {
        NextPoint(s.fence, source, script);
        var completion := Signalled(s.fence, source, script).1;
        BackendStep(s.delivery, s.fence, completion);
        C.ActKeeps(s.delivery, C.Backend(Answer(s.fence, completion)));
      }
    case Look =>
      ObserveStep(s.delivery, Shown(s.fence));
      C.ActKeeps(s.delivery, C.Observe(Shown(s.fence)));
      var d, d' := s.delivery, Act(s, a).delivery;
      forall i | 0 <= i < |d.popped| ensures d'.popped[i] == d.popped[i] {
        assert d'.popped[..|d.popped|][i] == d.popped[i];
      }
    case Delivery(a) =>
      if Free(a) {
        OtherStep(s.delivery, a);
        C.ActKeeps(s.delivery, a);
      }
  }

  lemma {:induction false} RunKeeps(s: State, actions: seq<Action>)
    requires Inv(s)
    ensures Inv(Run(s, actions))
    decreases |actions|
  {
    hide Inv, Act;
    if actions != [] {
      ActKeeps(s, actions[0]);
      RunKeeps(Act(s, actions[0]), actions[1..]);
    }
  }

  lemma FenceStarts(f: Fence)
    requires New(f)
    ensures FenceInv(f) && Value(f) == 0
  {
    hide K.HistoryInv;
    match f
    case Joined(k) =>
      K.FreshStarts(k.kmt);
      assert k == K.History(k.kmt, []) && K.Line(k.kmt, 0) == k.kmt.primary;
    case Shared(kind, s, _) =>
  }

  lemma Starts(f: Fence)
    requires New(f)
    ensures Inv(State(C.START, f))
  {
    hide FenceInv, New, Value;
    FenceStarts(f);
  }

  // ---- Callbacks run after the work they wait for ----

  lemma DoneIsShown(f: Fence, v: nat)
    requires FenceInv(f) && IsPoint(f, v)
    ensures WorkDone(f, v) <==> v <= Native(f)
  {
    hide K.KmtInv, K.Covered, K.Reached;
    match f
    case Joined(k) =>
      forall i | 0 <= i < |k.points| && k.points[i].value == v
        ensures K.Reached(k.kmt, k.points[i]) <==> v <= Native(f)
      {
        K.ReachedIsShown(k.kmt, k.points[i]);
      }
    case Shared(kind, s, _) =>
      forall i | 0 <= i < |s.points| && s.points[i].value == v
        ensures SharedReached(s.state, s.points[i]) <==> v <= Native(f)
      {
        SharedPointReached(s.state, s.points[i]);
      }
  }

  lemma SharedPointReached(s: S.State, pt: S.Point)
    requires S.StateInv(s) && S.SignalledAfter(s.gpu, s.fence, pt.queue, pt.mark, pt.value)
    ensures SharedReached(s, pt) <==> pt.value <= s.gpu.Completed(s.fence)
  {
    var p: nat :| pt.mark <= p && s.gpu.IsSignal(s.fence, pt.queue, p, pt.value);
    if pt.value <= s.gpu.Completed(s.fence) { G.ReachedMeansExecuted(s.gpu, s.fence, pt.queue, p, pt.value); }
  }

  // In every run of submitters, worker, destructor, GPU, drivers and other users of the queues: all work enqueued
  // before a submission has executed by the time that its callback is taken, if and only if the fence still reports
  // the value in GPU memory, or that value has come up to the point of the last callback taken.
  lemma CallbacksFollowWork(f: Fence, actions: seq<Action>)
    requires New(f)
    ensures var s := Run(State(C.START, f), actions);
            var popped := s.delivery.popped;
            (forall d <- popped :: WorkDone(s.fence, d.entry.value))
            <==> (Bound(s.fence) || popped == [] || popped[|popped| - 1].entry.value <= Native(s.fence))
  {
    hide Run, C.Run, Inv, WorkDone, Shown, New, ProjectedRun, Native, FenceInv, IsPoint, Bound;
    Starts(f);
    RunKeeps(State(C.START, f), actions);
    var s := Run(State(C.START, f), actions);
    PoppedPoints(s);
    PoppedSeen(f, actions);
    BoundShows(s.fence);
    var popped := s.delivery.popped;
    forall i | 0 <= i < |popped|
      ensures WorkDone(s.fence, popped[i].entry.value) <==> popped[i].entry.value <= Native(s.fence)
    {
      DoneIsShown(s.fence, popped[i].entry.value);
    }
  }

  lemma PoppedSeen(f: Fence, actions: seq<Action>)
    requires New(f)
    ensures var popped := Run(State(C.START, f), actions).delivery.popped;
            forall i :: 0 <= i < |popped| ==> popped[i].entry.value <= popped[i].observed
  {
    hide *;
    DeliveryIsProtocol(State(C.START, f), actions);
    C.DeliveredAfterCompletion(ProjectedRun(State(C.START, f), actions));
  }

  lemma BoundShows(f: Fence)
    ensures Bound(f) ==> Shown(f) == Native(f)
  {
  }

  // Callbacks taken belong to points of the fence, in increasing order.
  lemma PoppedPoints(s: State)
    requires Inv(s)
    ensures var popped := s.delivery.popped;
            && FenceInv(s.fence)
            && (Bound(s.fence) ==> SeenBelow(popped, Shown(s.fence)))
            && (forall i :: 0 <= i < |popped| ==> IsPoint(s.fence, popped[i].entry.value))
            && (forall i, j :: 0 <= i < j < |popped| ==> popped[i].entry.value < popped[j].entry.value)
  {
    hide FenceInv, IsPoint, Shown, C.Known, C.Below, C.Seen, C.CalledInOrder, C.Committed, C.HandedIn;
    var popped, accepted := s.delivery.popped, s.delivery.accepted;
    forall i | 0 <= i < |popped| ensures accepted[i] == popped[i].entry {
      assert accepted[i] == C.Entries(popped)[i];
    }
  }

  lemma RunFirst(s: State, a: Action, rest: seq<Action>)
    ensures Run(s, [a] + rest) == Run(Act(s, a), rest)
  {
    assert ([a] + rest)[1..] == rest;
  }

  // A submission with a callback, from its first check to the commit of its point, on a busy device.
  const SUBMITTING: seq<Action> :=
    [Delivery(C.Enter(0, true)), Delivery(C.Acquire(0)), Submit(0, [G.Turn([], true)]), Delivery(C.Finish)]

  const TAKING: seq<Action> := [Invalidate, Delivery(C.Wake), Look]

  const BUSY := State(C.START, Joined(K.History(K.BUSY, [])))

  const COMMITTED := State(
    C.START.(value := 1, nextId := 1, pending := [C.Entry(1, 0)], accepted := [C.Entry(1, 0)]), Joined(K.SIGNALLED))

  lemma RunTwo(s: State, a: Action, b: Action, rest: seq<Action>)
    ensures Run(s, [a, b] + rest) == Run(Act(Act(s, a), b), rest)
  {
    hide Act, Run;
    RunFirst(s, a, [b] + rest);
    RunFirst(Act(s, a), b, rest);
    assert [a, b] + rest == [a] + ([b] + rest);
  }

  const LOCKED := C.START.(lock := C.Submitting(0, true, C.Reserved), pending := [C.Entry(0, 0)], nextId := 1)

  lemma BusyLocks()
    ensures Act(Act(BUSY, SUBMITTING[0]), SUBMITTING[1]) == BUSY.(delivery := LOCKED)
  {
    hide K.Act;
    assert Act(BUSY, SUBMITTING[0]) == BUSY.(delivery := C.START.(entered := map[0 := true]));
  }

  const ANSWERED := LOCKED.(value := 1, lock := C.Submitting(0, true, C.Answered(1)))

  lemma BusyAnswered()
    ensures Act(BUSY.(delivery := LOCKED), SUBMITTING[2]) == State(ANSWERED, Joined(K.SIGNALLED))
  {
    hide K.Act, Run, C.Run;
    K.BusyIsSignalled();
  }

  lemma BusyFinished()
    ensures Act(State(ANSWERED, Joined(K.SIGNALLED)), SUBMITTING[3]) == COMMITTED
  {
    hide K.Act, Run, C.Run;
    var e := C.Entry(1, 0);
    assert C.Front(ANSWERED.pending) == [] && ANSWERED.accepted == [];
    assert [] + [e] == [e];
  }

  lemma BusyCommits()
    ensures Act(Act(BUSY.(delivery := LOCKED), SUBMITTING[2]), SUBMITTING[3]) == COMMITTED
  {
    BusyAnswered();
    BusyFinished();
  }

  lemma BusySubmits(rest: seq<Action>)
    ensures Run(BUSY, SUBMITTING + rest) == Run(COMMITTED, rest)
  {
    hide Act, Run;
    BusyLocks();
    BusyCommits();
    var a := SUBMITTING;
    RunTwo(BUSY, a[0], a[1], [a[2], a[3]] + rest);
    RunTwo(BUSY.(delivery := LOCKED), a[2], a[3], rest);
    assert a + rest == [a[0], a[1]] + ([a[2], a[3]] + rest);
  }

  // With the binding gone a callback may be taken before its work has executed: work, a submission with a
  // callback, and then the binding goes away before anything executes.
  lemma UnboundCallback()
    ensures New(BUSY.fence)
    ensures var s := Run(BUSY, SUBMITTING + TAKING);
            |s.delivery.popped| == 1 && !WorkDone(s.fence, s.delivery.popped[0].entry.value)
  {
    BusySubmits(TAKING);
    K.BusyIsSignalled();
    hide K.Act, K.Fresh, K.AllRetired, Run;
    var unbound := Joined(K.SIGNALLED.(kmt := K.SIGNALLED.kmt.(valid := false)));
    var s5 := COMMITTED.(fence := unbound);
    var s6 := s5.(delivery := s5.delivery.(worker := C.Checking, lock := C.Delivering));
    assert Act(COMMITTED, Invalidate) == s5 by { UnboundIs(); }
    assert Act(s5, TAKING[1]) == s6;
    var s7 := Act(s6, Look);
    assert s7.fence == unbound && s7.delivery.popped == [C.Delivered(C.Entry(1, 0), K.MAX_UINT64)];
    RunFirst(COMMITTED, TAKING[0], TAKING[1..]);
    RunFirst(s5, TAKING[1], TAKING[2..]);
    RunFirst(s6, TAKING[2], []);
    assert TAKING == [TAKING[0]] + TAKING[1..] && TAKING[1..] == [TAKING[1]] + TAKING[2..];
    assert TAKING[2..] == [TAKING[2]] + [];
    assert Run(s7, []) == s7 by { RunNothing(s7); }
  }

  lemma RunNothing(s: State)
    ensures Run(s, []) == s
  {
  }

  lemma UnboundIs()
    ensures Unbound(Joined(K.SIGNALLED)) == Joined(K.SIGNALLED.(kmt := K.SIGNALLED.kmt.(valid := false)))
  {
  }
}
