// Fences that many queues of one device may signal in turn: D3D12, where every signal waits for the
// previous one, and the ReShade (Vulkan) fence, where only a change of queue does.
module SharedFence {
  import opened GpuQueues

  const MAX_UINT64: nat := 0xFFFF_FFFF_FFFF_FFFF
  const NO_QUEUE: int := -1

  // `queue` is the queue of the latest ReShade submission.
  datatype State = State(gpu: Gpu, script: seq<Turn>, fence: nat, value: nat, queue: int) {
    function WithGpu(s: Submission): State {
      this.(gpu := s.gpu, script := s.script)
    }
  }

  function Call(s: State, q: nat, op: Op): (State, bool) {
    var call := Submit(s.gpu, s.script, {s.fence}, q, op);
    (s.WithGpu(call), call.ok)
  }

  // A signal of the next point, behind whatever the caller made the queue wait for.
  function SignalNext(s: State, q: nat): (State, nat) {
    var signalled := Call(s, q, Signal(s.fence, s.value + 1));
    if signalled.1 then (signalled.0.(value := s.value + 1), s.value + 1) else (signalled.0, 0)
  }

  // D3D12Fence::QueueFence.
  function D3D12Queued(s: State, source: nat): (State, nat) {
    if s.value >= MAX_UINT64 - 2 then (s, 0)
    else if s.value == 0 then SignalNext(s, source)
    else
      var waited := Call(s, source, Wait(s.fence, s.value));
      if waited.1 then SignalNext(waited.0, source) else (waited.0, 0)
  }

  // QueueSignal on a ReShade fence.
  function ReShadeQueued(s: State, source: nat): (State, nat) {
    var waited := if s.queue != source && s.value != 0 then Call(s, source, Wait(s.fence, s.value)) else (s, true);
    if !waited.1 then (waited.0, 0)
    else
      var s' := waited.0.(queue := source);
      if s'.value < MAX_UINT64 - 1 then SignalNext(s', source) else (s', 0)
  }

  // ---- What every state of a run satisfies ----

  // Queue q already stands behind every point accepted so far.
  ghost predicate CaughtUp(g: Gpu, fence: nat, value: nat, q: nat) {
    || value == 0
    || (exists i: nat :: g.IsWait(fence, q, i, value))
    || (exists i: nat :: g.IsSignal(fence, q, i, value))
  }

  ghost predicate StateInv(s: State) {
    && InOrder(s.gpu, s.fence)
    && (forall q: nat, p: nat, v: nat :: s.gpu.IsSignal(s.fence, q, p, v) ==> 0 < v <= s.value)
    && s.gpu.Completed(s.fence) <= s.value
    && (s.queue != NO_QUEUE ==> 0 <= s.queue && CaughtUp(s.gpu, s.fence, s.value, s.queue))
  }

  // The signal of v stands in queue q, after its first `mark` operations.
  ghost predicate SignalledAfter(g: Gpu, fence: nat, q: nat, mark: nat, v: nat) {
    exists p: nat :: mark <= p && g.IsSignal(fence, q, p, v)
  }

  lemma SignalledGrows(g: Gpu, g': Gpu, fence: nat, q: nat, mark: nat, v: nat)
    requires Extends(g, g') && SignalledAfter(g, fence, q, mark, v)
    ensures SignalledAfter(g', fence, q, mark, v)
    ensures forall low: nat :: low <= mark ==> SignalledAfter(g', fence, q, low, v)
  {
    var p: nat :| mark <= p && g.IsSignal(fence, q, p, v);
    ExtendsKeepsOps(g, g', fence, q, p, v);
  }

  ghost predicate Progress(s: State, s': State) {
    && Extends(s.gpu, s'.gpu) && s'.fence == s.fence && s.value <= s'.value
    && s.gpu.Completed(s.fence) <= s'.gpu.Completed(s.fence)
  }

  lemma ProgressTransitive(a: State, b: State, c: State)
    requires Progress(a, b) && Progress(b, c)
    ensures Progress(a, c)
  {
    ExtendsTransitive(a.gpu, b.gpu, c.gpu);
  }

  lemma CaughtUpGrows(g: Gpu, g': Gpu, fence: nat, value: nat, q: nat)
    requires Extends(g, g') && CaughtUp(g, fence, value, q)
    ensures CaughtUp(g', fence, value, q)
  {
    if value != 0 {
      var i: nat :| g.IsWait(fence, q, i, value) || g.IsSignal(fence, q, i, value);
      ExtendsKeepsOps(g, g', fence, q, i, value);
    }
  }

  lemma OtherKeeps(s: State, step: HostStep)
    requires StateInv(s)
    ensures var s' := s.(gpu := Other(s.gpu, step, {s.fence})); StateInv(s') && Progress(s, s')
  {
    var g, g' := s.gpu, Other(s.gpu, step, {s.fence});
    OtherKeepsOrder(g, step, {s.fence}, s.fence);
    if step.Run? && Ready(g, step.q) {
      var op := g.queues[step.q].log[g.queues[step.q].done];
      if op.Signal? && op.fence == s.fence { assert g.IsSignal(s.fence, step.q, g.queues[step.q].done, op.value); }
    }
    if s.queue >= 0 { CaughtUpGrows(g, g', s.fence, s.value, s.queue); }
  }

  lemma {:induction false} OthersKeep(s: State, steps: seq<HostStep>)
    requires StateInv(s)
    ensures var s' := s.(gpu := Others(s.gpu, steps, {s.fence})); StateInv(s') && Progress(s, s')
    decreases |steps|
  {
    hide StateInv, Other, Extends;
    if steps == [] {
      SelfExtends(s.gpu);
    } else {
      OtherKeeps(s, steps[0]);
      var s1 := s.(gpu := Other(s.gpu, steps[0], {s.fence}));
      OthersKeep(s1, steps[1..]);
      ProgressTransitive(s, s1, s.(gpu := Others(s.gpu, steps, {s.fence})));
    }
  }

  lemma SelfExtends(g: Gpu)
    ensures Extends(g, g)
  {
  }

  // A wait for the latest point: afterwards the queue stands behind it.
  lemma WaitKeeps(s: State, q: nat)
    requires StateInv(s) && q < |s.gpu.queues|
    ensures var r := Call(s, q, Wait(s.fence, s.value));
            && StateInv(r.0) && Progress(s, r.0) && r.0 == s.(gpu := r.0.gpu, script := r.0.script)
            && (r.1 ==> CaughtUp(r.0.gpu, s.fence, s.value, q))
  {
    if s.script == [] {
      SelfExtends(s.gpu);
    } else {
      OthersKeep(s, s.script[0].before);
      var s1 := s.(gpu := Others(s.gpu, s.script[0].before, {s.fence}));
      var op := Wait(s.fence, s.value);
      var g2 := Append(s1.gpu, q, op);
      AppendKeepsOrder(s1.gpu, s.fence, q, op);
      AppendKeepsSignals(s1.gpu, q, op, s.fence);
      AppendedOps(s1.gpu, q, op);
      assert g2.IsWait(s.fence, q, s1.gpu.Length(q), s.value);
      ExtendsTransitive(s.gpu, s1.gpu, g2);
      if s.queue >= 0 { CaughtUpGrows(s1.gpu, g2, s.fence, s.value, s.queue); }
    }
  }

  // A queue that has caught up may be signalled with the next value.
  lemma CaughtUpIsBehind(s: State, q: nat, q': nat, p': nat, v': nat)
    requires StateInv(s) && CaughtUp(s.gpu, s.fence, s.value, q) && s.gpu.IsSignal(s.fence, q', p', v')
    ensures Behind(s.gpu, s.fence, q', p', v', q, s.gpu.Length(q))
  {
    if i: nat :| s.gpu.IsWait(s.fence, q, i, s.value) {
      assert v' <= s.value;
    } else {
      var i: nat :| s.gpu.IsSignal(s.fence, q, i, s.value);
      if v' < s.value {
        assert Behind(s.gpu, s.fence, q', p', v', q, i);
        if !(q' == q && p' < i) {
          var j: nat, w: nat :| j < i && v' <= w && s.gpu.IsWait(s.fence, q, j, w);
          assert j < s.gpu.Length(q);
        }
      } else {
        assert s.gpu.IsSignal(s.fence, q', p', s.value);
      }
    }
  }

  lemma SignalKeeps(s: State, q: nat)
    requires StateInv(s) && q < |s.gpu.queues| && CaughtUp(s.gpu, s.fence, s.value, q)
    requires s.queue == NO_QUEUE || s.queue == q
    ensures var r := SignalNext(s, q);
            && StateInv(r.0) && Progress(s, r.0) && r.0.queue == s.queue
            && (if r.1 != 0
                then r.1 == r.0.value == s.value + 1
                     && SignalledAfter(r.0.gpu, s.fence, q, s.gpu.Length(q), r.1)
                else r.0.value == s.value)
  {
    hide InOrder, CaughtUp, SignalledAfter, Others, Append, Extends;
    if s.script == [] {
      SelfExtends(s.gpu);
    } else {
      OthersKeep(s, s.script[0].before);
      var s1 := s.(gpu := Others(s.gpu, s.script[0].before, {s.fence}));
      OthersSameQueues(s.gpu, s.script[0].before, {s.fence});
      CaughtUpGrows(s.gpu, s1.gpu, s.fence, s.value, q);
      if s.script[0].accepted { SignalAppended(s, s1, q); }
    }
  }

  lemma SignalAppended(s: State, s1: State, q: nat)
    requires StateInv(s1) && Progress(s, s1) && s1.value == s.value && q < |s1.gpu.queues|
    requires CaughtUp(s1.gpu, s.fence, s.value, q) && (s1.queue == NO_QUEUE || s1.queue == q)
    ensures var s2 := s1.(gpu := Append(s1.gpu, q, Signal(s.fence, s.value + 1)), value := s.value + 1);
            && StateInv(s2) && Progress(s, s2)
            && SignalledAfter(s2.gpu, s.fence, q, s.gpu.Length(q), s.value + 1)
  {
    var op := Signal(s.fence, s.value + 1);
    forall q': nat, p': nat, v': nat | s1.gpu.IsSignal(s.fence, q', p', v')
      ensures v' < op.value && Behind(s1.gpu, s.fence, q', p', v', q, s1.gpu.Length(q))
    {
      CaughtUpIsBehind(s1, q, q', p', v');
    }
    AppendKeepsOrder(s1.gpu, s.fence, q, op);
    AppendKeepsSignals(s1.gpu, q, op, s.fence);
    AppendedOps(s1.gpu, q, op);
    var g2 := Append(s1.gpu, q, op);
    ExtendsKeepsOps(s.gpu, s1.gpu, s.fence, q, 0, 0);
    assert g2.IsSignal(s.fence, q, s1.gpu.Length(q), s.value + 1);
    ExtendsTransitive(s.gpu, s1.gpu, g2);
    forall q': nat, p': nat, v': nat | g2.IsSignal(s.fence, q', p', v') ensures 0 < v' <= s.value + 1 {
      assert s1.gpu.IsSignal(s.fence, q', p', v') || (q' == q && p' == s1.gpu.Length(q));
    }
  }

  // What a call to either kind of fence keeps, and what acceptance means.
  ghost predicate GoodCall(s: State, r: (State, nat), source: nat) {
    && StateInv(r.0) && Progress(s, r.0)
    && if r.1 != 0
       then r.1 == r.0.value == s.value + 1 < MAX_UINT64
            && SignalledAfter(r.0.gpu, s.fence, source, s.gpu.Length(source), r.1)
       else r.0.value == s.value
  }

  lemma D3D12Keeps(s: State, source: nat)
    requires StateInv(s) && source < |s.gpu.queues| && s.queue == NO_QUEUE
    ensures GoodCall(s, D3D12Queued(s, source), source) && D3D12Queued(s, source).0.queue == NO_QUEUE
  {
    hide StateInv, Call, SignalNext, CaughtUp;
    SelfExtends(s.gpu);
    if s.value < MAX_UINT64 - 2 {
      if s.value == 0 {
        StartsCaughtUp(s, source);
        SignalKeeps(s, source);
      } else {
        WaitKeeps(s, source);
        var waited := Call(s, source, Wait(s.fence, s.value));
        if waited.1 {
          SignalKeeps(waited.0, source);
          AfterWait(s, waited.0, SignalNext(waited.0, source), source);
        }
      }
    }
  }

  lemma StartsCaughtUp(s: State, q: nat)
    requires s.value == 0
    ensures CaughtUp(s.gpu, s.fence, s.value, q)
  {
  }

  lemma AfterWait(s: State, s1: State, r: (State, nat), source: nat)
    requires Progress(s, s1) && Progress(s1, r.0) && s1.value == s.value
    requires r.1 != 0 ==> SignalledAfter(r.0.gpu, s.fence, source, s1.gpu.Length(source), r.1)
    ensures Progress(s, r.0)
    ensures r.1 != 0 ==> SignalledAfter(r.0.gpu, s.fence, source, s.gpu.Length(source), r.1)
  {
    ProgressTransitive(s, s1, r.0);
    ExtendsKeepsOps(s.gpu, s1.gpu, s.fence, source, 0, 0);
    SelfExtends(r.0.gpu);
    if r.1 != 0 { SignalledGrows(r.0.gpu, r.0.gpu, s.fence, source, s1.gpu.Length(source), r.1); }
  }

  lemma ReShadeKeeps(s: State, source: nat)
    requires StateInv(s) && source < |s.gpu.queues|
    ensures GoodCall(s, ReShadeQueued(s, source), source)
  {
    hide Call, SignalNext, CaughtUp, InOrder;
    SelfExtends(s.gpu);
    var waited := if s.queue != source && s.value != 0 then Call(s, source, Wait(s.fence, s.value)) else (s, true);
    if s.queue != source && s.value != 0 { WaitKeeps(s, source); }
    if waited.1 {
      var s1 := waited.0.(queue := source);
      if s.value == 0 { StartsCaughtUp(s1, source); }
      assert StateInv(s1) && Progress(s, s1);
      if s1.value < MAX_UINT64 - 1 {
        SignalKeeps(s1, source);
        AfterWait(s, s1, SignalNext(s1, source), source);
      }
    }
  }

  // ---- Exactly when a submission is accepted ----

  // D3D12: below the largest values, if the driver accepts the wait for the previous point and the signal.
  lemma D3D12AcceptedExactly(s: State, source: nat)
    ensures var r := D3D12Queued(s, source);
            && (r.1 == 0 || r.1 == s.value + 1)
            && (r.1 != 0 <==>
                  && s.value < 0xFFFF_FFFF_FFFF_FFFD
                  && var n := if s.value == 0 then 1 else 2;
                     n <= |s.script| && forall k :: 0 <= k < n ==> s.script[k].accepted)
            && r.0.value == (if r.1 != 0 then r.1 else s.value) && r.0.fence == s.fence
  {
    hide Submit;
    SubmitOk(s.gpu, s.script, {s.fence}, source, Signal(s.fence, s.value + 1));
    SubmitOk(s.gpu, s.script, {s.fence}, source, Wait(s.fence, s.value));
    var waited := Call(s, source, Wait(s.fence, s.value));
    SubmitOk(waited.0.gpu, waited.0.script, {s.fence}, source, Signal(s.fence, s.value + 1));
  }

  // ReShade: the wait is made only if the queue changed, and there is one more value. The queue is remembered once
  // nothing has to be waited for, or the wait was accepted.
  lemma ReShadeAcceptedExactly(s: State, source: nat)
    ensures var r := ReShadeQueued(s, source);
            && (r.1 == 0 || r.1 == s.value + 1)
            && (r.1 != 0 <==>
                  && s.value < 0xFFFF_FFFF_FFFF_FFFE
                  && var n := if s.queue != source && s.value != 0 then 2 else 1;
                     n <= |s.script| && forall k :: 0 <= k < n ==> s.script[k].accepted)
            && r.0.value == (if r.1 != 0 then r.1 else s.value) && r.0.fence == s.fence
            && (r.0.queue == source <==>
                  s.queue == source || s.value == 0 || (s.script != [] && s.script[0].accepted))
            && (r.0.queue != source ==> r.0.queue == s.queue)
  {
    hide Submit;
    SubmitOk(s.gpu, s.script, {s.fence}, source, Signal(s.fence, s.value + 1));
    SubmitOk(s.gpu, s.script, {s.fence}, source, Wait(s.fence, s.value));
    var waited := Call(s, source, Wait(s.fence, s.value));
    SubmitOk(waited.0.gpu, waited.0.script, {s.fence}, source, Signal(s.fence, s.value + 1));
  }

  // ---- Whole runs ----

  datatype Kind = D3D12 | ReShade

  datatype Action = Host(step: HostStep) | Queue(source: nat, script: seq<Turn>)

  // An accepted point: its queue, and how far that queue had been filled when the call began.
  datatype Point = Point(value: nat, queue: nat, mark: nat)

  datatype History = History(state: State, points: seq<Point>)

  function Act(kind: Kind, h: History, a: Action): History {
    match a
    case Host(step) => h.(state := h.state.(gpu := Other(h.state.gpu, step, {h.state.fence})))
    case Queue(source, script) =>
      if source >= |h.state.gpu.queues| then h
      else
        var s := h.state.(script := script);
        var r := if kind.D3D12? then D3D12Queued(s, source) else ReShadeQueued(s, source);
        History(r.0, if r.1 != 0 then h.points + [Point(r.1, source, s.gpu.Length(source))] else h.points)
  }

  function Run(kind: Kind, h: History, actions: seq<Action>): History
    decreases |actions|
  {
    if actions == [] then h else Run(kind, Act(kind, h, actions[0]), actions[1..])
  }

  ghost predicate Fresh(s: State) {
    && s.gpu.Valid() && s.value == 0 && s.queue == NO_QUEUE && s.gpu.Completed(s.fence) == 0
    && forall q: nat, p: nat, v: nat :: !s.gpu.IsSignal(s.fence, q, p, v) && !s.gpu.IsWait(s.fence, q, p, v)
  }

  // The points are 1, 2, 3, ... and each has its signal in place.
  ghost predicate HistoryInv(kind: Kind, h: History) {
    && StateInv(h.state) && (kind.D3D12? ==> h.state.queue == NO_QUEUE)
    && |h.points| == h.state.value
    && forall i :: 0 <= i < |h.points| ==>
         && h.points[i].value == i + 1
         && SignalledAfter(h.state.gpu, h.state.fence, h.points[i].queue, h.points[i].mark, h.points[i].value)
  }

  lemma ActKeeps(kind: Kind, h: History, a: Action)
    requires HistoryInv(kind, h)
    ensures HistoryInv(kind, Act(kind, h, a)) && Progress(h.state, Act(kind, h, a).state)
    ensures h.points <= Act(kind, h, a).points
  {
    hide StateInv, D3D12Queued, ReShadeQueued, SignalledAfter, InOrder;
    SelfExtends(h.state.gpu);
    match a
    case Host(step) =>
      OtherKeeps(h.state, step);
      PointsGrow(h, Act(kind, h, a).state);
    case Queue(source, script) =>
      if source < |h.state.gpu.queues| {
        var s := h.state.(script := script);
        SameInv(h.state, script);
        if kind.D3D12? { D3D12Keeps(s, source); } else { ReShadeKeeps(s, source); }
        PointsGrow(h, Act(kind, h, a).state);
      }
  }

  lemma SameInv(s: State, script: seq<Turn>)
    requires StateInv(s)
    ensures StateInv(s.(script := script))
  {
  }

  lemma PointsGrow(h: History, s': State)
    requires Extends(h.state.gpu, s'.gpu)
    ensures forall i ::
              0 <= i < |h.points|
              && SignalledAfter(h.state.gpu, h.state.fence, h.points[i].queue, h.points[i].mark, h.points[i].value)
              ==> SignalledAfter(s'.gpu, h.state.fence, h.points[i].queue, h.points[i].mark, h.points[i].value)
  {
    forall i | 0 <= i < |h.points|
               && SignalledAfter(h.state.gpu, h.state.fence, h.points[i].queue, h.points[i].mark, h.points[i].value)
      ensures SignalledAfter(s'.gpu, h.state.fence, h.points[i].queue, h.points[i].mark, h.points[i].value)
    {
      SignalledGrows(h.state.gpu, s'.gpu, h.state.fence, h.points[i].queue, h.points[i].mark, h.points[i].value);
    }
  }

  lemma {:induction false} RunKeeps(kind: Kind, h: History, actions: seq<Action>)
    requires HistoryInv(kind, h)
    ensures HistoryInv(kind, Run(kind, h, actions)) && Progress(h.state, Run(kind, h, actions).state)
    ensures h.points <= Run(kind, h, actions).points
    decreases |actions|
  {
    hide HistoryInv, Act, Extends;
    if actions == [] {
      SelfExtends(h.state.gpu);
    } else {
      ActKeeps(kind, h, actions[0]);
      RunKeeps(kind, Act(kind, h, actions[0]), actions[1..]);
      ProgressTransitive(h.state, Act(kind, h, actions[0]).state, Run(kind, h, actions).state);
    }
  }

  // In every run from a new fence: once it shows value v, everything enqueued before each accepted
  // point up to v has executed, on whichever queue that point was issued.
  lemma ReachedPointsAreRetired(kind: Kind, s: State, actions: seq<Action>)
    requires Fresh(s)
    ensures var h := Run(kind, History(s, []), actions);
            forall i :: 0 <= i < |h.points| ==>
              && h.points[i].value == i + 1
              && (h.points[i].value <= h.state.gpu.Completed(h.state.fence) ==>
                    Retired(h.state.gpu, h.points[i].queue, h.points[i].mark))
  {
    RunKeeps(kind, History(s, []), actions);
    var h := Run(kind, History(s, []), actions);
    forall i | 0 <= i < |h.points| && h.points[i].value <= h.state.gpu.Completed(h.state.fence)
      ensures Retired(h.state.gpu, h.points[i].queue, h.points[i].mark)
    {
      var pt := h.points[i];
      var p: nat :| pt.mark <= p && h.state.gpu.IsSignal(h.state.fence, pt.queue, p, pt.value);
      ReachedMeansExecuted(h.state.gpu, h.state.fence, pt.queue, p, pt.value);
    }
  }

  // The fence value never goes down along a run.
  lemma FenceValueNeverFalls(kind: Kind, s: State, first: seq<Action>, more: seq<Action>)
    requires Fresh(s)
    ensures var h := Run(kind, History(s, []), first);
            h.state.gpu.Completed(s.fence) <= Run(kind, h, more).state.gpu.Completed(s.fence)
  {
    RunKeeps(kind, History(s, []), first);
    RunKeeps(kind, Run(kind, History(s, []), first), more);
  }

  // ---- The same as objects updated in place ----

  class Device {
    var gpu: Gpu
    var script: seq<Turn>

    constructor (gpu: Gpu, script: seq<Turn>)
      ensures this.gpu == gpu && this.script == script
    {
      this.gpu, this.script := gpu, script;
    }

    method Submitted(fence: nat, q: nat, op: Op) returns (ok: bool)
      modifies this
      ensures Submission(gpu, script, ok) == Submit(old(gpu), old(script), {fence}, q, op)
    {
      if script == [] { return false; }
      gpu := Others(gpu, script[0].before, {fence});
      ok := script[0].accepted;
      if ok { gpu := Append(gpu, q, op); }
      script := script[1..];
    }
  }

  class D3D12Fence {
    const device: Device
    const fence: nat
    var value: nat

    constructor (device: Device, fence: nat)
      ensures this.device == device && this.fence == fence && value == 0
    {
      this.device, this.fence, value := device, fence, 0;
    }

    function Abstract(): State
      reads this, device
    {
      State(device.gpu, device.script, fence, value, NO_QUEUE)
    }

    method QueueFence(source: nat) returns (point: nat)
      modifies this`value, device
      ensures (Abstract(), point) == D3D12Queued(old(Abstract()), source)
    {
      if value >= MAX_UINT64 - 2 { return 0; }
      if value != 0 {
        var waited := device.Submitted(fence, source, Wait(fence, value));
        if !waited { return 0; }
      }
      var signalled := device.Submitted(fence, source, Signal(fence, value + 1));
      if !signalled { return 0; }
      value := value + 1;
      return value;
    }
  }

  class ReShadeFence {
    const device: Device
    const fence: nat
    var queue: int
    var value: nat

    constructor (device: Device, fence: nat)
      ensures this.device == device && this.fence == fence && value == 0 && queue == NO_QUEUE
    {
      this.device, this.fence, value, queue := device, fence, 0, NO_QUEUE;
    }

    function Abstract(): State
      reads this, device
    {
      State(device.gpu, device.script, fence, value, queue)
    }

    // QueueSignal on this fence: wait on a change of queue, then signal the next value.
    method QueueSignal(source: nat) returns (completion: nat)
      modifies this`value, this`queue, device
      ensures (Abstract(), completion) == ReShadeQueued(old(Abstract()), source)
    {
      if queue != source && value != 0 {
        var waited := device.Submitted(fence, source, Wait(fence, value));
        if !waited { return 0; }
      }
      queue := source;
      completion := 0;
      if value < MAX_UINT64 - 1 {
        var signalled := device.Submitted(fence, source, Signal(fence, value + 1));
        if signalled {
          value := value + 1;
          completion := value;
        }
      }
    }
  }
}
