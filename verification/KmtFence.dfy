// A fence over a D3D9Ex or D3D10 device: one primary context, and a retirement marker on every further
// context that the primary joins before it signals.
module KmtFence {
  import opened GpuQueues

  const MAX_UINT64: nat := 0xFFFF_FFFF_FFFF_FFFF

  datatype Timeline = Timeline(context: nat, fence: nat, value: nat)

  datatype Kmt =
    Kmt(gpu: Gpu, script: seq<Turn>, valid: bool, canWait: bool, primary: Timeline, joined: seq<Timeline>) {
    function Owned(): set<nat> {
      {primary.fence} + set i | 0 <= i < |joined| :: joined[i].fence
    }

    function WithGpu(s: Submission): Kmt {
      this.(gpu := s.gpu, script := s.script)
    }
  }

  // signal_context: refuses a value that is not new, and records an accepted one.
  function SignalJoined(s: Kmt, i: nat, target: nat): (r: (Kmt, bool))
    requires i < |s.joined|
    ensures |r.0.joined| == |s.joined|
  {
    var t := s.joined[i];
    if target <= t.value then (s, false)
    else
      var call := Submit(s.gpu, s.script, s.Owned(), t.context, Signal(t.fence, target));
      if !call.ok then (s.WithGpu(call), false)
      else (s.WithGpu(call).(joined := s.joined[i := t.(value := target)]), true)
  }

  function SignalPrimary(s: Kmt, target: nat): (Kmt, bool) {
    var t := s.primary;
    if target <= t.value then (s, false)
    else
      var call := Submit(s.gpu, s.script, s.Owned(), t.context, Signal(t.fence, target));
      if !call.ok then (s.WithGpu(call), false)
      else (s.WithGpu(call).(primary := t.(value := target)), true)
  }

  function JoinWait(s: Kmt, i: nat, target: nat): (r: (Kmt, bool))
    requires i < |s.joined|
  {
    var call := Submit(s.gpu, s.script, s.Owned(), s.primary.context, Wait(s.joined[i].fence, target));
    (s.WithGpu(call), call.ok)
  }

  // Signals every joined context from index i on, makes the primary wait for each, then signals it.
  function JoinFrom(s: Kmt, i: nat, target: nat): (Kmt, bool)
    requires i <= |s.joined|
    decreases |s.joined| - i
  {
    if i == |s.joined| then SignalPrimary(s, target)
    else
      var signalled := SignalJoined(s, i, target);
      if !signalled.1 then (signalled.0, false)
      else
        var waited := JoinWait(signalled.0, i, target);
        if !waited.1 then (waited.0, false) else JoinFrom(waited.0, i + 1, target)
  }

  predicate Acceptable(s: Kmt, target: nat) {
    && s.valid
    && s.primary.value < target < MAX_UINT64 - 1
    && (s.joined != [] ==> s.canWait)
    && forall i :: 0 <= i < |s.joined| ==> s.joined[i].value < target
  }

  function AfterQueueFence(s: Kmt, target: nat): (Kmt, bool) {
    if Acceptable(s, target) then JoinFrom(s, 0, target) else (s, false)
  }

  // The automatic point; 0 means that nothing was accepted.
  function AfterQueueNext(s: Kmt): (Kmt, nat) {
    if s.primary.value >= MAX_UINT64 - 2 then (s, 0)
    else
      var r := AfterQueueFence(s, s.primary.value + 1);
      if r.1 then (r.0, r.0.primary.value) else (r.0, 0)
  }

  // ---- What every state of a run satisfies ----

  // Signals of this fence stand in its own context only, and its value bounds them.
  ghost predicate OnTimeline(g: Gpu, t: Timeline) {
    && t.context < |g.queues|
    && InOrder(g, t.fence)
    && (forall q: nat, p: nat, v: nat :: g.IsSignal(t.fence, q, p, v) ==> q == t.context && v <= t.value)
    && g.Completed(t.fence) <= t.value
  }

  // The primary is line 0, the joined contexts follow.
  function Line(s: Kmt, k: nat): Timeline
    requires k <= |s.joined|
  {
    if k == 0 then s.primary else s.joined[k - 1]
  }

  ghost predicate KmtInv(s: Kmt) {
    && (forall k: nat :: k <= |s.joined| ==> OnTimeline(s.gpu, Line(s, k)))
    && forall j: nat, k: nat :: j < k <= |s.joined| ==> Line(s, j).fence != Line(s, k).fence
  }

  lemma LinesOwned(s: Kmt, k: nat)
    requires k <= |s.joined|
    ensures Line(s, k).fence in s.Owned()
  {
    if k > 0 { assert s.joined[k - 1].fence in set i | 0 <= i < |s.joined| :: s.joined[i].fence; }
  }

  lemma OthersKeepTimeline(g: Gpu, steps: seq<HostStep>, owned: set<nat>, t: Timeline)
    requires OnTimeline(g, t) && t.fence in owned
    ensures OnTimeline(Others(g, steps, owned), t) && Extends(g, Others(g, steps, owned))
    ensures g.Completed(t.fence) <= Others(g, steps, owned).Completed(t.fence)
  {
    OthersKeepOrder(g, steps, owned, t.fence);
    OthersBounded(g, steps, owned, t);
  }

  // A fence shows nothing that was not signalled, so its value bounds what it shows.
  lemma {:induction false} OthersBounded(g: Gpu, steps: seq<HostStep>, owned: set<nat>, t: Timeline)
    requires OnTimeline(g, t) && t.fence in owned
    ensures Others(g, steps, owned).Completed(t.fence) <= t.value
    decreases |steps|
  {
    if steps != [] {
      var g' := Other(g, steps[0], owned);
      OtherKeepsOrder(g, steps[0], owned, t.fence);
      if steps[0].Run? && Ready(g, steps[0].q) {
        var q := steps[0].q;
        var op := g.queues[q].log[g.queues[q].done];
        if op.Signal? && op.fence == t.fence { assert g.IsSignal(t.fence, q, g.queues[q].done, op.value); }
      }
      OthersBounded(g', steps[1..], owned, t);
    }
  }

  // A call for another purpose leaves this timeline as it is.
  lemma SubmitKeepsTimeline(g: Gpu, script: seq<Turn>, owned: set<nat>, q: nat, op: Op, t: Timeline)
    requires OnTimeline(g, t) && t.fence in owned && q < |g.queues| && !(op.Signal? && op.fence == t.fence)
    ensures var call := Submit(g, script, owned, q, op);
            OnTimeline(call.gpu, t) && Extends(g, call.gpu) && g.Completed(t.fence) <= call.gpu.Completed(t.fence)
  {
    if script != [] {
      OthersKeepTimeline(g, script[0].before, owned, t);
      var g' := Others(g, script[0].before, owned);
      AppendKeepsOrder(g', t.fence, q, op);
      AppendKeepsSignals(g', q, op, t.fence);
      ExtendsTransitive(g, g', Append(g', q, op));
    }
  }

  // A signal of a new value moves its timeline on, if it is accepted.
  lemma SubmitSignal(g: Gpu, script: seq<Turn>, owned: set<nat>, t: Timeline, target: nat)
    requires OnTimeline(g, t) && t.fence in owned && t.value < target
    ensures var call := Submit(g, script, owned, t.context, Signal(t.fence, target));
            && OnTimeline(call.gpu, if call.ok then t.(value := target) else t)
            && Extends(g, call.gpu) && g.Completed(t.fence) <= call.gpu.Completed(t.fence)
            && (call.ok ==> exists p: nat :: g.Length(t.context) <= p && p + 1 == call.gpu.Length(t.context)
                                             && call.gpu.IsSignal(t.fence, t.context, p, target))
  {
    if script != [] {
      OthersKeepTimeline(g, script[0].before, owned, t);
      var g' := Others(g, script[0].before, owned);
      var op := Signal(t.fence, target);
      AppendKeepsOrder(g', t.fence, t.context, op);
      AppendedOps(g', t.context, op);
      AppendKeepsSignals(g', t.context, op, t.fence);
      ExtendsTransitive(g, g', Append(g', t.context, op));
      ExtendsKeepsOps(g, g', t.fence, t.context, 0, 0);
      var after := Append(g', t.context, op);
      forall q: nat, p: nat, v: nat | after.IsSignal(t.fence, q, p, v) ensures q == t.context && v <= target {
        assert g'.IsSignal(t.fence, q, p, v) || (q == t.context && p == g'.Length(q));
      }
      assert after.IsSignal(t.fence, t.context, g'.Length(t.context), target);
    }
  }

  lemma SubmitWait(g: Gpu, script: seq<Turn>, owned: set<nat>, q: nat, fence: nat, v: nat)
    requires q < |g.queues| && Submit(g, script, owned, q, Wait(fence, v)).ok
    requires Extends(g, Submit(g, script, owned, q, Wait(fence, v)).gpu)
    ensures var g' := Submit(g, script, owned, q, Wait(fence, v)).gpu;
            g'.Length(q) > 0 && g'.IsWait(fence, q, g'.Length(q) - 1, v)
  {
    OthersSameQueues(g, script[0].before, owned);
    AppendedOps(Others(g, script[0].before, owned), q, Wait(fence, v));
  }

  // ---- One call of QueueFence ----

  // Contexts and fences do not change; values only grow; queues only extend.
  ghost predicate Progress(s: Kmt, s': Kmt) {
    && Extends(s.gpu, s'.gpu)
    && |s'.joined| == |s.joined|
    && (forall k: nat :: k <= |s.joined| ==>
          && Line(s', k).context == Line(s, k).context && Line(s', k).fence == Line(s, k).fence
          && Line(s, k).value <= Line(s', k).value
          && s.gpu.Completed(Line(s, k).fence) <= s'.gpu.Completed(Line(s, k).fence))
    && s'.valid == s.valid && s'.canWait == s.canWait
  }

  lemma ProgressTransitive(a: Kmt, b: Kmt, c: Kmt)
    requires Progress(a, b) && Progress(b, c)
    ensures Progress(a, c)
  {
    ExtendsTransitive(a.gpu, b.gpu, c.gpu);
    forall k: nat | k <= |a.joined|
      ensures Line(c, k).context == Line(a, k).context && Line(c, k).fence == Line(a, k).fence
      ensures Line(a, k).value <= Line(c, k).value
      ensures a.gpu.Completed(Line(a, k).fence) <= c.gpu.Completed(Line(a, k).fence)
    {
      assert Line(b, k).context == Line(a, k).context;
    }
  }

  // Only line k can move, and it moves if the call is accepted.
  lemma SignalledLines(s: Kmt, k: nat, target: nat)
    requires k <= |s.joined| && Line(s, k).value < target
    ensures var r := if k == 0 then SignalPrimary(s, target) else SignalJoined(s, k - 1, target);
            var t := Line(s, k);
            var call := Submit(s.gpu, s.script, s.Owned(), t.context, Signal(t.fence, target));
            && r.1 == call.ok && r.0.gpu == call.gpu && |r.0.joined| == |s.joined|
            && r.0.valid == s.valid && r.0.canWait == s.canWait
            && forall j: nat :: j <= |s.joined| ==>
                 Line(r.0, j) == if j == k && call.ok then t.(value := target) else Line(s, j)
  {
    hide Submit;
  }

  lemma TimelineHasQueue(g: Gpu, t: Timeline)
    requires OnTimeline(g, t)
    ensures t.context < |g.queues|
  {
  }

  // Signalling line k with a new value.
  lemma SignalLine(s: Kmt, k: nat, target: nat)
    requires KmtInv(s) && k <= |s.joined| && Line(s, k).value < target
    ensures var r := if k == 0 then SignalPrimary(s, target) else SignalJoined(s, k - 1, target);
            && KmtInv(r.0) && Progress(s, r.0)
            && (r.1 ==> Line(r.0, k).value == target
                        && exists p: nat ::
                             s.gpu.Length(Line(s, k).context) <= p
                             && p + 1 == r.0.gpu.Length(Line(s, k).context)
                             && r.0.gpu.IsSignal(Line(s, k).fence, Line(s, k).context, p, target))
            && (!r.1 ==> forall j: nat :: j <= |s.joined| ==> Line(r.0, j) == Line(s, j))
            && (forall j: nat :: j <= |s.joined| && j != k ==> Line(r.0, j) == Line(s, j))
  {
    hide Submit, OnTimeline, Extends, SignalPrimary, SignalJoined, Line;
    SignalledLines(s, k, target);
    var r := if k == 0 then SignalPrimary(s, target) else SignalJoined(s, k - 1, target);
    var t := Line(s, k);
    LinesOwned(s, k);
    TimelineHasQueue(s.gpu, t);
    SubmitSignal(s.gpu, s.script, s.Owned(), t, target);
    forall j: nat | j <= |s.joined| && j != k
      ensures Line(r.0, j) == Line(s, j) && OnTimeline(r.0.gpu, Line(s, j))
      ensures s.gpu.Completed(Line(s, j).fence) <= r.0.gpu.Completed(Line(s, j).fence)
    {
      LinesOwned(s, j);
      assert Line(s, j).fence != t.fence;
      SubmitKeepsTimeline(s.gpu, s.script, s.Owned(), t.context, Signal(t.fence, target), Line(s, j));
    }
  }

  lemma WaitForLine(s: Kmt, i: nat, target: nat)
    requires KmtInv(s) && i < |s.joined|
    ensures var r := JoinWait(s, i, target);
            && KmtInv(r.0) && Progress(s, r.0) && r.0.primary == s.primary && r.0.joined == s.joined
            && (r.1 ==> exists a: nat :: a < r.0.gpu.Length(s.primary.context)
                                         && r.0.gpu.IsWait(s.joined[i].fence, s.primary.context, a, target))
  {
    var r := JoinWait(s, i, target);
    var op := Wait(s.joined[i].fence, target);
    assert OnTimeline(s.gpu, Line(s, 0));
    forall j: nat | j <= |s.joined|
      ensures OnTimeline(r.0.gpu, Line(s, j)) && Extends(s.gpu, r.0.gpu) && Line(r.0, j) == Line(s, j)
      ensures s.gpu.Completed(Line(s, j).fence) <= r.0.gpu.Completed(Line(s, j).fence)
    {
      LinesOwned(s, j);
      SubmitKeepsTimeline(s.gpu, s.script, s.Owned(), s.primary.context, op, Line(s, j));
    }
    assert Extends(s.gpu, r.0.gpu) by { assert Line(s, 0) == s.primary; }
    if r.1 { SubmitWait(s.gpu, s.script, s.Owned(), s.primary.context, s.joined[i].fence, target); }
  }

  // Joined context i was signalled with v after its first marks[i + 1] operations, and the primary
  // waits for that before position `before`.
  ghost predicate JoinedBefore(s: Kmt, i: nat, v: nat, marks: seq<nat>, before: nat)
    requires i < |s.joined|
  {
    && i + 1 < |marks|
    && (exists a: nat :: a < before && s.gpu.IsWait(s.joined[i].fence, s.primary.context, a, v))
    && (exists b: nat :: marks[i + 1] <= b && s.gpu.IsSignal(s.joined[i].fence, s.joined[i].context, b, v))
  }

  ghost predicate JoinedUpTo(s: Kmt, count: nat, v: nat, marks: seq<nat>, before: nat)
    requires count <= |s.joined|
  {
    forall i: nat :: i < count ==> JoinedBefore(s, i, v, marks, before)
  }

  lemma JoinedGrows(s: Kmt, s': Kmt, count: nat, v: nat, marks: seq<nat>, before: nat, before': nat)
    requires Progress(s, s') && count <= |s.joined| && JoinedUpTo(s, count, v, marks, before) && before <= before'
    ensures JoinedUpTo(s', count, v, marks, before')
  {
    forall i: nat | i < count ensures JoinedBefore(s', i, v, marks, before') {
      assert JoinedBefore(s, i, v, marks, before);
      var a: nat :| a < before && s.gpu.IsWait(s.joined[i].fence, s.primary.context, a, v);
      var b: nat :| marks[i + 1] <= b && s.gpu.IsSignal(s.joined[i].fence, s.joined[i].context, b, v);
      assert Line(s', i + 1).fence == Line(s, i + 1).fence && Line(s', 0).context == Line(s, 0).context;
      ExtendsKeepsOps(s.gpu, s'.gpu, s.joined[i].fence, s.primary.context, a, v);
      ExtendsKeepsOps(s.gpu, s'.gpu, s.joined[i].fence, s.joined[i].context, b, v);
    }
  }

  // An accepted point, with how far each line had been filled when the call began.
  datatype Point = Point(value: nat, marks: seq<nat>)

  ghost predicate Covered(s: Kmt, pt: Point) {
    && |pt.marks| == |s.joined| + 1
    && exists p: nat :: pt.marks[0] <= p && s.gpu.IsSignal(s.primary.fence, s.primary.context, p, pt.value)
                        && JoinedUpTo(s, |s.joined|, pt.value, pt.marks, p)
  }

  lemma CoveredGrows(s: Kmt, s': Kmt, pt: Point)
    requires Progress(s, s') && Covered(s, pt)
    ensures Covered(s', pt)
  {
    var p: nat :| pt.marks[0] <= p && s.gpu.IsSignal(s.primary.fence, s.primary.context, p, pt.value)
                  && JoinedUpTo(s, |s.joined|, pt.value, pt.marks, p);
    assert Line(s', 0).fence == Line(s, 0).fence && Line(s', 0).context == Line(s, 0).context;
    ExtendsKeepsOps(s.gpu, s'.gpu, s.primary.fence, s.primary.context, p, pt.value);
    JoinedGrows(s, s', |s.joined|, pt.value, pt.marks, p, p);
  }

  function Marks(s: Kmt): (marks: seq<nat>)
    ensures |marks| == |s.joined| + 1
  {
    seq(|s.joined| + 1, k requires 0 <= k <= |s.joined| => s.gpu.Length(Line(s, k).context))
  }

  lemma MarksBelow(start: Kmt, s: Kmt, k: nat)
    requires Progress(start, s) && k <= |s.joined|
    ensures Marks(start)[k] <= s.gpu.Length(Line(s, k).context)
  {
    assert Line(s, k).context == Line(start, k).context;
    ExtendsKeepsOps(start.gpu, s.gpu, 0, Line(s, k).context, 0, 0);
  }

  // A state inside a call that began in state `start`, with `i` contexts joined.
  ghost predicate Joining(start: Kmt, s: Kmt, i: nat, target: nat) {
    && KmtInv(s) && Progress(start, s) && i <= |s.joined| && s.primary.value < target
    && (forall j: nat :: i <= j < |s.joined| ==> s.joined[j].value < target)
    && JoinedUpTo(s, i, target, Marks(start), s.gpu.Length(s.primary.context))
  }

  lemma JoinOne(start: Kmt, s: Kmt, i: nat, target: nat)
    requires Joining(start, s, i, target) && i < |s.joined|
    ensures var s1 := SignalJoined(s, i, target);
            && KmtInv(s1.0) && Progress(s, s1.0) && s1.0.primary == s.primary
            && (s1.1 ==> (
                  var s2 := JoinWait(s1.0, i, target);
                  && KmtInv(s2.0) && Progress(s, s2.0) && s2.0.primary == s.primary
                  && (s2.1 ==> Joining(start, s2.0, i + 1, target))))
  {
    hide Submit, OnTimeline;
    SignalLine(s, i + 1, target);
    var s1 := SignalJoined(s, i, target);
    assert Line(s1.0, 0) == Line(s, 0);
    if s1.1 {
      WaitForLine(s1.0, i, target);
      var s2 := JoinWait(s1.0, i, target);
      ProgressTransitive(s, s1.0, s2.0);
      ProgressTransitive(start, s, s2.0);
      if s2.1 {
        forall j: nat | i + 1 <= j < |s.joined| ensures s2.0.joined[j].value < target {
          assert Line(s1.0, j + 1) == Line(s, j + 1);
        }
        JoinedNow(start, s, s1.0, s2.0, i, target);
      }
    }
  }

  // After its signal and the primary's wait, context i counts as joined, as do the earlier ones.
  lemma JoinedNow(start: Kmt, s: Kmt, s1: Kmt, s2: Kmt, i: nat, target: nat)
    requires Joining(start, s, i, target) && i < |s.joined| && Progress(s, s1) && Progress(s1, s2) && Progress(s, s2)
    requires exists p: nat ::
               s.gpu.Length(s.joined[i].context) <= p
               && s1.gpu.IsSignal(s.joined[i].fence, s.joined[i].context, p, target)
    requires exists a: nat ::
               a < s2.gpu.Length(s.primary.context)
               && s2.gpu.IsWait(s.joined[i].fence, s.primary.context, a, target)
    ensures JoinedUpTo(s2, i + 1, target, Marks(start), s2.gpu.Length(s2.primary.context))
  {
    hide OnTimeline;
    assert Line(s2, 0).context == Line(s, 0).context;
    assert Line(s2, i + 1).context == Line(s, i + 1).context && Line(s2, i + 1).fence == Line(s, i + 1).fence;
    ExtendsKeepsOps(s.gpu, s2.gpu, 0, s.primary.context, 0, 0);
    JoinedGrows(s, s2, i, target, Marks(start), s.gpu.Length(s.primary.context), s2.gpu.Length(s2.primary.context));
    var t := s.joined[i];
    var p: nat :| s.gpu.Length(t.context) <= p && s1.gpu.IsSignal(t.fence, t.context, p, target);
    ExtendsKeepsOps(s1.gpu, s2.gpu, t.fence, t.context, p, target);
    MarksBelow(start, s, i + 1);
    assert JoinedBefore(s2, i, target, Marks(start), s2.gpu.Length(s2.primary.context));
  }

  lemma SignalLast(start: Kmt, s: Kmt, target: nat)
    requires Joining(start, s, |s.joined|, target)
    ensures var r := SignalPrimary(s, target);
            && KmtInv(r.0) && Progress(s, r.0)
            && (r.1 ==> r.0.primary.value == target && Covered(r.0, Point(target, Marks(start))))
            && (!r.1 ==> r.0.primary == s.primary)
  {
    hide Submit, OnTimeline;
    SignalLine(s, 0, target);
    var r := SignalPrimary(s, target);
    if r.1 {
      var p: nat :| s.gpu.Length(s.primary.context) <= p
        && r.0.gpu.IsSignal(s.primary.fence, s.primary.context, p, target);
      assert Line(r.0, 0).context == Line(s, 0).context && Line(r.0, 0).fence == Line(s, 0).fence;
      MarksBelow(start, s, 0);
      JoinedGrows(s, r.0, |s.joined|, target, Marks(start), s.gpu.Length(s.primary.context), p);
    } else {
      assert Line(r.0, 0) == Line(s, 0);
    }
  }

  // Acceptance covers everything that was enqueued on any line when the call began.
  lemma {:induction false} JoinFromCovers(start: Kmt, s: Kmt, i: nat, target: nat)
    requires Joining(start, s, i, target)
    ensures var r := JoinFrom(s, i, target);
            && KmtInv(r.0) && Progress(s, r.0)
            && (r.1 ==> r.0.primary.value == target && Covered(r.0, Point(target, Marks(start))))
            && (!r.1 ==> r.0.primary == s.primary)
    decreases |s.joined| - i
  {
    hide SignalJoined, JoinWait, SignalPrimary, KmtInv, Covered, JoinedUpTo, Extends;
    if i == |s.joined| {
      SignalLast(start, s, target);
    } else {
      JoinOne(start, s, i, target);
      var s1 := SignalJoined(s, i, target);
      if s1.1 {
        var s2 := JoinWait(s1.0, i, target);
        if s2.1 {
          JoinFromCovers(start, s2.0, i + 1, target);
          ProgressTransitive(s, s2.0, JoinFrom(s2.0, i + 1, target).0);
        }
      }
    }
  }

  lemma QueueFenceCovers(s: Kmt, target: nat)
    requires KmtInv(s)
    ensures var r := AfterQueueFence(s, target);
            && KmtInv(r.0) && Progress(s, r.0)
            && (r.1 ==> s.primary.value < target < MAX_UINT64 && r.0.primary.value == target
                        && Covered(r.0, Point(target, Marks(s))))
            && (!r.1 ==> r.0.primary == s.primary)
  {
    hide KmtInv, Covered, JoinFrom;
    assert Progress(s, s);
    if Acceptable(s, target) { JoinFromCovers(s, s, 0, target); }
  }

  // ---- Exactly when a call is accepted ----

  function Signalled(t: Timeline, target: nat): Timeline {
    t.(value := target)
  }

  // The calls go signal, wait, signal, wait, ..., and last the primary's signal, up to the first that is refused.
  lemma {:induction false} JoinStopsAtRefusal(s: Kmt, i: nat, target: nat, m: nat)
    requires i <= |s.joined| && s.primary.value < target
    requires forall j :: i <= j < |s.joined| ==> s.joined[j].value < target
    requires Grants(s.script, 2 * (|s.joined| - i) + 1, m)
    ensures var r := JoinFrom(s, i, target);
            && (r.1 <==> m == 2 * (|s.joined| - i) + 1)
            && r.0.primary == (if r.1 then Signalled(s.primary, target) else s.primary)
            && |r.0.joined| == |s.joined|
            && forall j :: 0 <= j < |s.joined| ==>
                 r.0.joined[j] == if i <= j && 2 * (j - i) < m then Signalled(s.joined[j], target) else s.joined[j]
    decreases |s.joined| - i
  {
    hide Submit, Grants;
    GrantsRest(s.script, 2 * (|s.joined| - i) + 1, m);
    if i == |s.joined| {
      SubmitOk(s.gpu, s.script, s.Owned(), s.primary.context, Signal(s.primary.fence, target));
      GrantsSmall(s.script, 1, m);
    } else {
      var t := s.joined[i];
      SubmitOk(s.gpu, s.script, s.Owned(), t.context, Signal(t.fence, target));
      GrantsSmall(s.script, 2 * (|s.joined| - i) + 1, m);
      var s1 := SignalJoined(s, i, target);
      if s1.1 {
        GrantsRest(s1.0.script, 2 * (|s.joined| - i), m - 1);
        GrantsSmall(s1.0.script, 2 * (|s.joined| - i), m - 1);
        SubmitOk(s1.0.gpu, s1.0.script, s1.0.Owned(), s1.0.primary.context, Wait(s1.0.joined[i].fence, target));
        var s2 := JoinWait(s1.0, i, target);
        if s2.1 { JoinStopsAtRefusal(s2.0, i + 1, target, m - 2); }
      }
    }
  }

  lemma GrantsSmall(script: seq<Turn>, n: nat, m: nat)
    requires Grants(script, n, m)
    ensures m <= n
  {
  }

  // An explicit point is accepted exactly if the binding is valid, contexts can be joined, the target is new for every
  // line, and the driver accepts every call; then every line records it.
  lemma AcceptedExactly(s: Kmt, target: nat)
    ensures var r := AfterQueueFence(s, target);
            && (r.1 <==>
                  && s.valid && (s.joined == [] || s.canWait)
                  && s.primary.value < target < 0xFFFF_FFFF_FFFF_FFFE
                  && (forall i :: 0 <= i < |s.joined| ==> s.joined[i].value < target)
                  && 2 * |s.joined| + 1 <= |s.script|
                  && forall k :: 0 <= k < 2 * |s.joined| + 1 ==> s.script[k].accepted)
            && (r.1 ==> r.0.primary == s.primary.(value := target) && |r.0.joined| == |s.joined|
                        && forall i :: 0 <= i < |s.joined| ==> r.0.joined[i] == s.joined[i].(value := target))
  {
    hide JoinFrom;
    if Acceptable(s, target) {
      var m := SomeGrants(s.script, 2 * |s.joined| + 1);
      JoinStopsAtRefusal(s, 0, target, m);
    }
  }

  // The automatic point is the next value, accepted under the same conditions.
  lemma NextAcceptedExactly(s: Kmt)
    ensures var r := AfterQueueNext(s);
            && (r.1 == 0 || r.1 == s.primary.value + 1)
            && (r.1 != 0 <==>
                  && s.valid && (s.joined == [] || s.canWait)
                  && s.primary.value + 1 < 0xFFFF_FFFF_FFFF_FFFE
                  && (forall i :: 0 <= i < |s.joined| ==> s.joined[i].value <= s.primary.value)
                  && 2 * |s.joined| + 1 <= |s.script|
                  && forall k :: 0 <= k < 2 * |s.joined| + 1 ==> s.script[k].accepted)
            && (r.1 != 0 ==> r.0.primary == s.primary.(value := r.1) && |r.0.joined| == |s.joined|
                             && forall i :: 0 <= i < |s.joined| ==> r.0.joined[i] == s.joined[i].(value := r.1))
  {
    AcceptedExactly(s, s.primary.value + 1);
    hide AfterQueueFence;
  }

  // A refused call has signalled exactly the joined contexts whose own call was accepted before the first refusal.
  lemma RefusedSignals(s: Kmt, target: nat, m: nat)
    requires s.valid && (s.joined == [] || s.canWait) && s.primary.value < target < 0xFFFF_FFFF_FFFF_FFFE
    requires forall i :: 0 <= i < |s.joined| ==> s.joined[i].value < target
    requires Grants(s.script, 2 * |s.joined| + 1, m) && m <= 2 * |s.joined|
    ensures var r := AfterQueueFence(s, target);
            && !r.1 && r.0.primary == s.primary && |r.0.joined| == |s.joined|
            && forall i :: 0 <= i < |s.joined| ==>
                 r.0.joined[i] == if 2 * i < m then s.joined[i].(value := target) else s.joined[i]
  {
    hide JoinFrom, Grants;
    JoinStopsAtRefusal(s, 0, target, m);
  }

  // ---- Partial submission ----

  // Some joined context already carries a value that the primary did not get.
  ghost predicate Partial(s: Kmt) {
    exists i :: 0 <= i < |s.joined| && s.primary.value < s.joined[i].value
  }

  // A refused call left no signal behind, or the fence is partial from then on.
  lemma {:induction false} RefusalIsCleanOrPartial(s: Kmt, i: nat, target: nat)
    requires i <= |s.joined| && s.primary.value < target && (i > 0 ==> s.joined[0].value == target)
    ensures var r := JoinFrom(s, i, target);
            !r.1 ==> r.0.primary == s.primary && |r.0.joined| == |s.joined| && (r.0.joined == s.joined || Partial(r.0))
                     && (i > 0 ==> Partial(r.0))
    decreases |s.joined| - i
  {
    hide Submit;
    if i < |s.joined| {
      var s1 := SignalJoined(s, i, target);
      if s1.1 {
        var s2 := JoinWait(s1.0, i, target);
        assert s2.0.joined == s1.0.joined && s2.0.primary == s.primary;
        assert s2.0.joined[0].value == target;
        if s2.1 { RefusalIsCleanOrPartial(s2.0, i + 1, target); }
      } else if i > 0 {
        assert s1.0.joined[0].value == target;
      }
    } else if i > 0 {
      assert SignalPrimary(s, target).0.joined == s.joined;
    }
  }

  lemma RefusedCall(s: Kmt, target: nat)
    requires !AfterQueueFence(s, target).1
    ensures var s' := AfterQueueFence(s, target).0;
            s'.primary == s.primary && (s'.joined == s.joined || Partial(s'))
  {
    if Acceptable(s, target) { RefusalIsCleanOrPartial(s, 0, target); }
  }

  lemma OtherSignalsNothing(g: Gpu, step: HostStep, owned: set<nat>, fence: nat)
    requires fence in owned
    ensures NoNewSignals(g, Other(g, step, owned), fence)
  {
    hide NoNewSignals, Execute, Append;
    match step
    case Run(q) =>
      ExecuteKeepsLogs(g, q);
      SameLogsSameSignals(g, Execute(g, q), fence);
    case Enqueue(q, op) =>
      if q < |g.queues| && !(op.Signal? && op.fence in owned) {
        AppendKeepsSignals(g, q, op, fence);
      } else {
        NothingNew(g, fence);
        assert q >= |g.queues| ==> Append(g, q, op) == g by { NoSuchQueue(g, q, op); }
      }
  }

  lemma NoSuchQueue(g: Gpu, q: nat, op: Op)
    ensures q >= |g.queues| ==> Append(g, q, op) == g
  {
  }

  lemma {:induction false} OthersSignalNothing(g: Gpu, steps: seq<HostStep>, owned: set<nat>, fence: nat)
    requires fence in owned
    ensures NoNewSignals(g, Others(g, steps, owned), fence)
    decreases |steps|
  {
    hide Other;
    if steps != [] {
      OtherSignalsNothing(g, steps[0], owned, fence);
      OthersSignalNothing(Other(g, steps[0], owned), steps[1..], owned, fence);
    }
  }

  // A refused call that put a signal of one of its fences on any queue leaves the fence partial.
  lemma RefusedCallSignals(s: Kmt, target: nat, fence: nat)
    requires !AfterQueueFence(s, target).1 && fence in s.Owned()
    ensures var s' := AfterQueueFence(s, target).0; Partial(s') || NoNewSignals(s.gpu, s'.gpu, fence)
  {
    hide NoNewSignals, Others;
    assert NoNewSignals(s.gpu, s.gpu, fence) by { NothingNew(s.gpu, fence); }
    if Acceptable(s, target) && s.script != [] {
      OthersSignalNothing(s.gpu, s.script[0].before, s.Owned(), fence);
      if s.joined != [] {
        var s1 := SignalJoined(s, 0, target);
        if s1.1 {
          var s2 := JoinWait(s1.0, 0, target);
          assert s2.0.joined[0].value == target;
          if s2.1 { RefusalIsCleanOrPartial(s2.0, 1, target); }
        }
      }
    }
  }

  lemma NothingNew(g: Gpu, fence: nat)
    ensures NoNewSignals(g, g, fence)
  {
  }

  // No automatic point is accepted while the fence is partial, and nothing is submitted.
  lemma PartialRefuses(s: Kmt)
    requires Partial(s)
    ensures AfterQueueNext(s) == (s, 0)
  {
    var i :| 0 <= i < |s.joined| && s.primary.value < s.joined[i].value;
    assert !Acceptable(s, s.primary.value + 1);
  }

  // ---- Whole runs ----

  datatype Action =
    | Host(step: HostStep)                        // a queue executes, or another user enqueues
    | Explicit(target: nat, script: seq<Turn>)    // QueueFence(target)
    | Automatic(script: seq<Turn>)                // QueueFence()
    | Invalidate                                  // the device binding goes away

  datatype History = History(kmt: Kmt, points: seq<Point>)

  function Act(h: History, a: Action): History {
    match a
    case Host(step) => h.(kmt := h.kmt.(gpu := Other(h.kmt.gpu, step, h.kmt.Owned())))
    case Explicit(target, script) =>
      var r := AfterQueueFence(h.kmt.(script := script), target);
      History(r.0, if r.1 then h.points + [Point(target, Marks(h.kmt))] else h.points)
    case Automatic(script) =>
      var r := AfterQueueNext(h.kmt.(script := script));
      History(r.0, if r.1 != 0 then h.points + [Point(r.1, Marks(h.kmt))] else h.points)
    case Invalidate => h.(kmt := h.kmt.(valid := false))
  }

  function Run(h: History, actions: seq<Action>): History
    decreases |actions|
  {
    if actions == [] then h else Run(Act(h, actions[0]), actions[1..])
  }

  // A new fence: its timelines are unused.
  ghost predicate Fresh(s: Kmt) {
    && s.gpu.Valid()
    && (forall k: nat :: k <= |s.joined| ==>
          && Line(s, k).value == 0 && Line(s, k).context < |s.gpu.queues|
          && s.gpu.Completed(Line(s, k).fence) == 0
          && forall q: nat, p: nat, v: nat ::
               !s.gpu.IsSignal(Line(s, k).fence, q, p, v)
               && !s.gpu.IsWait(Line(s, k).fence, q, p, v))
    && forall j: nat, k: nat :: j < k <= |s.joined| ==> Line(s, j).fence != Line(s, k).fence
  }

  ghost predicate HistoryInv(h: History) {
    && KmtInv(h.kmt) && h.kmt.primary.value < MAX_UINT64
    && (forall i :: 0 <= i < |h.points| ==> Covered(h.kmt, h.points[i]) && 0 < h.points[i].value <= h.kmt.primary.value)
    && (forall i, j :: 0 <= i < j < |h.points| ==> h.points[i].value < h.points[j].value)
  }

  lemma HostStepKeeps(s: Kmt, step: HostStep)
    requires KmtInv(s)
    ensures var s' := s.(gpu := Other(s.gpu, step, s.Owned())); KmtInv(s') && Progress(s, s')
  {
    var s' := s.(gpu := Other(s.gpu, step, s.Owned()));
    forall k: nat | k <= |s.joined|
      ensures OnTimeline(s'.gpu, Line(s, k)) && Extends(s.gpu, s'.gpu) && Line(s', k) == Line(s, k)
      ensures s.gpu.Completed(Line(s, k).fence) <= s'.gpu.Completed(Line(s, k).fence)
    {
      LinesOwned(s, k);
      OthersKeepTimeline(s.gpu, [step], s.Owned(), Line(s, k));
      assert [step][1..] == [];
      assert Others(s.gpu, [step], s.Owned()) == s'.gpu;
    }
    assert Extends(s.gpu, s'.gpu) by { assert Line(s, 0) == s.primary; }
  }

  lemma AddPoint(h: History, s': Kmt, pt: Point)
    requires HistoryInv(h) && KmtInv(s') && Progress(h.kmt, s')
    requires h.kmt.primary.value < pt.value == s'.primary.value < MAX_UINT64 && Covered(s', pt)
    ensures HistoryInv(History(s', h.points + [pt]))
  {
    KeepPoints(h, s');
  }

  lemma KeepPoints(h: History, s': Kmt)
    requires HistoryInv(h) && KmtInv(s') && Progress(h.kmt, s') && s'.primary.value < MAX_UINT64
    ensures HistoryInv(History(s', h.points))
  {
    assert Line(h.kmt, 0).value <= Line(s', 0).value;
    forall i | 0 <= i < |h.points| ensures Covered(s', h.points[i]) { CoveredGrows(h.kmt, s', h.points[i]); }
  }

  // Each action keeps the invariant, and no fence value ever goes down.
  lemma ActKeeps(h: History, a: Action)
    requires HistoryInv(h)
    ensures HistoryInv(Act(h, a))
    ensures h.kmt.gpu.Completed(h.kmt.primary.fence) <= Act(h, a).kmt.gpu.Completed(h.kmt.primary.fence)
    ensures h.points <= Act(h, a).points
    ensures Act(h, a).kmt.primary.fence == h.kmt.primary.fence
  {
    hide KmtInv, Covered, JoinFrom, OnTimeline, Acceptable;
    var s := h.kmt;
    assert Line(s, 0) == s.primary;
    match a
    case Host(step) =>
      HostStepKeeps(s, step);
      KeepPoints(h, Act(h, a).kmt);
    case Explicit(target, script) =>
      ScriptKeeps(s, script);
      QueueFenceCovers(s.(script := script), target);
      var r := AfterQueueFence(s.(script := script), target);
      SameMarks(s, script);
      ProgressTransitive(s, s.(script := script), r.0);
      assert Line(r.0, 0).fence == s.primary.fence;
      if r.1 { AddPoint(h, r.0, Point(target, Marks(s))); } else { KeepPoints(h, r.0); }
    case Automatic(script) =>
      ScriptKeeps(s, script);
      QueueFenceCovers(s.(script := script), s.primary.value + 1);
      var r := AfterQueueNext(s.(script := script));
      SameMarks(s, script);
      ProgressTransitive(s, s.(script := script), r.0);
      assert Line(r.0, 0).fence == s.primary.fence;
      if r.1 != 0 { AddPoint(h, r.0, Point(r.1, Marks(s))); } else { KeepPoints(h, r.0); }
    case Invalidate =>
      InvalidateKeeps(h);
  }

  lemma ScriptKeeps(s: Kmt, script: seq<Turn>)
    requires KmtInv(s)
    ensures KmtInv(s.(script := script)) && Progress(s, s.(script := script))
            && Progress(s.(script := script), s.(script := script))
  {
    forall k: nat | k <= |s.joined| ensures Line(s.(script := script), k) == Line(s, k) {}
  }

  lemma SameMarks(s: Kmt, script: seq<Turn>)
    ensures Marks(s.(script := script)) == Marks(s)
  {
    forall k: nat | k <= |s.joined| ensures Line(s.(script := script), k) == Line(s, k) {}
  }

  lemma InvalidateKeeps(h: History)
    requires HistoryInv(h)
    ensures HistoryInv(Act(h, Invalidate))
  {
    var s' := h.kmt.(valid := false);
    forall k: nat | k <= |s'.joined| ensures Line(s', k) == Line(h.kmt, k) {}
    forall i | 0 <= i < |h.points| ensures Covered(s', h.points[i]) {
      assert Covered(h.kmt, h.points[i]);
      var pt := h.points[i];
      var p: nat :| pt.marks[0] <= p && h.kmt.gpu.IsSignal(h.kmt.primary.fence, h.kmt.primary.context, p, pt.value)
                    && JoinedUpTo(h.kmt, |h.kmt.joined|, pt.value, pt.marks, p);
      forall j: nat | j < |s'.joined| ensures JoinedBefore(s', j, pt.value, pt.marks, p) {
        assert JoinedBefore(h.kmt, j, pt.value, pt.marks, p);
      }
    }
  }

  lemma FreshStarts(s: Kmt)
    requires Fresh(s)
    ensures HistoryInv(History(s, []))
  {
    assert Line(s, 0) == s.primary;
    forall k: nat | k <= |s.joined| ensures OnTimeline(s.gpu, Line(s, k)) {}
  }

  lemma {:induction false} RunKeeps(h: History, actions: seq<Action>)
    requires HistoryInv(h)
    ensures HistoryInv(Run(h, actions))
    ensures h.kmt.gpu.Completed(h.kmt.primary.fence) <= Run(h, actions).kmt.gpu.Completed(h.kmt.primary.fence)
    ensures h.points <= Run(h, actions).points
    ensures Run(h, actions).kmt.primary.fence == h.kmt.primary.fence
    decreases |actions|
  {
    hide HistoryInv, Act;
    if actions != [] {
      ActKeeps(h, actions[0]);
      RunKeeps(Act(h, actions[0]), actions[1..]);
    }
  }

  // Everything that was enqueued on any line before the accepted call has executed.
  ghost predicate AllRetired(s: Kmt, pt: Point) {
    |pt.marks| == |s.joined| + 1 && forall k: nat :: k <= |s.joined| ==> Retired(s.gpu, Line(s, k).context, pt.marks[k])
  }

  lemma ReachedPointRetired(s: Kmt, pt: Point)
    requires KmtInv(s) && Covered(s, pt) && pt.value <= s.gpu.Completed(s.primary.fence)
    ensures AllRetired(s, pt)
  {
    var p: nat :| pt.marks[0] <= p && s.gpu.IsSignal(s.primary.fence, s.primary.context, p, pt.value)
                  && JoinedUpTo(s, |s.joined|, pt.value, pt.marks, p);
    assert OnTimeline(s.gpu, Line(s, 0));
    ReachedMeansExecuted(s.gpu, s.primary.fence, s.primary.context, p, pt.value);
    forall k: nat | k <= |s.joined| ensures Retired(s.gpu, Line(s, k).context, pt.marks[k]) {
      if k > 0 {
        assert JoinedBefore(s, k - 1, pt.value, pt.marks, p);
        var t := Line(s, k);
        var a: nat :| a < p && s.gpu.IsWait(t.fence, s.primary.context, a, pt.value);
        var b: nat :| pt.marks[k] <= b && s.gpu.IsSignal(t.fence, t.context, b, pt.value);
        assert OnTimeline(s.gpu, t);
        assert s.gpu.Executed(s.primary.context, a);
        ReachedMeansExecuted(s.gpu, t.fence, t.context, b, pt.value);
      }
    }
  }

  // In every run from a new fence, whatever the drivers and the other users of the queues do: once the
  // primary fence shows an accepted point, all work enqueued before that point is retired on the
  // primary and on every joined context, and the points were accepted in increasing order.
  lemma ReachedPointsAreRetired(s: Kmt, actions: seq<Action>)
    requires Fresh(s)
    ensures var h := Run(History(s, []), actions);
            && (forall i :: 0 <= i < |h.points| && h.points[i].value <= h.kmt.gpu.Completed(h.kmt.primary.fence) ==>
                  AllRetired(h.kmt, h.points[i]))
            && (forall i, j :: 0 <= i < j < |h.points| ==> h.points[i].value < h.points[j].value)
  {
    FreshStarts(s);
    RunKeeps(History(s, []), actions);
    var h := Run(History(s, []), actions);
    forall i | 0 <= i < |h.points| && h.points[i].value <= h.kmt.gpu.Completed(h.kmt.primary.fence)
      ensures AllRetired(h.kmt, h.points[i])
    {
      ReachedPointRetired(h.kmt, h.points[i]);
    }
  }

  // The fence value never goes down along a run.
  lemma FenceValueNeverFalls(s: Kmt, first: seq<Action>, more: seq<Action>)
    requires Fresh(s)
    ensures var h := Run(History(s, []), first);
            h.kmt.gpu.Completed(s.primary.fence) <= Run(h, more).kmt.gpu.Completed(s.primary.fence)
  {
    FreshStarts(s);
    RunKeeps(History(s, []), first);
    RunKeeps(Run(History(s, []), first), more);
  }

  // Once partial, a fence that is only signalled automatically accepts nothing any more.
  lemma {:induction false} PartialLatches(h: History, actions: seq<Action>)
    requires Partial(h.kmt) && forall a :: a in actions ==> !a.Explicit?
    ensures Run(h, actions).points == h.points
    ensures Run(h, actions).kmt.primary == h.kmt.primary && Run(h, actions).kmt.joined == h.kmt.joined
    decreases |actions|
  {
    if actions != [] {
      var a := actions[0];
      assert a in actions;
      if a.Automatic? {
        var s := h.kmt.(script := a.script);
        assert Partial(s);
        PartialRefuses(s);
      }
      assert Partial(Act(h, a).kmt);
      PartialLatches(Act(h, a), actions[1..]);
    }
  }

  // A refused submission that all the same put a signal of one of the fence's timelines on some queue ends
  // the acceptance of automatic points for good.
  lemma RefusedSubmissionEndsPoints(h: History, call: Action, fence: nat, q: nat, p: nat, v: nat, later: seq<Action>)
    requires (call.Explicit? || call.Automatic?) && Act(h, call).points == h.points
    requires fence in h.kmt.Owned()
    requires Act(h, call).kmt.gpu.IsSignal(fence, q, p, v) && !h.kmt.gpu.IsSignal(fence, q, p, v)
    requires forall a :: a in later ==> !a.Explicit?
    ensures Run(Act(h, call), later).points == h.points
  {
    var s := h.kmt.(script := call.script);
    assert s.Owned() == h.kmt.Owned();
    var target := if call.Explicit? then call.target else s.primary.value + 1;
    hide AfterQueueFence, Run;
    if call.Explicit? || s.primary.value < MAX_UINT64 - 2 {
      AcceptedIsPositive(s, target);
      RefusedCallSignals(s, target, fence);
    }
    PartialLatches(Act(h, call), later);
  }

  lemma AcceptedIsPositive(s: Kmt, target: nat)
    ensures AfterQueueFence(s, target).1 ==> AfterQueueFence(s, target).0.primary.value == target > 0
  {
    if Acceptable(s, target) { JoinFromAccepts(s, 0, target); }
  }

  lemma {:induction false} JoinFromAccepts(s: Kmt, i: nat, target: nat)
    requires i <= |s.joined|
    ensures JoinFrom(s, i, target).1 ==> JoinFrom(s, i, target).0.primary.value == target
    decreases |s.joined| - i
  {
    if i < |s.joined| {
      var s1 := SignalJoined(s, i, target);
      if s1.1 {
        var s2 := JoinWait(s1.0, i, target);
        if s2.1 { JoinFromAccepts(s2.0, i + 1, target); }
      }
    }
  }

  // ---- What the CPU observes ----

  // GetCompletedValue: with the binding gone it reports every point as reached.
  function Observed(s: Kmt): nat {
    if s.valid then s.gpu.Completed(s.primary.fence) else MAX_UINT64
  }

  // The work that the point covers is retired, and the signal of the point itself has executed.
  ghost predicate Reached(s: Kmt, pt: Point) {
    && AllRetired(s, pt)
    && forall p: nat :: s.gpu.IsSignal(s.primary.fence, s.primary.context, p, pt.value) ==>
         s.gpu.Executed(s.primary.context, p)
  }

  lemma ReachedIsShown(s: Kmt, pt: Point)
    requires KmtInv(s) && Covered(s, pt)
    ensures Reached(s, pt) <==> pt.value <= s.gpu.Completed(s.primary.fence)
  {
    hide JoinedUpTo, AllRetired;
    assert OnTimeline(s.gpu, Line(s, 0));
    var p: nat :| pt.marks[0] <= p && s.gpu.IsSignal(s.primary.fence, s.primary.context, p, pt.value)
                  && JoinedUpTo(s, |s.joined|, pt.value, pt.marks, p);
    if pt.value <= s.gpu.Completed(s.primary.fence) { ReachedPointRetired(s, pt); }
  }

  // What GetCompletedValue reports as reached has been reached if and only if the binding is valid, or the
  // value that the fence shows has come up to the last accepted point.
  lemma ObservedIsRetired(s: Kmt, actions: seq<Action>)
    requires Fresh(s)
    ensures var h := Run(History(s, []), actions);
            (forall i :: 0 <= i < |h.points| && h.points[i].value <= Observed(h.kmt) ==> Reached(h.kmt, h.points[i]))
            <==>
            (h.kmt.valid || h.points == []
             || h.points[|h.points| - 1].value <= h.kmt.gpu.Completed(h.kmt.primary.fence))
  {
    hide Run, Reached, KmtInv, Covered;
    FreshStarts(s);
    RunKeeps(History(s, []), actions);
    var h := Run(History(s, []), actions);
    forall i | 0 <= i < |h.points|
      ensures Reached(h.kmt, h.points[i]) <==> h.points[i].value <= h.kmt.gpu.Completed(h.kmt.primary.fence)
    {
      ReachedIsShown(h.kmt, h.points[i]);
    }
  }

  // A device with one queued piece of work, and the same after one accepted point.
  const BUSY := Kmt(Gpu([Queue([Work(7)], 0)], map[]), [], true, true, Timeline(0, 1, 0), [])
  const SIGNALLED := History(
    Kmt(Gpu([Queue([Work(7), Signal(1, 1)], 0)], map[]), [], true, true, Timeline(0, 1, 1), []), [Point(1, [1])])

  lemma BusyIsSignalled()
    ensures Fresh(BUSY) && Act(History(BUSY, []), Automatic([Turn([], true)])) == SIGNALLED
    ensures !AllRetired(SIGNALLED.kmt.(valid := false), Point(1, [1]))
  {
    var submitted := BUSY.(script := [Turn([], true)]);
    assert Others(BUSY.gpu, [], submitted.Owned()) == BUSY.gpu;
    assert [Work(7)] + [Signal(1, 1)] == [Work(7), Signal(1, 1)];
    assert Append(BUSY.gpu, 0, Signal(1, 1)) == SIGNALLED.kmt.gpu;
    assert JoinFrom(submitted, 0, 1) == SignalPrimary(submitted, 1);
    assert Marks(BUSY) == [1];
    assert Line(SIGNALLED.kmt.(valid := false), 0).context == 0;
  }

  // With an invalid binding it need not be: the binding goes away before anything executes.
  lemma InvalidBindingReportsUnretired()
    ensures var h := Run(History(BUSY, []), [Automatic([Turn([], true)]), Invalidate]);
            Fresh(BUSY) && |h.points| == 1 && h.points[0].value <= Observed(h.kmt) && !AllRetired(h.kmt, h.points[0])
  {
    hide AllRetired, Fresh;
    BusyIsSignalled();
    var actions := [Automatic([Turn([], true)]), Invalidate];
    assert actions[1..] == [Invalidate] && actions[1..][1..] == [];
    assert Run(SIGNALLED, [Invalidate]) == Run(Act(SIGNALLED, Invalidate), []);
  }

  // ---- The same as objects updated in place ----

  lemma SameFences(s: Kmt, s': Kmt)
    requires s'.primary.fence == s.primary.fence && |s'.joined| == |s.joined|
    requires forall i :: 0 <= i < |s.joined| ==> s'.joined[i].fence == s.joined[i].fence
    ensures s'.Owned() == s.Owned()
  {
  }

  // The native device: its queues, and what will happen before and at the coming calls.
  class Device {
    var gpu: Gpu
    var script: seq<Turn>
    const owned: set<nat>

    constructor (gpu: Gpu, script: seq<Turn>, owned: set<nat>)
      ensures this.gpu == gpu && this.script == script && this.owned == owned
    {
      this.gpu, this.script, this.owned := gpu, script, owned;
    }

    // A native signal or wait submission.
    method Call(q: nat, op: Op) returns (ok: bool)
      modifies this
      ensures Submission(gpu, script, ok) == Submit(old(gpu), old(script), owned, q, op)
    {
      if script == [] { return false; }
      gpu := Others(gpu, script[0].before, owned);
      ok := script[0].accepted;
      if ok { gpu := Append(gpu, q, op); }
      script := script[1..];
    }
  }

  class D3DKMTFence {
    const device: Device
    const context: nat
    const fence: nat
    const canWait: bool
    var bindingValid: bool
    var value: nat
    const joinedContexts: seq<D3DKMTFence>

    ghost predicate Valid()
      reads this, device, joinedContexts
    {
      && (forall i :: 0 <= i < |joinedContexts| ==> joinedContexts[i] != this && joinedContexts[i].device == device)
      && (forall i, j :: 0 <= i < j < |joinedContexts| ==> joinedContexts[i] != joinedContexts[j])
      && device.owned == Abstract().Owned()
    }

    function Own(): Timeline
      reads this
    {
      Timeline(context, fence, value)
    }

    function Abstract(): (s: Kmt)
      reads this, device, joinedContexts
      ensures |s.joined| == |joinedContexts|
    {
      Kmt(device.gpu, device.script, bindingValid, canWait, Own(),
          seq(|joinedContexts|, i requires 0 <= i < |joinedContexts| reads joinedContexts => joinedContexts[i].Own()))
    }

    constructor (device: Device, context: nat, fence: nat, canWait: bool, joined: seq<D3DKMTFence>)
      ensures this.device == device && this.context == context && this.fence == fence && this.canWait == canWait
      ensures joinedContexts == joined && bindingValid && value == 0
    {
      this.device, this.context, this.fence, this.canWait := device, context, fence, canWait;
      joinedContexts, bindingValid, value := joined, true, 0;
    }

    // The lambda signal_context, for this producer.
    method SignalContext(target: nat) returns (ok: bool)
      modifies this`value, device
      ensures if target <= old(value)
              then !ok && value == old(value) && device.gpu == old(device.gpu) && device.script == old(device.script)
              else && Submission(device.gpu, device.script, ok)
                      == Submit(old(device.gpu), old(device.script), device.owned, context, Signal(fence, target))
                   && value == if ok then target else old(value)
    {
      if target <= value { return false; }
      ok := device.Call(context, Signal(fence, target));
      if ok { value := target; }
    }

    // One joined context inside QueueFence: its signal, and the wait of the primary for it.
    method SignalJoinedContext(i: nat, target: nat) returns (ok: bool)
      requires Valid() && i < |joinedContexts|
      modifies device, joinedContexts
      ensures Valid() && (Abstract(), ok) == SignalJoined(old(Abstract()), i, target)
      ensures joinedContexts[i].fence == Abstract().joined[i].fence
      ensures forall k :: 0 <= k < |joinedContexts| ==>
                joinedContexts[k].bindingValid == old(joinedContexts[k].bindingValid)
    {
      ghost var before := Abstract();
      ok := joinedContexts[i].SignalContext(target);
      assert Abstract().joined == if ok then before.joined[i := before.joined[i].(value := target)] else before.joined;
      assert Abstract().Owned() == before.Owned() by { SameFences(before, Abstract()); }
    }

    method WaitForJoined(i: nat, target: nat) returns (ok: bool)
      requires Valid() && i < |joinedContexts|
      modifies device
      ensures Valid() && (Abstract(), ok) == JoinWait(old(Abstract()), i, target)
    {
      ghost var before := Abstract();
      assert before.joined[i] == joinedContexts[i].Own();
      ok := device.Call(context, Wait(joinedContexts[i].fence, target));
      assert Abstract().joined == before.joined;
    }

    method QueueFence(target: nat) returns (ok: bool)
      requires Valid()
      modifies this`value, device, joinedContexts
      ensures Valid() && (Abstract(), ok) == AfterQueueFence(old(Abstract()), target)
    {
      hide SignalJoined, JoinWait, SignalPrimary, Submit;
      ghost var start := Abstract();
      if !bindingValid { return false; }
      if target <= value || target >= MAX_UINT64 - 1 { return false; }
      if joinedContexts != [] && !canWait { return false; }
      for i := 0 to |joinedContexts|
        invariant forall k :: 0 <= k < i ==> start.joined[k].value < target
      {
        assert start.joined[i] == joinedContexts[i].Own();
        if target <= joinedContexts[i].value { return false; }
      }
      for i := 0 to |joinedContexts|
        invariant Valid() && JoinFrom(Abstract(), i, target) == JoinFrom(start, 0, target)
      {
        ok := SignalJoinedContext(i, target);
        if !ok { return false; }
        ok := WaitForJoined(i, target);
        if !ok { return false; }
      }
      ok := SignalOwnContext(target);
    }

    method SignalOwnContext(target: nat) returns (ok: bool)
      requires Valid()
      modifies this`value, device
      ensures Valid() && (Abstract(), ok) == SignalPrimary(old(Abstract()), target)
    {
      ghost var before := Abstract();
      ok := SignalContext(target);
      assert Abstract().joined == before.joined;
    }

    // QueueFence(): the next point, or 0.
    method QueueNext() returns (point: nat)
      requires Valid()
      modifies this`value, device, joinedContexts
      ensures Valid() && (Abstract(), point) == AfterQueueNext(old(Abstract()))
    {
      hide AfterQueueFence;
      if value >= MAX_UINT64 - 2 { return 0; }
      var ok := QueueFence(value + 1);
      if !ok { return 0; }
      return value;
    }

    // GetCompletedValue.
    method GetCompletedValue() returns (v: nat)
      requires Valid()
      ensures v == Observed(Abstract())
    {
      if !bindingValid { return MAX_UINT64; }
      return device.gpu.Completed(fence);
    }
  }
}
