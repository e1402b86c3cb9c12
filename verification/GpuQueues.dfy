// GPU contexts as FIFO queues of work, fence signals and fence waits, executed in any interleaving.
module GpuQueues {

  datatype Op = Work(id: nat) | Signal(fence: nat, value: nat) | Wait(fence: nat, value: nat)

  // Everything ever enqueued, of which the first `done` operations have executed.
  datatype Queue = Queue(log: seq<Op>, done: nat)

  datatype Gpu = Gpu(queues: seq<Queue>, completed: map<nat, nat>) {
    // The value a fence shows; fences start at zero.
    function Completed(fence: nat): nat {
      if fence in completed then completed[fence] else 0
    }

    predicate Has(q: nat, p: nat) {
      q < |queues| && p < |queues[q].log|
    }

    predicate IsSignal(fence: nat, q: nat, p: nat, v: nat) {
      Has(q, p) && queues[q].log[p] == Signal(fence, v)
    }

    predicate IsWait(fence: nat, q: nat, p: nat, v: nat) {
      Has(q, p) && queues[q].log[p] == Wait(fence, v)
    }

    predicate Executed(q: nat, p: nat) {
      q < |queues| && p < queues[q].done
    }

    function Length(q: nat): nat {
      if q < |queues| then |queues[q].log| else 0
    }

    ghost predicate Valid() {
      forall q :: 0 <= q < |queues| ==> queues[q].done <= |queues[q].log|
    }
  }

  // The host appends an operation to a queue.
  function Append(g: Gpu, q: nat, op: Op): Gpu {
    if q < |g.queues| then g.(queues := g.queues[q := g.queues[q].(log := g.queues[q].log + [op])]) else g
  }

  predicate Ready(g: Gpu, q: nat) {
    && q < |g.queues|
    && g.queues[q].done < |g.queues[q].log|
    && var op := g.queues[q].log[g.queues[q].done];
       op.Wait? ==> op.value <= g.Completed(op.fence)
  }

  // A queue executes its next operation; a wait holds the queue until the fence has reached its value.
  function Execute(g: Gpu, q: nat): Gpu {
    if !Ready(g, q) then g
    else
      var op := g.queues[q].log[g.queues[q].done];
      var queues := g.queues[q := g.queues[q].(done := g.queues[q].done + 1)];
      Gpu(queues, if op.Signal? then g.completed[op.fence := op.value] else g.completed)
  }

  // ---- What keeps one fence's timeline in order ----

  // Of two signals, the larger one cannot execute before the smaller: it comes later in the same
  // queue, or behind a wait for at least the smaller value.
  ghost predicate Behind(g: Gpu, fence: nat, q: nat, p: nat, v: nat, q': nat, p': nat) {
    || (q == q' && p < p')
    || exists i: nat, w: nat :: i < p' && v <= w && g.IsWait(fence, q', i, w)
  }

  ghost predicate Guarded(g: Gpu, fence: nat) {
    forall q: nat, p: nat, v: nat, q': nat, p': nat, v': nat ::
      g.IsSignal(fence, q, p, v) && g.IsSignal(fence, q', p', v') && v < v' ==> Behind(g, fence, q, p, v, q', p')
  }

  ghost predicate Distinct(g: Gpu, fence: nat) {
    forall q: nat, p: nat, v: nat, q': nat, p': nat ::
      g.IsSignal(fence, q, p, v) && g.IsSignal(fence, q', p', v) ==> q == q' && p == p'
  }

  // A signal has executed exactly when the fence has reached its value.
  ghost predicate Faithful(g: Gpu, fence: nat) {
    forall q: nat, p: nat, v: nat :: g.IsSignal(fence, q, p, v) ==> (g.Executed(q, p) <==> v <= g.Completed(fence))
  }

  ghost predicate WaitsHold(g: Gpu, fence: nat) {
    forall q: nat, p: nat, v: nat :: g.IsWait(fence, q, p, v) && g.Executed(q, p) ==> v <= g.Completed(fence)
  }

  ghost predicate InOrder(g: Gpu, fence: nat) {
    g.Valid() && Guarded(g, fence) && Distinct(g, fence) && Faithful(g, fence) && WaitsHold(g, fence)
  }

  // ---- GPU steps ----

  lemma ExecuteKeepsLogs(g: Gpu, q: nat)
    ensures |Execute(g, q).queues| == |g.queues|
    ensures forall k :: 0 <= k < |g.queues| ==> Execute(g, q).queues[k].log == g.queues[k].log
    ensures forall k :: 0 <= k < |g.queues| ==> g.queues[k].done <= Execute(g, q).queues[k].done
    ensures g.Valid() ==> Execute(g, q).Valid()
  {
  }

  // The next signal in line is the next value of its fence.
  lemma NextSignalIsLeast(g: Gpu, fence: nat, q: nat, v: nat, q': nat, p': nat, v': nat)
    requires InOrder(g, fence) && q < |g.queues| && g.IsSignal(fence, q, g.queues[q].done, v)
    requires g.IsSignal(fence, q', p', v') && !(q' == q && p' == g.queues[q].done)
    ensures v' <= g.Completed(fence) || v < v'
    ensures g.Completed(fence) < v
  {
    if v' < v { assert Behind(g, fence, q', p', v', q, g.queues[q].done); }
  }

  lemma ExecuteKeepsOrder(g: Gpu, fence: nat, q: nat)
    requires InOrder(g, fence)
    ensures InOrder(Execute(g, q), fence)
    ensures g.Completed(fence) <= Execute(g, q).Completed(fence)
  {
    var g' := Execute(g, q);
    ExecuteKeepsLogs(g, q);
    SameLogsKeepGuards(g, g', fence);
    if Ready(g, q) {
      var p := g.queues[q].done;
      if g.queues[q].log[p].Signal? && g.queues[q].log[p].fence == fence {
        var v := g.queues[q].log[p].value;
        assert g.IsSignal(fence, q, p, v);
        forall q': nat, p': nat, v': nat | g'.IsSignal(fence, q', p', v')
          ensures g'.Executed(q', p') <==> v' <= g'.Completed(fence)
        {
          assert g.IsSignal(fence, q', p', v');
          if !(q' == q && p' == p) { NextSignalIsLeast(g, fence, q, v, q', p', v'); }
        }
        assert g.Completed(fence) < v;
        forall q': nat, p': nat, w: nat | g'.IsWait(fence, q', p', w) && g'.Executed(q', p')
          ensures w <= g'.Completed(fence)
        {
          assert g.IsWait(fence, q', p', w);
        }
      } else {
        forall q': nat, p': nat, v': nat | g'.IsSignal(fence, q', p', v')
          ensures g'.Executed(q', p') <==> v' <= g'.Completed(fence)
        {
          assert g.IsSignal(fence, q', p', v');
        }
        forall q': nat, p': nat, w: nat | g'.IsWait(fence, q', p', w) && g'.Executed(q', p')
          ensures w <= g'.Completed(fence)
        {
          assert g.IsWait(fence, q', p', w);
        }
      }
    }
  }

  lemma SameLogsKeepGuards(g: Gpu, g': Gpu, fence: nat)
    requires Guarded(g, fence) && Distinct(g, fence)
    requires |g'.queues| == |g.queues| && forall k :: 0 <= k < |g.queues| ==> g'.queues[k].log == g.queues[k].log
    ensures Guarded(g', fence) && Distinct(g', fence)
  {
    forall q: nat, p: nat, v: nat, q': nat, p': nat, v': nat
      | g'.IsSignal(fence, q, p, v) && g'.IsSignal(fence, q', p', v') && v < v'
      ensures Behind(g', fence, q, p, v, q', p')
    {
      assert g.IsSignal(fence, q, p, v) && g.IsSignal(fence, q', p', v');
      assert Behind(g, fence, q, p, v, q', p');
      if !(q == q' && p < p') {
        var i: nat, w: nat :| i < p' && v <= w && g.IsWait(fence, q', i, w);
        assert g'.IsWait(fence, q', i, w);
      }
    }
    forall q: nat, p: nat, v: nat, q': nat, p': nat | g'.IsSignal(fence, q, p, v) && g'.IsSignal(fence, q', p', v)
      ensures q == q' && p == p'
    {
      assert g.IsSignal(fence, q, p, v) && g.IsSignal(fence, q', p', v);
    }
  }

  // ---- Host steps ----

  lemma AppendedOps(g: Gpu, q: nat, op: Op)
    requires q < |g.queues|
    ensures |Append(g, q, op).queues| == |g.queues|
    ensures forall k :: 0 <= k < |g.queues| ==> Append(g, q, op).queues[k].done == g.queues[k].done
    ensures forall k: nat, p: nat :: Append(g, q, op).Has(k, p) <==> g.Has(k, p) || (k == q && p == g.Length(q))
    ensures forall k: nat, p: nat :: g.Has(k, p) ==> Append(g, q, op).queues[k].log[p] == g.queues[k].log[p]
    ensures Append(g, q, op).queues[q].log[g.Length(q)] == op
    ensures g.Valid() ==> Append(g, q, op).Valid()
  {
  }

  // Appending an operation keeps the order, provided that a signal of this fence brings a new highest
  // value and comes behind all earlier ones.
  lemma AppendKeepsOrder(g: Gpu, fence: nat, q: nat, op: Op)
    requires InOrder(g, fence) && q < |g.queues|
    requires op.Signal? && op.fence == fence ==>
               && g.Completed(fence) < op.value
               && forall q': nat, p': nat, v': nat :: g.IsSignal(fence, q', p', v') ==>
                    v' < op.value && Behind(g, fence, q', p', v', q, g.Length(q))
    ensures InOrder(Append(g, q, op), fence)
    ensures Append(g, q, op).Completed(fence) == g.Completed(fence)
  {
    var g' := Append(g, q, op);
    AppendedOps(g, q, op);
    var last := g.Length(q);
    forall q1: nat, p1: nat, v1: nat, q2: nat, p2: nat, v2: nat
      | g'.IsSignal(fence, q1, p1, v1) && g'.IsSignal(fence, q2, p2, v2) && v1 < v2
      ensures Behind(g', fence, q1, p1, v1, q2, p2)
    {
      assert g.IsSignal(fence, q1, p1, v1) || (q1 == q && p1 == last);
      assert g.IsSignal(fence, q2, p2, v2) || (q2 == q && p2 == last);
      if g.IsSignal(fence, q1, p1, v1) {
        assert Behind(g, fence, q1, p1, v1, q2, p2);
        if !(q1 == q2 && p1 < p2) {
          var i: nat, w: nat :| i < p2 && v1 <= w && g.IsWait(fence, q2, i, w);
          assert g'.IsWait(fence, q2, i, w);
        }
      }
    }
    forall q1: nat, p1: nat, v: nat, q2: nat, p2: nat | g'.IsSignal(fence, q1, p1, v) && g'.IsSignal(fence, q2, p2, v)
      ensures q1 == q2 && p1 == p2
    {
      assert g.IsSignal(fence, q1, p1, v) || (q1 == q && p1 == last);
      assert g.IsSignal(fence, q2, p2, v) || (q2 == q && p2 == last);
    }
    forall q1: nat, p1: nat, v: nat | g'.IsSignal(fence, q1, p1, v)
      ensures g'.Executed(q1, p1) <==> v <= g'.Completed(fence)
    {
      assert g.IsSignal(fence, q1, p1, v) || (q1 == q && p1 == last);
    }
    forall q1: nat, p1: nat, v: nat | g'.IsWait(fence, q1, p1, v) && g'.Executed(q1, p1)
      ensures v <= g'.Completed(fence)
    {
      assert g.IsWait(fence, q1, p1, v);
    }
  }

  // ---- The rest of the host, between the calls of one fence ----

  datatype HostStep = Run(q: nat) | Enqueue(q: nat, op: Op)

  // Nobody else signals the fences in `owned`.
  function Other(g: Gpu, step: HostStep, owned: set<nat>): Gpu {
    match step
    case Run(q) => Execute(g, q)
    case Enqueue(q, op) => if op.Signal? && op.fence in owned then g else Append(g, q, op)
  }

  function Others(g: Gpu, steps: seq<HostStep>, owned: set<nat>): Gpu
    decreases |steps|
  {
    if steps == [] then g else Others(Other(g, steps[0], owned), steps[1..], owned)
  }

  // Queues only grow and only move forward.
  ghost predicate Extends(g: Gpu, g': Gpu) {
    && |g'.queues| == |g.queues|
    && (forall q :: 0 <= q < |g.queues| ==>
          g.queues[q].log <= g'.queues[q].log && g.queues[q].done <= g'.queues[q].done)
  }

  lemma ExtendsTransitive(a: Gpu, b: Gpu, c: Gpu)
    requires Extends(a, b) && Extends(b, c)
    ensures Extends(a, c)
  {
  }

  lemma ExtendsKeepsOps(g: Gpu, g': Gpu, fence: nat, q: nat, p: nat, v: nat)
    requires Extends(g, g')
    ensures g.IsSignal(fence, q, p, v) ==> g'.IsSignal(fence, q, p, v)
    ensures g.IsWait(fence, q, p, v) ==> g'.IsWait(fence, q, p, v)
    ensures g.Length(q) <= g'.Length(q)
  {
  }

  // No signal of this fence was added.
  ghost predicate NoNewSignals(g: Gpu, g': Gpu, fence: nat) {
    forall q: nat, p: nat, v: nat :: g'.IsSignal(fence, q, p, v) ==> g.IsSignal(fence, q, p, v)
  }

  lemma OtherKeepsOrder(g: Gpu, step: HostStep, owned: set<nat>, fence: nat)
    requires InOrder(g, fence) && fence in owned
    ensures var g' := Other(g, step, owned);
            && InOrder(g', fence) && Extends(g, g') && NoNewSignals(g, g', fence)
            && g.Completed(fence) <= g'.Completed(fence)
  {
    match step
    case Run(q) =>
      ExecuteKeepsOrder(g, fence, q);
      ExecuteKeepsLogs(g, q);
      SameLogsSameSignals(g, Execute(g, q), fence);
    case Enqueue(q, op) =>
      if q < |g.queues| && !(op.Signal? && op.fence in owned) {
        AppendKeepsOrder(g, fence, q, op);
        AppendKeepsSignals(g, q, op, fence);
      }
  }

  lemma SameLogsSameSignals(g: Gpu, g': Gpu, fence: nat)
    requires |g'.queues| == |g.queues| && forall k :: 0 <= k < |g.queues| ==> g'.queues[k].log == g.queues[k].log
    ensures NoNewSignals(g, g', fence)
  {
  }

  lemma AppendKeepsSignals(g: Gpu, q: nat, op: Op, fence: nat)
    requires q < |g.queues|
    ensures Extends(g, Append(g, q, op))
    ensures !(op.Signal? && op.fence == fence) ==> NoNewSignals(g, Append(g, q, op), fence)
  {
    AppendedOps(g, q, op);
  }

  lemma {:induction false} OthersKeepOrder(g: Gpu, steps: seq<HostStep>, owned: set<nat>, fence: nat)
    requires InOrder(g, fence) && fence in owned
    ensures var g' := Others(g, steps, owned);
            && InOrder(g', fence) && Extends(g, g') && NoNewSignals(g, g', fence)
            && g.Completed(fence) <= g'.Completed(fence)
    decreases |steps|
  {
    if steps != [] {
      OtherKeepsOrder(g, steps[0], owned, fence);
      OthersKeepOrder(Other(g, steps[0], owned), steps[1..], owned, fence);
      ExtendsTransitive(g, Other(g, steps[0], owned), Others(g, steps, owned));
    }
  }

  // ---- A driver call that may fail, with the rest of the host running in between ----

  datatype Turn = Turn(before: seq<HostStep>, accepted: bool)

  datatype Submission = Submission(gpu: Gpu, script: seq<Turn>, ok: bool)

  // `script` decides what happens before each coming call and whether the call is accepted.
  function Submit(g: Gpu, script: seq<Turn>, owned: set<nat>, q: nat, op: Op): Submission {
    if script == [] then Submission(g, [], false)
    else
      var g' := Others(g, script[0].before, owned);
      Submission(if script[0].accepted then Append(g', q, op) else g', script[1..], script[0].accepted)
  }

  lemma SubmitOk(g: Gpu, script: seq<Turn>, owned: set<nat>, q: nat, op: Op)
    ensures Submit(g, script, owned, q, op).ok <==> script != [] && script[0].accepted
    ensures Submit(g, script, owned, q, op).script == if script == [] then [] else script[1..]
  {
  }

  // The driver grants exactly the next m of n calls, if that often called on.
  predicate Grants(script: seq<Turn>, n: nat, m: nat) {
    && m <= n && m <= |script|
    && (forall k :: 0 <= k < m ==> script[k].accepted)
    && (m < n ==> m == |script| || !script[m].accepted)
  }

  lemma {:induction false} SomeGrants(script: seq<Turn>, n: nat) returns (m: nat)
    ensures Grants(script, n, m)
    ensures m == n <==> n <= |script| && forall k :: 0 <= k < n ==> script[k].accepted
    decreases n
  {
    if n == 0 || script == [] || !script[0].accepted {
      m := 0;
    } else {
      var m' := SomeGrants(script[1..], n - 1);
      m := m' + 1;
      forall k | 0 <= k < m ensures script[k].accepted { if k > 0 { assert script[1..][k - 1] == script[k]; } }
      if m < n && m < |script| { assert script[1..][m - 1] == script[m]; }
    }
  }

  lemma GrantsRest(script: seq<Turn>, n: nat, m: nat)
    requires Grants(script, n, m)
    ensures m == 0 && n > 0 ==> script == [] || !script[0].accepted
    ensures m > 0 ==> script != [] && script[0].accepted && Grants(script[1..], n - 1, m - 1)
  {
  }

  // Everything enqueued on the queue before `mark` has executed.
  ghost predicate Retired(g: Gpu, q: nat, mark: nat) {
    q < |g.queues| && mark <= g.queues[q].done
  }

  // A fence that shows a value has executed the signal of that value and all before it in its queue.
  lemma ReachedMeansExecuted(g: Gpu, fence: nat, q: nat, p: nat, v: nat)
    requires InOrder(g, fence) && g.IsSignal(fence, q, p, v) && v <= g.Completed(fence)
    ensures Retired(g, q, p + 1)
  {
  }

  lemma {:induction false} OthersSameQueues(g: Gpu, steps: seq<HostStep>, owned: set<nat>)
    ensures |Others(g, steps, owned).queues| == |g.queues|
    decreases |steps|
  {
    if steps != [] {
      ExecuteKeepsLogs(g, if steps[0].Run? then steps[0].q else 0);
      OthersSameQueues(Other(g, steps[0], owned), steps[1..], owned);
    }
  }
}
