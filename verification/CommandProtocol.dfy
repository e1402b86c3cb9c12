// What RunCallbacks does with the callbacks it selects: invoke them, replay the command, run the post
// callbacks and finalize, with early exit on a bypass.
module CommandProtocol {

  datatype Command = Draw | DrawIndexed | Dispatch | Indirect | DispatchMesh

  // The thunk to invoke for one kind of command, and the identity and configuration it was made from.
  datatype Callback = Callback(command: Command, invoke: nat, identity: nat, data: nat)

  // The shader that a callback was selected for.
  datatype Matched = NoShader | Shader(hash: nat, stage: nat, pipeline: nat, details: nat)

  datatype Call = Call(callback: Callback, matched: Matched)

  // Callbacks are numbers here; 0 is the null pointer.
  datatype Result = Result(post: nat, finalize: nat, data: nat, bypass: bool, replay: bool)

  // What can be observed; `index` is the invocation that returned a deferred callback.
  datatype Event =
    | Invoked(call: Call)
    | Original
    | Post(index: nat, call: Call, callback: nat, data: nat)
    | Finalized(index: nat, call: Call, callback: nat, data: nat)

  datatype Pending = Pending(index: nat, call: Call, result: Result)

  datatype Progress = Progress(trace: seq<Event>, pending: seq<Pending>, invoked: nat, replay: bool, bypassed: bool)

  const IDLE := Progress([], [], 0, false, false)

  predicate Defers(r: Result) {
    r.post != 0 || r.finalize != 0
  }

  function PostBy(index: nat, call: Call, r: Result): seq<Event> {
    if r.post != 0 then [Post(index, call, r.post, r.data)] else []
  }

  function FinalBy(index: nat, call: Call, r: Result): seq<Event> {
    if r.finalize != 0 then [Finalized(index, call, r.finalize, r.data)] else []
  }

  function Posts(pending: seq<Pending>): seq<Event> {
    if pending == [] then []
    else
      var p := pending[|pending| - 1];
      Posts(pending[..|pending| - 1]) + PostBy(p.index, p.call, p.result)
  }

  function Finals(pending: seq<Pending>): seq<Event> {
    if pending == [] then []
    else
      var p := pending[|pending| - 1];
      FinalBy(p.index, p.call, p.result) + Finals(pending[..|pending| - 1])
  }

  function WithPending(r: Progress, call: Call, answer: Result): seq<Pending> {
    if Defers(answer) then r.pending + [Pending(r.invoked, call, answer)] else r.pending
  }

  function Invoke(r: Progress, call: Call, answer: Result): Progress {
    if r.bypassed then r
    else
      var pending := WithPending(r, call, answer);
      var invoked := r.trace + [Invoked(call)];
      var trace := if answer.bypass then invoked + Finals(pending) else invoked;
      Progress(trace, pending, r.invoked + 1, r.replay || answer.replay || Defers(answer), answer.bypass)
  }

  // The answer of invocation number i is `answers(i)`.
  function InvokeAll(r: Progress, calls: seq<Call>, answers: nat -> Result): Progress
    decreases |calls|
  {
    if calls == [] then r
    else
      var r' := InvokeAll(r, calls[..|calls| - 1], answers);
      Invoke(r', calls[|calls| - 1], answers(r'.invoked))
  }

  // The events of one command and whether the add-on suppresses the host's own execution of it.
  function Conclude(r: Progress): (seq<Event>, bool) {
    if r.bypassed then (r.trace, true)
    else if r.invoked == 0 || !r.replay then (r.trace, false)
    else (r.trace + [Original] + Posts(r.pending) + Finals(r.pending), true)
  }

  // Everything that happens for the command, by the add-on or by the host.
  function Performed(calls: seq<Call>, answers: nat -> Result): seq<Event> {
    var done := Conclude(InvokeAll(IDLE, calls, answers));
    if done.1 then done.0 else done.0 + [Original]
  }

  // ---- The shape of a command's events, stated from the answers alone ----

  // How many callbacks get to run: all, or up to and including the first that asks for a bypass.
  function RunCount(n: nat, answers: nat -> Result): (k: nat)
    ensures k <= n
  {
    if n == 0 then 0
    else
      var k := RunCount(n - 1, answers);
      if k < n - 1 || (k > 0 && answers(k - 1).bypass) then k else n
  }

  predicate Bypassing(n: nat, answers: nat -> Result) {
    var k := RunCount(n, answers);
    k > 0 && answers(k - 1).bypass
  }

  function Invocations(calls: seq<Call>): seq<Event> {
    seq(|calls|, i requires 0 <= i < |calls| => Invoked(calls[i]))
  }

  function PostsOf(calls: seq<Call>, answers: nat -> Result): seq<Event> {
    if calls == [] then []
    else
      var n := |calls| - 1;
      PostsOf(calls[..n], answers) + PostBy(n, calls[n], answers(n))
  }

  function FinalizersOf(calls: seq<Call>, answers: nat -> Result): seq<Event> {
    if calls == [] then []
    else
      var n := |calls| - 1;
      FinalizersOf(calls[..n], answers) + FinalBy(n, calls[n], answers(n))
  }

  function Reverse(es: seq<Event>): (r: seq<Event>)
    ensures |r| == |es|
  {
    if es == [] then [] else [es[|es| - 1]] + Reverse(es[..|es| - 1])
  }

  lemma RunCountIsFirstBypass(n: nat, answers: nat -> Result)
    ensures var k := RunCount(n, answers);
            && (forall i :: 0 <= i < k - 1 ==> !answers(i).bypass)
            && (k < n ==> k > 0 && answers(k - 1).bypass)
            && (Bypassing(n, answers) <==> exists i :: 0 <= i < n && answers(i).bypass)
  {
    if n > 0 { RunCountIsFirstBypass(n - 1, answers); }
  }

  // What the invocation loop holds after the first k of `calls` have been invoked.
  ghost predicate Holds(r: Progress, calls: seq<Call>, answers: nat -> Result, bypassed: bool) {
    && r.invoked == |calls| && r.bypassed == bypassed
    && r.trace == (if bypassed then Invocations(calls) + Reverse(FinalizersOf(calls, answers)) else Invocations(calls))
    && Posts(r.pending) == PostsOf(calls, answers)
    && Finals(r.pending) == Reverse(FinalizersOf(calls, answers))
    && (!r.replay ==> PostsOf(calls, answers) == [] && FinalizersOf(calls, answers) == [])
  }

  lemma PendingGrows(r: Progress, call: Call, answer: Result)
    ensures Posts(WithPending(r, call, answer)) == Posts(r.pending) + PostBy(r.invoked, call, answer)
    ensures Finals(WithPending(r, call, answer)) == FinalBy(r.invoked, call, answer) + Finals(r.pending)
  {
    var p := Pending(r.invoked, call, answer);
    assert (r.pending + [p])[..|r.pending|] == r.pending;
  }

  lemma ReverseLast(es: seq<Event>, last: seq<Event>)
    requires |last| <= 1
    ensures Reverse(es + last) == last + Reverse(es)
  {
    if |last| == 1 {
      assert (es + last)[..|es|] == es;
    } else {
      assert es + last == es;
    }
  }

  lemma NoneAdded(es: seq<Event>, more: seq<Event>)
    ensures es == [] && more == [] ==> es + more == []
  {
  }

  lemma InvocationsLast(calls: seq<Call>)
    requires |calls| > 0
    ensures Invocations(calls) == Invocations(calls[..|calls| - 1]) + [Invoked(calls[|calls| - 1])]
  {
  }

  lemma DeferredLast(calls: seq<Call>, answers: nat -> Result)
    requires |calls| > 0
    ensures var n := |calls| - 1;
            && PostsOf(calls, answers) == PostsOf(calls[..n], answers) + PostBy(n, calls[n], answers(n))
            && FinalizersOf(calls, answers) == FinalizersOf(calls[..n], answers) + FinalBy(n, calls[n], answers(n))
            && (!Defers(answers(n)) ==> PostBy(n, calls[n], answers(n)) == [] && FinalBy(n, calls[n], answers(n)) == [])
  {
  }

  lemma FinalByShort(index: nat, call: Call, r: Result)
    ensures |FinalBy(index, call, r)| <= 1
  {
  }

  lemma InvokeHolds(r: Progress, calls: seq<Call>, answers: nat -> Result)
    requires |calls| > 0 && Holds(r, calls[..|calls| - 1], answers, false)
    ensures Holds(Invoke(r, calls[|calls| - 1], answers(|calls| - 1)), calls, answers, answers(|calls| - 1).bypass)
  {
    hide Posts, Finals, Reverse, Invocations, WithPending, PostBy, FinalBy, PostsOf, FinalizersOf, Defers;
    var n := |calls| - 1;
    var call, answer, before := calls[n], answers(n), calls[..n];
    DeferredLast(calls, answers);
    PendingGrows(r, call, answer);
    FinalByShort(n, call, answer);
    ReverseLast(FinalizersOf(before, answers), FinalBy(n, call, answer));
    InvocationsLast(calls);
    NoneAdded(PostsOf(before, answers), PostBy(n, call, answer));
    NoneAdded(FinalizersOf(before, answers), FinalBy(n, call, answer));
  }

  lemma RunCountStep(n: nat, answers: nat -> Result)
    ensures if Bypassing(n, answers)
            then RunCount(n + 1, answers) == RunCount(n, answers) && Bypassing(n + 1, answers)
            else RunCount(n, answers) == n && RunCount(n + 1, answers) == n + 1
                 && Bypassing(n + 1, answers) == answers(n).bypass
  {
    RunCountIsFirstBypass(n, answers);
  }

  lemma InvokeAllLast(calls: seq<Call>, answers: nat -> Result)
    requires |calls| > 0
    ensures var r := InvokeAll(IDLE, calls[..|calls| - 1], answers);
            InvokeAll(IDLE, calls, answers) == Invoke(r, calls[|calls| - 1], answers(r.invoked))
  {
  }

  lemma PrefixOfPrefix(calls: seq<Call>, n: nat, k: nat)
    requires k <= n <= |calls|
    ensures calls[..n][..k] == calls[..k]
  {
  }

  lemma {:induction false} InvokedSoFar(calls: seq<Call>, answers: nat -> Result)
    ensures Holds(InvokeAll(IDLE, calls, answers), calls[..RunCount(|calls|, answers)], answers,
                  Bypassing(|calls|, answers))
    decreases |calls|
  {
    if calls != [] {
      var n := |calls| - 1;
      InvokedSoFar(calls[..n], answers);
      hide *;
      InvokeAllLast(calls, answers);
      RunCountStep(n, answers);
      PrefixOfPrefix(calls, n, RunCount(n, answers));
      var r := InvokeAll(IDLE, calls[..n], answers);
      if Bypassing(n, answers) {
        BypassStays(r, calls, answers);
      } else {
        assert calls[..n + 1] == calls;
        HoldsCount(r, calls[..n], answers, false);
        InvokeHolds(r, calls, answers);
      }
    }
  }

  lemma HoldsCount(r: Progress, calls: seq<Call>, answers: nat -> Result, bypassed: bool)
    requires Holds(r, calls, answers, bypassed)
    ensures r.invoked == |calls| && r.bypassed == bypassed
  {
  }

  lemma BypassStays(r: Progress, calls: seq<Call>, answers: nat -> Result)
    requires |calls| > 0 && Holds(r, calls[..RunCount(|calls| - 1, answers)], answers, true)
    ensures Invoke(r, calls[|calls| - 1], answers(r.invoked)) == r
  {
  }

  // The whole course of a command, from the answers of its callbacks alone: callbacks run in order up to
  // the first bypass; without one the command executes exactly once, then the post callbacks in order;
  // on every path each finalizer that was returned runs exactly once, last returned first.
  lemma CommandCourse(calls: seq<Call>, answers: nat -> Result)
    ensures var ran := calls[..RunCount(|calls|, answers)];
            Performed(calls, answers) ==
            if Bypassing(|calls|, answers) then Invocations(ran) + Reverse(FinalizersOf(ran, answers))
            else Invocations(ran) + [Original] + PostsOf(ran, answers) + Reverse(FinalizersOf(ran, answers))
  {
    InvokedSoFar(calls, answers);
    ConcludeCourse(InvokeAll(IDLE, calls, answers), calls[..RunCount(|calls|, answers)], answers,
                   Bypassing(|calls|, answers));
  }

  lemma ConcludeCourse(r: Progress, ran: seq<Call>, answers: nat -> Result, bypassed: bool)
    requires Holds(r, ran, answers, bypassed)
    ensures (if Conclude(r).1 then Conclude(r).0 else Conclude(r).0 + [Original]) ==
            if bypassed then Invocations(ran) + Reverse(FinalizersOf(ran, answers))
            else Invocations(ran) + [Original] + PostsOf(ran, answers) + Reverse(FinalizersOf(ran, answers))
  {
    if !r.bypassed && (r.invoked == 0 || !r.replay) {
      if r.invoked == 0 { assert ran == []; }
      NothingDeferred(ran, answers);
      hide *;
      assert Invocations(ran) + [Original] + [] + [] == Invocations(ran) + [Original];
    }
  }

  lemma NothingDeferred(ran: seq<Call>, answers: nat -> Result)
    requires ran == [] || (PostsOf(ran, answers) == [] && FinalizersOf(ran, answers) == [])
    ensures PostsOf(ran, answers) == [] && Reverse(FinalizersOf(ran, answers)) == []
  {
  }

  // ---- Which deferred callbacks run, and when the add-on suppresses the host's command ----

  // The numbers below n for which `wanted` holds, in ascending order.
  ghost predicate Lists(order: seq<nat>, n: nat, wanted: nat -> bool) {
    && (forall i: nat :: i in order <==> i < n && wanted(i))
    && forall j, k :: 0 <= j < k < |order| ==> order[j] < order[k]
  }

  lemma ListsNext(order: seq<nat>, n: nat, wanted: nat -> bool)
    requires Lists(order, n, wanted)
    ensures Lists(if wanted(n) then order + [n] else order, n + 1, wanted)
  {
    assert forall k :: 0 <= k < |order| ==> order[k] in order;
    assert forall i: nat :: i in order + [n] <==> i in order || i == n;
  }

  // The events are the post callbacks of those numbers, each with its own call and data.
  ghost predicate ArePosts(es: seq<Event>, order: seq<nat>, calls: seq<Call>, answers: nat -> Result) {
    && |es| == |order|
    && forall k :: 0 <= k < |es| ==>
         var i := order[k];
         i < |calls| && es[k] == Post(i, calls[i], answers(i).post, answers(i).data)
  }

  ghost predicate AreFinalizers(es: seq<Event>, order: seq<nat>, calls: seq<Call>, answers: nat -> Result) {
    && |es| == |order|
    && forall k :: 0 <= k < |es| ==>
         var i := order[k];
         i < |calls| && es[k] == Finalized(i, calls[i], answers(i).finalize, answers(i).data)
  }

  lemma NextEvents(es: seq<Event>, order: seq<nat>, calls: seq<Call>, answers: nat -> Result)
    requires |calls| > 0
    ensures var n, r := |calls| - 1, answers(|calls| - 1);
            && (ArePosts(es, order, calls[..n], answers) ==>
                  && ArePosts(es, order, calls, answers)
                  && ArePosts(es + [Post(n, calls[n], r.post, r.data)], order + [n], calls, answers))
            && (AreFinalizers(es, order, calls[..n], answers) ==>
                  && AreFinalizers(es, order, calls, answers)
                  && AreFinalizers(es + [Finalized(n, calls[n], r.finalize, r.data)], order + [n], calls, answers))
  {
  }

  // The post callbacks that run are those that were returned, each once, in the order of invocation.
  lemma {:induction false} PostsExactly(calls: seq<Call>, answers: nat -> Result) returns (order: seq<nat>)
    ensures Lists(order, |calls|, (i: nat) => answers(i).post != 0)
    ensures ArePosts(PostsOf(calls, answers), order, calls, answers)
    decreases |calls|
  {
    order := [];
    if calls != [] {
      hide Lists, ArePosts;
      var n := |calls| - 1;
      order := PostsExactly(calls[..n], answers);
      NextEvents(PostsOf(calls[..n], answers), order, calls, answers);
      ListsNext(order, n, (i: nat) => answers(i).post != 0);
      if answers(n).post != 0 { order := order + [n]; }
      AddedNothing(PostsOf(calls[..n], answers));
    }
  }

  lemma AddedNothing(es: seq<Event>)
    ensures es + [] == es
  {
  }

  // So are the finalizers, ...
  lemma {:induction false} FinalizersExactly(calls: seq<Call>, answers: nat -> Result) returns (order: seq<nat>)
    ensures Lists(order, |calls|, (i: nat) => answers(i).finalize != 0)
    ensures AreFinalizers(FinalizersOf(calls, answers), order, calls, answers)
    decreases |calls|
  {
    order := [];
    if calls != [] {
      hide Lists, AreFinalizers;
      var n := |calls| - 1;
      order := FinalizersExactly(calls[..n], answers);
      NextEvents(FinalizersOf(calls[..n], answers), order, calls, answers);
      ListsNext(order, n, (i: nat) => answers(i).finalize != 0);
      if answers(n).finalize != 0 { order := order + [n]; }
      AddedNothing(FinalizersOf(calls[..n], answers));
    }
  }

  // ... which run from the last to the first.
  lemma {:induction false} ReverseAt(es: seq<Event>, k: nat)
    requires k < |es|
    ensures Reverse(es)[k] == es[|es| - 1 - k]
    decreases |es|
  {
    if k > 0 { ReverseAt(es[..|es| - 1], k - 1); }
  }

  predicate TakesOver(r: Result) {
    r.bypass || r.replay || r.post != 0 || r.finalize != 0
  }

  // Until a bypass every callback has run, and a replay is due if one of them asked for it or returned a callback.
  lemma {:induction false} ReplayDue(calls: seq<Call>, answers: nat -> Result)
    ensures var r := InvokeAll(IDLE, calls, answers);
            !r.bypassed ==>
              && r.invoked == |calls| && (forall i :: 0 <= i < |calls| ==> !answers(i).bypass)
              && (r.replay <==> exists i :: 0 <= i < |calls| && TakesOver(answers(i)))
    decreases |calls|
  {
    hide WithPending, Finals;
    if calls != [] { ReplayDue(calls[..|calls| - 1], answers); }
  }

  // The add-on executes the command itself, or drops it, exactly if one of the callbacks that ran asked for a bypass or
  // a replay, or returned something to run afterwards.
  lemma SuppressedExactly(calls: seq<Call>, answers: nat -> Result)
    ensures Conclude(InvokeAll(IDLE, calls, answers)).1 <==>
            exists i :: 0 <= i < RunCount(|calls|, answers) && TakesOver(answers(i))
  {
    InvokedSoFar(calls, answers);
    RunCountIsFirstBypass(|calls|, answers);
    HoldsCount(InvokeAll(IDLE, calls, answers), calls[..RunCount(|calls|, answers)], answers,
               Bypassing(|calls|, answers));
    ReplayDue(calls, answers);
    hide RunCount, InvokeAll, Holds;
    if Bypassing(|calls|, answers) { assert TakesOver(answers(RunCount(|calls|, answers) - 1)); }
  }
}
