// What becomes of each submission, recorded along a run: which submissions got the lock and reserved a callback, what
// the backend answered, and which ones have finished.
module DeliveryLedger {
  import opened CallbackDelivery

  datatype Answer = NoAnswer | Point(value: nat) | Refused

  // One submission that got the lock; `id` numbers those with a callback.
  datatype Ticket = Ticket(callback: bool, id: nat, answer: Answer, finished: bool)

  function Callbacks(ts: seq<Ticket>): nat {
    if ts == [] then 0 else Callbacks(ts[..|ts| - 1]) + if ts[|ts| - 1].callback then 1 else 0
  }

  // The latest point that the backend has handed out.
  function LatestPoint(ts: seq<Ticket>): nat {
    if ts == [] then 0
    else
      var last := ts[|ts| - 1];
      if last.answer.Point? then last.answer.value else LatestPoint(ts[..|ts| - 1])
  }

  function Answered(ts: seq<Ticket>, outcome: Outcome): Answer {
    match outcome
    case Accepted(gap) => Point(LatestPoint(ts) + 1 + gap)
    case Rejected => Refused
    case Threw => Refused
  }

  // The lock is taken by a thread that passed the first check, if it is free and delivery has not been stopped;
  // its holder hears one answer from the backend and then finishes.
  function Noted(ts: seq<Ticket>, s: State, a: Action): seq<Ticket> {
    match a
    case Acquire(t) =>
      if t in s.entered && s.lock == Free && !s.stopping
      then ts + [Ticket(s.entered[t], Callbacks(ts), NoAnswer, false)] else ts
    case Backend(outcome) =>
      if ts != [] && s.lock.Submitting? && s.lock.progress == Reserved
      then ts[|ts| - 1 := ts[|ts| - 1].(answer := Answered(ts, outcome))] else ts
    case Finish =>
      if ts != [] && s.lock.Submitting? && s.lock.progress != Reserved
      then ts[|ts| - 1 := ts[|ts| - 1].(finished := true)] else ts
    case _ => ts
  }

  function Tickets(s: State, ts: seq<Ticket>, actions: seq<Action>): seq<Ticket>
    decreases |actions|
  {
    if actions == [] then ts else Tickets(Act(s, actions[0]), Noted(ts, s, actions[0]), actions[1..])
  }

  // The accepted callbacks with their points, in the order of submission.
  function AcceptedOf(ts: seq<Ticket>): seq<Entry> {
    if ts == [] then []
    else
      var front, last := AcceptedOf(ts[..|ts| - 1]), ts[|ts| - 1];
      if last.callback && last.finished
        && last.answer.Point? then front + [Entry(last.answer.value, last.id)] else front
  }

  function RefusedOf(ts: seq<Ticket>): set<nat> {
    if ts == [] then {}
    else
      var front, last := RefusedOf(ts[..|ts| - 1]), ts[|ts| - 1];
      if last.callback && last.finished && last.answer == Refused then front + {last.id} else front
  }

  // What the lock's holder has heard.
  function Heard(p: Progress): Answer {
    match p
    case Reserved => NoAnswer
    case Answered(completion) => if completion == 0 then Refused else Point(completion)
    case Unwinding => Refused
  }

  ghost predicate Agrees(s: State, ts: seq<Ticket>) {
    && s.accepted == AcceptedOf(ts)
    && s.refused == RefusedOf(ts)
    && s.nextId == Callbacks(ts)
    && s.value == LatestPoint(ts)
    && (s.lock.Submitting? ==> ts != [] && Held(s, ts[|ts| - 1]))
    && AllFinished(if s.lock.Submitting? && ts != [] then ts[..|ts| - 1] else ts)
    && Numbered(ts)
  }

  // The ticket of the lock's holder.
  ghost predicate Held(s: State, t: Ticket)
    requires s.lock.Submitting?
  {
    && !t.finished && t.callback == s.lock.callback && t.answer == Heard(s.lock.progress)
    && (t.callback ==> s.pending != [] && Back(s.pending) == Entry(0, t.id))
  }

  ghost predicate AllFinished(ts: seq<Ticket>) {
    forall k :: 0 <= k < |ts| ==> ts[k].finished && ts[k].answer != NoAnswer
  }

  ghost predicate Numbered(ts: seq<Ticket>) {
    && (forall k :: 0 <= k < |ts| && ts[k].callback ==> ts[k].id < Callbacks(ts))
    && forall j, k :: 0 <= j < k < |ts| && ts[j].callback && ts[k].callback ==> ts[j].id < ts[k].id
  }

  lemma OneMore(ts: seq<Ticket>, t: Ticket)
    requires t.callback ==> t.id == Callbacks(ts)
    requires Numbered(ts) && !t.finished && t.answer == NoAnswer
    ensures var ts' := ts + [t];
            && AcceptedOf(ts') == AcceptedOf(ts) && RefusedOf(ts') == RefusedOf(ts)
               && LatestPoint(ts') == LatestPoint(ts)
            && Callbacks(ts') == Callbacks(ts) + (if t.callback then 1 else 0) && Numbered(ts')
  {
    assert (ts + [t])[..|ts|] == ts;
    forall k | 0 <= k < |ts| && ts[k].callback ensures (ts + [t])[k] == ts[k] && ts[k].id < Callbacks(ts) {
    }
  }

  lemma LastReplaced(ts: seq<Ticket>, t: Ticket)
    requires ts != [] && t.callback == ts[|ts| - 1].callback && t.id == ts[|ts| - 1].id
    requires Numbered(ts)
    ensures var ts' := ts[|ts| - 1 := t];
            && ts'[..|ts| - 1] == ts[..|ts| - 1] && ts'[|ts| - 1] == t
            && Callbacks(ts') == Callbacks(ts) && Numbered(ts')
  {
    var ts' := ts[|ts| - 1 := t];
    assert ts'[..|ts| - 1] == ts[..|ts| - 1];
    assert forall k :: 0 <= k < |ts| ==> ts'[k].callback == ts[k].callback && ts'[k].id == ts[k].id;
  }

  lemma AcquireAgrees(s: State, ts: seq<Ticket>, t: nat)
    requires Inv(s) && Agrees(s, ts)
    ensures Agrees(Act(s, Acquire(t)), Noted(ts, s, Acquire(t)))
  {
    hide Inv, Numbered, AcceptedOf, RefusedOf, Callbacks, LatestPoint;
    if t in s.entered && s.lock == Free && !s.stopping {
      var ticket := Ticket(s.entered[t], Callbacks(ts), NoAnswer, false);
      OneMore(ts, ticket);
      assert (ts + [ticket])[..|ts|] == ts;
      assert s.entered[t] ==> Back(s.pending + [Entry(0, s.nextId)]) == Entry(0, s.nextId);
    }
  }

  lemma BackendAgrees(s: State, ts: seq<Ticket>, outcome: Outcome)
    requires Inv(s) && Agrees(s, ts)
    ensures Agrees(Act(s, Backend(outcome)), Noted(ts, s, Backend(outcome)))
  {
    hide Inv, Numbered, Callbacks, AllFinished;
    if s.lock.Submitting? && s.lock.progress == Reserved {
      var n := |ts| - 1;
      LastReplaced(ts, ts[n].(answer := Answered(ts, outcome)));
    }
  }

  lemma FinishAgrees(s: State, ts: seq<Ticket>)
    requires Inv(s) && Agrees(s, ts)
    ensures Agrees(Act(s, Finish), Noted(ts, s, Finish))
  {
    hide Inv, Numbered, Callbacks;
    if s.lock.Submitting? && s.lock.progress != Reserved {
      var n := |ts| - 1;
      LastReplaced(ts, ts[n].(finished := true));
    }
  }

  // The other steps touch neither a held lock nor what submissions leave behind.
  lemma OtherAgrees(s: State, ts: seq<Ticket>, a: Action)
    requires Inv(s) && Agrees(s, ts) && !a.Acquire? && !a.Backend? && !a.Finish?
    ensures Agrees(Act(s, a), ts)
  {
    hide Numbered, Callbacks, AcceptedOf, RefusedOf, LatestPoint, AllFinished, Below, Increasing, Known, Seen,
         CalledInOrder;
    hide Entries, Committed, HandedIn;
  }

  lemma {:induction false} TicketsAgree(s: State, ts: seq<Ticket>, actions: seq<Action>)
    requires Inv(s) && Agrees(s, ts)
    ensures Agrees(Run(s, actions), Tickets(s, ts, actions))
    decreases |actions|
  {
    hide Inv, Agrees, Act, Noted;
    if actions != [] {
      var a := actions[0];
      ActKeeps(s, a);
      match a {
        case Acquire(t) => AcquireAgrees(s, ts, t);
        case Backend(outcome) => BackendAgrees(s, ts, outcome);
        case Finish => FinishAgrees(s, ts);
        case _ =>
          OtherAgrees(s, ts, a);
          NothingNoted(ts, s, a);
      }
      TicketsAgree(Act(s, a), Noted(ts, s, a), actions[1..]);
    }
  }

  lemma NothingNoted(ts: seq<Ticket>, s: State, a: Action)
    requires !a.Acquire? && !a.Backend? && !a.Finish?
    ensures Noted(ts, s, a) == ts
  {
  }

  lemma LedgerAgrees(actions: seq<Action>)
    ensures Agrees(Run(START, actions), Tickets(START, [], actions))
  {
    TicketsAgree(START, [], actions);
  }

  // ---- The fate of every submission ----

  predicate Succeeded(t: Ticket) {
    t.callback && t.finished && t.answer.Point?
  }

  // `ps` are the positions of the tickets of the accepted callbacks.
  ghost predicate Positions(ts: seq<Ticket>, es: seq<Entry>, ps: seq<nat>) {
    && |ps| == |es|
    && (forall i, j :: 0 <= i < j < |ps| ==> ps[i] < ps[j])
    && (forall p: nat :: p in ps <==> p < |ts| && Succeeded(ts[p]))
    && forall i :: 0 <= i < |ps| ==>
         ps[i] < |ts| && Succeeded(ts[ps[i]]) && es[i] == Entry(ts[ps[i]].answer.value, ts[ps[i]].id)
  }

  lemma PositionsNext(ts: seq<Ticket>, es: seq<Entry>, ps: seq<nat>, t: Ticket)
    requires Positions(ts, es, ps)
    ensures if Succeeded(t) then Positions(ts + [t], es + [Entry(t.answer.value, t.id)], ps + [|ts|])
            else Positions(ts + [t], es, ps)
  {
    hide Succeeded;
    forall i | 0 <= i < |ps| ensures ps[i] < |ts| && (ts + [t])[ps[i]] == ts[ps[i]] { assert ps[i] in ps; }
  }

  lemma {:induction false} AcceptedAt(ts: seq<Ticket>) returns (ps: seq<nat>)
    ensures Positions(ts, AcceptedOf(ts), ps)
    decreases |ts|
  {
    if ts == [] {
      ps := [];
    } else {
      var front, last := ts[..|ts| - 1], ts[|ts| - 1];
      ps := AcceptedAt(front);
      PositionsNext(front, AcceptedOf(front), ps, last);
      hide Positions;
      assert front + [last] == ts;
      if Succeeded(last) { ps := ps + [|front|]; }
    }
  }

  lemma {:induction false} RefusedAt(ts: seq<Ticket>, id: nat)
    ensures id in RefusedOf(ts) <==>
            exists k :: 0 <= k < |ts| && ts[k].callback && ts[k].finished && ts[k].answer == Refused && ts[k].id == id
    decreases |ts|
  {
    if ts != [] { RefusedAt(ts[..|ts| - 1], id); }
  }

  // In every run: the accepted callbacks are those of the finished submissions that the backend accepted, each with
  // the point of its own submission, in the order of submission.
  lemma AcceptedExactly(actions: seq<Action>) returns (ps: seq<nat>)
    ensures var accepted, ts := Run(START, actions).accepted, Tickets(START, [], actions);
            && |ps| == |accepted|
            && (forall i, j :: 0 <= i < j < |ps| ==> ps[i] < ps[j])
            && (forall p: nat :: p in ps <==> p < |ts| && ts[p].callback && ts[p].finished && ts[p].answer.Point?)
            && forall i :: 0 <= i < |ps| ==>
                 ps[i] < |ts| && ts[ps[i]].answer.Point?
                 && accepted[i] == Entry(ts[ps[i]].answer.value, ts[ps[i]].id)
  {
    hide Tickets, Run, AcceptedOf;
    LedgerAgrees(actions);
    ps := AcceptedAt(Tickets(START, [], actions));
  }

  // In every run: a callback is refused exactly if its submission has finished and the backend rejected it or threw.
  lemma RefusedExactly(actions: seq<Action>, k: nat)
    requires k < |Tickets(START, [], actions)| && Tickets(START, [], actions)[k].callback
    ensures var t := Tickets(START, [], actions)[k];
            t.id in Run(START, actions).refused <==> t.finished && t.answer == Refused
  {
    hide Tickets, Run, RefusedOf, AcceptedOf, LatestPoint, Callbacks;
    LedgerAgrees(actions);
    var ts := Tickets(START, [], actions);
    RefusedAt(ts, ts[k].id);
  }

  // A submission that meets a free lock before any stop goes through: its callback is queued with the point that the
  // backend gave it, or withdrawn.
  lemma SubmissionGoesThrough(s: State, t: nat, outcome: Outcome)
    requires Inv(s) && s.lock == Free && !s.stopping && t !in s.entered
    ensures var s' := Run(s, [Enter(t, true), Acquire(t), Backend(outcome), Finish]);
            s' == match outcome
                  case Accepted(gap) =>
                    var entry := Entry(s.value + 1 + gap, s.nextId);
                    s.(pending := s.pending + [entry], accepted := s.accepted + [entry], value := entry.value,
                       nextId := s.nextId + 1)
                  case _ => s.(refused := s.refused + {s.nextId}, nextId := s.nextId + 1)
  {
    hide Inv;
    var s1 := Act(s, Enter(t, true));
    var s2 := Act(s1, Acquire(t));
    var s3 := Act(s2, Backend(outcome));
    assert s1.entered - {t} == s.entered;
    assert Front(s.pending + [Entry(0, s.nextId)]) == s.pending;
    RunFour(s, Enter(t, true), Acquire(t), Backend(outcome), Finish);
  }

  lemma RunFour(s: State, a: Action, b: Action, c: Action, d: Action)
    ensures Run(s, [a, b, c, d]) == Act(Act(Act(Act(s, a), b), c), d)
  {
    hide Act;
    RunFirst(s, a, [b, c, d]);
    RunFirst(Act(s, a), b, [c, d]);
    RunFirst(Act(Act(s, a), b), c, [d]);
    assert [a, b, c, d] == [a] + [b, c, d] && [b, c, d] == [b] + [c, d] && [c, d] == [c] + [d] && [d][1..] == [];
  }
}
