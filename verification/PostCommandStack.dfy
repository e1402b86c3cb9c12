// The post-command stack and the constant-buffer slots that the shader mod's callback saves, overwrites
// and restores, played along the events of a command.
module PostCommandStack {
  import opened CommandProtocol

  datatype Write = Write(slot: nat, binding: nat)

  // An entry of the stack: which invocation pushed it and what its slots held before.
  datatype Entry = Entry(owner: nat, saved: seq<Write>)

  // A callback of another module, or one of the shader mod's: it bypasses the command, or it overwrites
  // slots and may ask to be told when the command has executed. Other modules, and the hooks of a shader
  // that run before its slots are saved and after the command, may write slots as well.
  datatype Behaviour =
    | Foreign(result: Result, found: seq<Write>, afterwards: seq<Write>, finally: seq<Write>)
    | Ours(bypass: bool, drawn: bool, found: seq<Write>, writes: seq<Write>, afterwards: seq<Write>)

  // `command` is the identifier of the last command that touched the stack.
  datatype World = World(stack: seq<Entry>, command: nat, slots: seq<nat>, invoked: nat, ok: bool)

  const AFTER_COMMAND := 1
  const RESTORE_BINDINGS := 2

  predicate Keeps(b: Behaviour) {
    b.Ours? && !b.bypass && (b.drawn || b.writes != [])
  }

  // What the callback of invocation `index` returns; `index + 1` stands for the address of its entry.
  function Answer(index: nat, b: Behaviour): Result {
    if b.Foreign? then b.result
    else if Keeps(b) then Result(if b.drawn then AFTER_COMMAND else 0, RESTORE_BINDINGS, index + 1, false, true)
    else Result(0, 0, 0, b.bypass, false)
  }

  function Answers(behaviours: nat -> Behaviour): nat -> Result {
    (i: nat) => Answer(i, behaviours(i))
  }

  function Put(slots: seq<nat>, w: Write): (r: seq<nat>)
    ensures |r| == |slots|
  {
    if w.slot < |slots| then slots[w.slot := w.binding] else slots
  }

  function Overwrite(slots: seq<nat>, writes: seq<Write>): (r: seq<nat>)
    ensures |r| == |slots|
  {
    if writes == [] then slots else Put(Overwrite(slots, writes[..|writes| - 1]), writes[|writes| - 1])
  }

  // A snapshot of each slot, taken right before it is overwritten.
  function Saved(slots: seq<nat>, writes: seq<Write>): (saved: seq<Write>)
    ensures |saved| == |writes|
  {
    if writes == [] then []
    else
      var before := Overwrite(slots, writes[..|writes| - 1]);
      var slot := writes[|writes| - 1].slot;
      Saved(slots, writes[..|writes| - 1]) + [Write(slot, if slot < |slots| then before[slot] else 0)]
  }

  // Restores run from the last snapshot back to the first.
  function Restore(slots: seq<nat>, saved: seq<Write>): (r: seq<nat>)
    ensures |r| == |slots|
    decreases |saved|
  {
    if saved == [] then slots else Restore(Put(slots, saved[|saved| - 1]), saved[..|saved| - 1])
  }

  function Invoking(w: World, command: nat, b: Behaviour): World {
    var w := w.(invoked := w.invoked + 1, slots := Overwrite(w.slots, b.found));
    if b.Foreign? then w
    else
      var stack := if w.command == command then w.stack else [];
      if !Keeps(b) then w.(stack := stack, command := command)
      else w.(stack := stack + [Entry(w.invoked, Saved(w.slots, b.writes))], command := command,
              slots := Overwrite(w.slots, b.writes))
  }

  // RestoreBindings expects its own entry at the back of the stack.
  function Finalizing(w: World, data: nat): World {
    if w.stack == [] || w.stack[|w.stack| - 1].owner != data then w.(ok := false)
    else w.(slots := Restore(w.slots, w.stack[|w.stack| - 1].saved), stack := w.stack[..|w.stack| - 1])
  }

  function Step(w: World, command: nat, behaviours: nat -> Behaviour, e: Event): (r: World)
    ensures |r.slots| == |w.slots|
  {
    match e
    case Invoked(_) => Invoking(w, command, behaviours(w.invoked))
    case Finalized(index, _, _, data) =>
      if behaviours(index).Ours? then Finalizing(w, data)
      else w.(slots := Overwrite(w.slots, behaviours(index).finally))
    case Original => w
    case Post(index, _, _, _) => w.(slots := Overwrite(w.slots, behaviours(index).afterwards))
  }

  function Play(w: World, command: nat, behaviours: nat -> Behaviour, events: seq<Event>): (r: World)
    ensures |r.slots| == |w.slots|
    decreases |events|
  {
    if events == [] then w
    else Step(Play(w, command, behaviours, events[..|events| - 1]), command, behaviours, events[|events| - 1])
  }

  // A callback of the shader mod that does not bypass the command leaves one entry with a snapshot of the slots that it
  // overwrites, if it overwrites any or wants to hear of the command; it then asks for a replay and a restore.
  lemma CallbackPushes(w: World, command: nat, b: Behaviour)
    requires b.Ours?
    ensures var w', r := Invoking(w, command, b), Answer(w.invoked, b);
            var stack := if w.command == command then w.stack else [];
            var found := Overwrite(w.slots, b.found);
            && w'.command == command && w'.invoked == w.invoked + 1 && w'.ok == w.ok
            && r.bypass == b.bypass
            && if b.bypass || (!b.drawn && b.writes == [])
               then w'.stack == stack && w'.slots == found && r.post == 0 && r.finalize == 0 && !r.replay
               else && w'.stack == stack + [Entry(w.invoked + 1, Saved(found, b.writes))]
                    && w'.slots == Overwrite(found, b.writes)
                    && r.replay && r.finalize != 0 && r.data == w.invoked + 1 && (r.post != 0 <==> b.drawn)
  {
  }

  // Each snapshot holds what its slot holds right before it is overwritten.
  lemma {:induction false} SavedAt(slots: seq<nat>, writes: seq<Write>, i: nat)
    requires i < |writes| && writes[i].slot < |slots|
    ensures Saved(slots, writes)[i] == Write(writes[i].slot, Overwrite(slots, writes[..i])[writes[i].slot])
    decreases |writes|
  {
    var n := |writes| - 1;
    if i < n {
      SavedAt(slots, writes[..n], i);
      assert writes[..n][..i] == writes[..i];
    }
  }

  lemma {:induction false} RestoreUndoes(slots: seq<nat>, writes: seq<Write>)
    ensures Restore(Overwrite(slots, writes), Saved(slots, writes)) == slots
    decreases |writes|
  {
    if writes != [] {
      var n := |writes| - 1;
      RestoreUndoes(slots, writes[..n]);
      var saved := Saved(slots, writes);
      assert saved[..n] == Saved(slots, writes[..n]);
      assert Put(Overwrite(slots, writes), saved[n]) == Overwrite(slots, writes[..n]);
    }
  }

  // ---- One slot ----

  // What writes make of the value of slot x.
  function Written(writes: seq<Write>, x: nat, value: nat): nat {
    if writes == [] then value
    else
      var last := writes[|writes| - 1];
      if last.slot == x then last.binding else Written(writes[..|writes| - 1], x, value)
  }

  predicate Touches(writes: seq<Write>, x: nat) {
    exists i :: 0 <= i < |writes| && writes[i].slot == x
  }

  lemma {:induction false} WrittenIs(slots: seq<nat>, writes: seq<Write>, x: nat)
    requires x < |slots|
    ensures Overwrite(slots, writes)[x] == Written(writes, x, slots[x])
    ensures !Touches(writes, x) ==> Written(writes, x, slots[x]) == slots[x]
    decreases |writes|
  {
    if writes != [] {
      WrittenIs(slots, writes[..|writes| - 1], x);
      assert Touches(writes[..|writes| - 1], x) ==> Touches(writes, x) by {
        if Touches(writes[..|writes| - 1], x) {
          var i :| 0 <= i < |writes| - 1 && writes[..|writes| - 1][i].slot == x;
          assert writes[i].slot == x;
        }
      }
    }
  }

  // Whatever happened to the slots since, restoring brings back what was saved and touches nothing else.
  lemma {:induction false} RestoreSlot(now: seq<nat>, before: seq<nat>, writes: seq<Write>, x: nat)
    requires |now| == |before| && x < |now|
    ensures Restore(now, Saved(before, writes))[x] == if Touches(writes, x) then before[x] else now[x]
    decreases |writes|
  {
    if writes != [] {
      var n := |writes| - 1;
      var saved := Saved(before, writes);
      assert saved[..n] == Saved(before, writes[..n]);
      RestoreSlot(Put(now, saved[n]), before, writes[..n], x);
      WrittenIs(before, writes[..n], x);
      TouchesLast(writes, x);
    }
  }

  lemma TouchesLast(writes: seq<Write>, x: nat)
    requires |writes| > 0
    ensures Touches(writes, x) <==> Touches(writes[..|writes| - 1], x) || writes[|writes| - 1].slot == x
  {
    var front := writes[..|writes| - 1];
    assert forall i :: 0 <= i < |front| ==> front[i] == writes[i];
  }

  // ---- The events of a command ----

  lemma {:induction false} PlayInTwo(w: World, command: nat, behaviours: nat -> Behaviour, a: seq<Event>, b: seq<Event>)
    ensures Play(w, command, behaviours, a + b) == Play(Play(w, command, behaviours, a), command, behaviours, b)
    decreases |b|
  {
    hide Step;
    if b == [] {
      assert a + b == a;
    } else {
      assert (a + b)[..|a + b| - 1] == a + b[..|b| - 1];
      PlayInTwo(w, command, behaviours, a, b[..|b| - 1]);
    }
  }

  function Entered(w: World, command: nat, behaviours: nat -> Behaviour, calls: seq<Call>): World {
    Play(w, command, behaviours, Invocations(calls))
  }

  lemma EnteredLast(w: World, command: nat, behaviours: nat -> Behaviour, calls: seq<Call>)
    requires |calls| > 0
    ensures var before := Entered(w, command, behaviours, calls[..|calls| - 1]);
            Entered(w, command, behaviours, calls) == Invoking(before, command, behaviours(before.invoked))
  {
    hide Invoking;
    InvocationsLast(calls);
    var events := Invocations(calls);
    assert events[..|events| - 1] == Invocations(calls[..|calls| - 1]);
  }

  lemma {:induction false} EnteredCounts(w: World, command: nat, behaviours: nat -> Behaviour, calls: seq<Call>)
    ensures Entered(w, command, behaviours, calls).invoked == w.invoked + |calls|
    ensures Entered(w, command, behaviours, calls).ok == w.ok
    decreases |calls|
  {
    if calls != [] {
      EnteredCounts(w, command, behaviours, calls[..|calls| - 1]);
      EnteredLast(w, command, behaviours, calls);
      hide Entered;
    } else {
      assert Invocations(calls) == [];
    }
  }

  lemma PlayOne(w: World, command: nat, behaviours: nat -> Behaviour, events: seq<Event>)
    requires |events| <= 1
    ensures Play(w, command, behaviours, events) ==
            if events == [] then w else Step(w, command, behaviours, events[0])
  {
    hide Step;
    if events != [] { assert events[..0] == []; }
  }

  lemma NothingEntered(w: World, command: nat, behaviours: nat -> Behaviour)
    ensures Entered(w, command, behaviours, []) == w
  {
    assert Invocations([]) == [];
  }

  lemma AnyOfOurs(w0: World, command: nat, behaviours: nat -> Behaviour, calls: seq<Call>)
    requires w0.command != command && w0.invoked == 0
    ensures Entered(w0, command, behaviours, calls).command == command <==>
            exists i :: 0 <= i < |calls| && behaviours(i).Ours?
    ensures Entered(w0, command, behaviours, calls).command != command ==>
              Entered(w0, command, behaviours, calls).stack == w0.stack
    decreases |calls|
  {
    hide Entered;
    if calls == [] {
      NothingEntered(w0, command, behaviours);
    } else {
      var n := |calls| - 1;
      AnyOfOurs(w0, command, behaviours, calls[..n]);
      EnteredLast(w0, command, behaviours, calls);
      EnteredCounts(w0, command, behaviours, calls[..n]);
    }
  }

  // ---- Where a slot ends up ----

  // The first of n callbacks of the shader mod that overwrites slot x.
  function FirstTouch(behaviours: nat -> Behaviour, n: nat, x: nat): (k: nat)
    ensures k <= n
    ensures k < n ==> Keeps(behaviours(k)) && Touches(behaviours(k).writes, x)
    ensures forall i :: 0 <= i < k ==> !(Keeps(behaviours(i)) && Touches(behaviours(i).writes, x))
  {
    if n == 0 then 0
    else
      var k := FirstTouch(behaviours, n - 1, x);
      if k < n - 1 || (Keeps(behaviours(k)) && Touches(behaviours(k).writes, x)) then k else n
  }

  // What everybody but the saved writes makes of slot x: while n callbacks are invoked, ...
  function EnteredValue(behaviours: nat -> Behaviour, n: nat, x: nat, value: nat): nat {
    if n == 0 then value else Written(behaviours(n - 1).found, x, EnteredValue(behaviours, n - 1, x, value))
  }

  // ... when the post callbacks of n callbacks run, ...
  function PostedValue(behaviours: nat -> Behaviour, n: nat, x: nat, value: nat): nat {
    if n == 0 then value
    else
      var before := PostedValue(behaviours, n - 1, x, value);
      if Answer(n - 1, behaviours(n - 1)).post != 0 then Written(behaviours(n - 1).afterwards, x, before) else before
  }

  // ... and when the finalizers of other modules among n callbacks run, last one first.
  function FinalValue(behaviours: nat -> Behaviour, n: nat, x: nat, value: nat): nat {
    if n == 0 then value
    else
      var b := behaviours(n - 1);
      FinalValue(behaviours, n - 1, x,
                 if b.Foreign? && b.result.finalize != 0 then Written(b.finally, x, value) else value)
  }

  // What the finalizers of n callbacks leave in slot x, which began as `start` and holds `value` before them.
  // Once the shader mod has saved the slot, nothing that happens before its restore matters.
  function Ended(behaviours: nat -> Behaviour, n: nat, x: nat, start: nat, value: nat): nat {
    var k := FirstTouch(behaviours, n, x);
    if k < n then FinalValue(behaviours, k, x, EnteredValue(behaviours, k + 1, x, start))
    else FinalValue(behaviours, n, x, value)
  }

  // The value that a command with n callbacks leaves in slot x.
  function SlotAfter(behaviours: nat -> Behaviour, n: nat, bypassed: bool, x: nat, start: nat): nat {
    var entered := EnteredValue(behaviours, n, x, start);
    Ended(behaviours, n, x, start, if bypassed then entered else PostedValue(behaviours, n, x, entered))
  }

  // One finalizer: `next` is what it leaves.
  lemma EndedStep(behaviours: nat -> Behaviour, n: nat, x: nat, start: nat, value: nat, next: nat)
    requires var b := behaviours(n);
             FirstTouch(behaviours, n, x) == n ==>
               next == if Keeps(b) && Touches(b.writes, x) then EnteredValue(behaviours, n + 1, x, start)
                       else if b.Foreign? && b.result.finalize != 0 then Written(b.finally, x, value)
                       else value
    ensures Ended(behaviours, n + 1, x, start, value) == Ended(behaviours, n, x, start, next)
  {
    hide Keeps, Touches, Written, EnteredValue;
    assert behaviours(n).Foreign? ==> !Keeps(behaviours(n)) by { ForeignKeepsNothing(behaviours(n)); }
  }

  lemma ForeignKeepsNothing(b: Behaviour)
    ensures b.Foreign? ==> !Keeps(b)
  {
  }

  lemma {:induction false} EnteredSlot(w0: World, command: nat, behaviours: nat -> Behaviour, calls: seq<Call>, x: nat)
    requires w0.invoked == 0 && x < |w0.slots|
    ensures |Entered(w0, command, behaviours, calls).slots| == |w0.slots|
    ensures FirstTouch(behaviours, |calls|, x) == |calls| ==>
              Entered(w0, command, behaviours, calls).slots[x] == EnteredValue(behaviours, |calls|, x, w0.slots[x])
    decreases |calls|
  {
    hide Entered, Saved, Overwrite, Touches, Written;
    if calls == [] {
      NothingEntered(w0, command, behaviours);
    } else {
      var n := |calls| - 1;
      EnteredSlot(w0, command, behaviours, calls[..n], x);
      EnteredLast(w0, command, behaviours, calls);
      EnteredCounts(w0, command, behaviours, calls[..n]);
      var v, b := Entered(w0, command, behaviours, calls[..n]), behaviours(n);
      WrittenIs(v.slots, b.found, x);
      if b.Ours? { WrittenIs(Overwrite(v.slots, b.found), b.writes, x); }
    }
  }

  lemma {:induction false} PostsPlayed(w: World, command: nat, behaviours: nat -> Behaviour, calls: seq<Call>, x: nat)
    requires x < |w.slots|
    ensures var r := Play(w, command, behaviours, PostsOf(calls, Answers(behaviours)));
            r == w.(slots := r.slots) && r.slots[x] == PostedValue(behaviours, |calls|, x, w.slots[x])
    decreases |calls|
  {
    hide Play, PostsOf, PostBy, Written, Answers;
    if calls == [] {
      NothingPosted(w, command, behaviours);
    } else {
      var n := |calls| - 1;
      PostsPlayed(w, command, behaviours, calls[..n], x);
      DeferredLast(calls, Answers(behaviours));
      var post, before := PostBy(n, calls[n], Answers(behaviours)(n)), PostsOf(calls[..n], Answers(behaviours));
      PlayInTwo(w, command, behaviours, before, post);
      PostPlayed(Play(w, command, behaviours, before), command, behaviours, n, calls[n], x);
    }
  }

  lemma NothingPosted(w: World, command: nat, behaviours: nat -> Behaviour)
    ensures Play(w, command, behaviours, PostsOf([], Answers(behaviours))) == w
  {
    assert PostsOf([], Answers(behaviours)) == [];
  }

  lemma PostPlayed(w: World, command: nat, behaviours: nat -> Behaviour, n: nat, call: Call, x: nat)
    requires x < |w.slots|
    ensures var answer := Answers(behaviours)(n);
            var r := Play(w, command, behaviours, PostBy(n, call, answer));
            && r == w.(slots := r.slots)
            && r.slots[x] ==
               if Answer(n, behaviours(n)).post != 0 then Written(behaviours(n).afterwards, x, w.slots[x])
               else w.slots[x]
  {
    hide Play, Written, Overwrite, Answer;
    var post := PostBy(n, call, Answers(behaviours)(n));
    PlayOne(w, command, behaviours, post);
    WrittenIs(w.slots, behaviours(n).afterwards, x);
  }

  // The finalizer of the last callback, whatever has become of the slots meanwhile.
  lemma LastUnwound(v: World, command: nat, b: Behaviour, index: nat, call: Call, behaviours: nat -> Behaviour,
                    u: World, x: nat)
    requires index == v.invoked && b == behaviours(index) && u.ok && x < |v.slots| == |u.slots|
    requires Invoking(v, command, b).command == command ==> u.stack == Invoking(v, command, b).stack
    ensures var last := FinalBy(index, call, Answer(index, b));
            var u' := if last == [] then u else Step(u, command, behaviours, last[0]);
            && u'.ok && |u'.slots| == |u.slots|
            && u'.stack == (if b.Foreign? then u.stack else if v.command == command then v.stack else [])
            && u'.slots[x] == if Keeps(b) && Touches(b.writes, x) then Written(b.found, x, v.slots[x])
                              else if b.Foreign? && b.result.finalize != 0 then Written(b.finally, x, u.slots[x])
                              else u.slots[x]
  {
    hide Overwrite, Saved, Restore, Put, Touches, Written;
    WrittenIs(v.slots, b.found, x);
    if b.Foreign? {
      WrittenIs(u.slots, b.finally, x);
    } else if Keeps(b) {
      RestoreSlot(u.slots, Overwrite(v.slots, b.found), b.writes, x);
      assert u.stack[..|u.stack| - 1] == if v.command == command then v.stack else [];
    }
  }

  lemma {:induction false} FinalizersUnwind(w0: World, command: nat, behaviours: nat -> Behaviour, calls: seq<Call>,
                                            u: World, x: nat)
    requires w0.command != command && w0.invoked == 0 && u.ok && x < |w0.slots| == |u.slots|
    requires var v := Entered(w0, command, behaviours, calls); v.command == command ==> u.stack == v.stack
    ensures var r := Play(u, command, behaviours, Reverse(FinalizersOf(calls, Answers(behaviours))));
            && r.ok && |r.slots| == |w0.slots|
            && r.stack == (if Entered(w0, command, behaviours, calls).command == command then [] else u.stack)
            && r.slots[x] == Ended(behaviours, |calls|, x, w0.slots[x], u.slots[x])
    decreases |calls|
  {
    hide Play, Step, Reverse, FinalizersOf, Entered, Invoking, Touches, Written, Keeps, Ended, FirstTouch, FinalBy;
    if calls == [] {
      NoneEnded(behaviours, x, w0.slots[x], u.slots[x]);
      NothingEntered(w0, command, behaviours);
      NothingFinal(u, command, behaviours);
    } else {
      var n := |calls| - 1;
      var v := Entered(w0, command, behaviours, calls[..n]);
      var answers := Answers(behaviours);
      EnteredLast(w0, command, behaviours, calls);
      EnteredCounts(w0, command, behaviours, calls[..n]);
      EnteredSlot(w0, command, behaviours, calls[..n], x);
      var last := FinalBy(n, calls[n], answers(n));
      DeferredLast(calls, answers);
      FinalByShort(n, calls[n], answers(n));
      ReverseLast(FinalizersOf(calls[..n], answers), last);
      PlayInTwo(u, command, behaviours, last, Reverse(FinalizersOf(calls[..n], answers)));
      PlayOne(u, command, behaviours, last);
      var u' := Play(u, command, behaviours, last);
      LastUnwound(v, command, behaviours(n), n, calls[n], behaviours, u, x);
      CommandSet(v, command, behaviours(n));
      EndedStep(behaviours, n, x, w0.slots[x], u.slots[x], u'.slots[x]);
      FinalizersUnwind(w0, command, behaviours, calls[..n], u', x);
    }
  }

  lemma NoneEnded(behaviours: nat -> Behaviour, x: nat, start: nat, value: nat)
    ensures Ended(behaviours, 0, x, start, value) == value
  {
  }

  lemma NothingFinal(u: World, command: nat, behaviours: nat -> Behaviour)
    ensures Play(u, command, behaviours, Reverse(FinalizersOf([], Answers(behaviours)))) == u
  {
    assert FinalizersOf([], Answers(behaviours)) == [];
  }

  lemma CommandSet(v: World, command: nat, b: Behaviour)
    ensures Invoking(v, command, b).command == if b.Ours? then command else v.command
    ensures b.Foreign? ==> Invoking(v, command, b).stack == v.stack
  {
  }

  // Until the finalizers run, the command and the post callbacks change nothing but slots.
  lemma UntilFinalizers(w0: World, command: nat, behaviours: nat -> Behaviour, calls: seq<Call>,
                        x: nat) returns (u: World)
    requires w0.invoked == 0 && x < |w0.slots|
    ensures var answers := Answers(behaviours);
            var n := RunCount(|calls|, answers);
            var v := Entered(w0, command, behaviours, calls[..n]);
            && Play(w0, command, behaviours, Performed(calls, answers)) ==
               Play(u, command, behaviours, Reverse(FinalizersOf(calls[..n], answers)))
            && u == v.(slots := u.slots) && |u.slots| == |w0.slots|
            && u.slots[x] ==
               if Bypassing(|calls|, answers) then v.slots[x] else PostedValue(behaviours, n, x, v.slots[x])
  {
    hide Step, FinalizersOf, Reverse, Performed, RunCount, Invocations, PostsOf, Play, Bypassing, Answers, PostedValue;
    var answers := Answers(behaviours);
    var ran := calls[..RunCount(|calls|, answers)];
    CommandCourse(calls, answers);
    EnteredSlot(w0, command, behaviours, ran, x);
    var begun, posts, finals := Invocations(ran), PostsOf(ran, answers), Reverse(FinalizersOf(ran, answers));
    u := Entered(w0, command, behaviours, ran);
    if Bypassing(|calls|, answers) {
      PlayInTwo(w0, command, behaviours, begun, finals);
    } else {
      PlayInTwo(w0, command, behaviours, begun + [Original] + posts, finals);
      PlayInTwo(w0, command, behaviours, begun + [Original], posts);
      PlayInTwo(w0, command, behaviours, begun, [Original]);
      OriginalTouchesNothing(u, command, behaviours);
      PostsPlayed(u, command, behaviours, ran, x);
      u := Play(u, command, behaviours, posts);
    }
  }

  lemma OriginalTouchesNothing(w: World, command: nat, behaviours: nat -> Behaviour)
    ensures Play(w, command, behaviours, [Original]) == w
  {
    PlayOne(w, command, behaviours, [Original]);
  }

  // Whatever the callbacks do and wherever a bypass cuts the command short: each RestoreBindings finds its own
  // entry at the back of the stack, no entry of this command remains, and every slot holds what the other
  // writers alone make of it, of whom only those before the first save of the slot count if there is one.
  lemma CommandUnwinds(w0: World, command: nat, behaviours: nat -> Behaviour, calls: seq<Call>, x: nat)
    requires w0.command != command && w0.invoked == 0 && w0.ok && x < |w0.slots|
    ensures var answers := Answers(behaviours);
            var n := RunCount(|calls|, answers);
            var w := Play(w0, command, behaviours, Performed(calls, answers));
            && w.ok && |w.slots| == |w0.slots|
            && w.stack == (if exists i :: 0 <= i < n && behaviours(i).Ours? then [] else w0.stack)
            && w.slots[x] == SlotAfter(behaviours, n, Bypassing(|calls|, answers), x, w0.slots[x])
  {
    hide Step, FinalizersOf, Reverse, Performed, RunCount, Invocations, PostsOf, Entered, Play, Bypassing,
         EnteredValue, PostedValue, FinalValue, FirstTouch;
    var ran := calls[..RunCount(|calls|, Answers(behaviours))];
    var u := UntilFinalizers(w0, command, behaviours, calls, x);
    AnyOfOurs(w0, command, behaviours, ran);
    EnteredCounts(w0, command, behaviours, ran);
    EnteredSlot(w0, command, behaviours, ran, x);
    FinalizersUnwind(w0, command, behaviours, ran, u, x);
  }

  // Nobody but the shader mod's saved writes touches slot x before it is first saved, nor, while it is not
  // saved at all, later.
  ghost predicate LeftAlone(behaviours: nat -> Behaviour, n: nat, x: nat) {
    var k := FirstTouch(behaviours, n, x);
    && (forall i :: 0 <= i < k ==>
          && !Touches(behaviours(i).found, x)
          && (behaviours(i).Foreign? ==> !Touches(behaviours(i).finally, x))
          && (k == n ==> !Touches(behaviours(i).afterwards, x)))
    && (k < n ==> !Touches(behaviours(k).found, x))
  }

  // Such a slot ends as it began.
  lemma SlotRestored(w0: World, command: nat, behaviours: nat -> Behaviour, calls: seq<Call>, x: nat)
    requires w0.command != command && w0.invoked == 0 && w0.ok && x < |w0.slots|
    requires LeftAlone(behaviours, RunCount(|calls|, Answers(behaviours)), x)
    ensures Play(w0, command, behaviours, Performed(calls, Answers(behaviours))).slots[x] == w0.slots[x]
  {
    hide Step, Performed, RunCount, Play, Bypassing, FinalValue, EnteredValue, PostedValue, Touches, Written;
    var n, value := RunCount(|calls|, Answers(behaviours)), w0.slots[x];
    var k := FirstTouch(behaviours, n, x);
    CommandUnwinds(w0, command, behaviours, calls, x);
    ValueKept(behaviours, k, x, value);
    if k < n {
      EnteredNext(behaviours, k, x, value);
    } else {
      PostsKept(behaviours, n, x, value);
    }
  }

  lemma {:induction false} WrittenKept(writes: seq<Write>, x: nat, value: nat)
    requires !Touches(writes, x)
    ensures Written(writes, x, value) == value
    decreases |writes|
  {
    if writes != [] {
      TouchesLast(writes, x);
      WrittenKept(writes[..|writes| - 1], x, value);
    }
  }

  lemma EnteredNext(behaviours: nat -> Behaviour, k: nat, x: nat, value: nat)
    requires !Touches(behaviours(k).found, x)
    ensures EnteredValue(behaviours, k + 1, x, value) == EnteredValue(behaviours, k, x, value)
  {
    hide Touches, Written;
    WrittenKept(behaviours(k).found, x, EnteredValue(behaviours, k, x, value));
  }

  lemma {:induction false} ValueKept(behaviours: nat -> Behaviour, k: nat, x: nat, value: nat)
    requires forall i :: 0 <= i < k ==>
               !Touches(behaviours(i).found, x) && (behaviours(i).Foreign? ==> !Touches(behaviours(i).finally, x))
    ensures EnteredValue(behaviours, k, x, value) == value && FinalValue(behaviours, k, x, value) == value
  {
    hide Touches, Written;
    if k > 0 {
      ValueKept(behaviours, k - 1, x, value);
      EnteredNext(behaviours, k - 1, x, value);
      if behaviours(k - 1).Foreign? { WrittenKept(behaviours(k - 1).finally, x, value); }
    }
  }

  lemma {:induction false} PostsKept(behaviours: nat -> Behaviour, n: nat, x: nat, value: nat)
    requires forall i :: 0 <= i < n ==> !Touches(behaviours(i).afterwards, x)
    ensures PostedValue(behaviours, n, x, value) == value
  {
    hide Touches, Written;
    if n > 0 {
      PostsKept(behaviours, n - 1, x, value);
      WrittenKept(behaviours(n - 1).afterwards, x, value);
    }
  }
}
