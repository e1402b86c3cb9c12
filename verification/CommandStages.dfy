// Which bound pipelines a command looks at, and in which order.
module CommandStages {
  import opened CommandProtocol
  import opened CommandIndex

  datatype IndirectCommand =
    UnknownCommand | DrawCommand | DrawIndexedCommand | DispatchCommand | DispatchMeshCommand | DispatchRaysCommand

  datatype Arguments = Arguments(command: Command, indirect: IndirectCommand, unknownIsDispatch: bool)

  const VERTEX := 0
  const HULL := 1
  const DOMAIN := 2
  const GEOMETRY := 3
  const PIXEL := 4
  const COMPUTE := 5
  const AMPLIFICATION := 6
  const MESH := 7

  // ---- What the slots of a command are, kind by kind ----

  const DRAW_STAGES := {VERTEX, HULL, DOMAIN, GEOMETRY, PIXEL}
  const MESH_STAGES := {AMPLIFICATION, MESH, PIXEL}

  // A stage has a slot exactly if a pipeline is bound there and the stage is one of the given; the pixel stage
  // comes last, the others in the order of their numbers.
  ghost predicate SlotsOf(stages: set<nat>, bound: seq<nat>, slots: seq<Bound>)
    requires |bound| == STAGE_COUNT
  {
    && (forall b: Bound ::
          b in slots <==> b.stage in stages && b.stage < STAGE_COUNT && b.pipeline == bound[b.stage] != 0)
    && Ordered(slots)
  }

  predicate Ordered(slots: seq<Bound>) {
    forall i, j :: 0 <= i < j < |slots| ==> Before(slots[i].stage, slots[j].stage)
  }

  predicate Before(a: nat, b: nat) {
    a != PIXEL && (b == PIXEL || a < b)
  }

  ghost predicate SlotsFor(args: Arguments, bound: seq<nat>, slots: seq<Bound>)
    requires |bound| == STAGE_COUNT
  {
    match args.command
    case Draw => SlotsOf(DRAW_STAGES, bound, slots)
    case DrawIndexed => SlotsOf(DRAW_STAGES, bound, slots)
    case Dispatch => SlotsOf({COMPUTE}, bound, slots)
    case DispatchMesh => SlotsOf(MESH_STAGES, bound, slots)
    case Indirect =>
      match args.indirect
      case UnknownCommand => SlotsOf(if args.unknownIsDispatch then {COMPUTE} else DRAW_STAGES, bound, slots)
      case DrawCommand => SlotsOf(DRAW_STAGES, bound, slots)
      case DrawIndexedCommand => SlotsOf(DRAW_STAGES, bound, slots)
      case DispatchCommand => SlotsOf({COMPUTE}, bound, slots)
      case DispatchMeshCommand => SlotsOf(MESH_STAGES, bound, slots)
      case DispatchRaysCommand => SlotsOf({COMPUTE}, bound, slots)
  }

  // There is only one such sequence.
  lemma {:induction false} OrderedUnique(a: seq<Bound>, b: seq<Bound>)
    requires Ordered(a) && Ordered(b) && forall x: Bound :: x in a <==> x in b
    ensures a == b
    decreases |a|
  {
    HasFirst(a);
    HasFirst(b);
    if a != [] && b != [] {
      hide Ordered, Before;
      var k, l := |a| - 1, |b| - 1;
      LastComesLast(a);
      LastComesLast(b);
      NeverBoth(a[k].stage, b[l].stage);
      assert a[k] in b && b[l] in a;
      assert a[k] == b[l];
      forall z: Bound ensures z in a[..k] <==> z in b[..l] {
        assert z in a <==> z in b;
      }
      OrderedUnique(a[..k], b[..l]);
      assert a == a[..k] + [a[k]] && b == b[..l] + [b[l]];
    }
  }

  lemma LastComesLast(a: seq<Bound>)
    requires Ordered(a) && a != []
    ensures var k := |a| - 1;
            && a[k] in a && Ordered(a[..k]) && a[k] !in a[..k]
            && forall z: Bound :: z in a <==> z in a[..k] || z == a[k]
    ensures forall z :: z in a[..|a| - 1] ==> Before(z.stage, a[|a| - 1].stage)
  {
    var k := |a| - 1;
    assert a == a[..k] + [a[k]];
  }

  lemma NeverBoth(s: nat, t: nat)
    ensures !(Before(s, t) && Before(t, s))
  {
  }

  lemma HasFirst(s: seq<Bound>)
    ensures s != [] ==> s[0] in s
  {
  }

  lemma SlotsUnique(args: Arguments, bound: seq<nat>, a: seq<Bound>, b: seq<Bound>)
    requires |bound| == STAGE_COUNT && SlotsFor(args, bound, a) && SlotsFor(args, bound, b)
    ensures a == b
  {
    hide Ordered;
    OrderedUnique(a, b);
  }

  // Slots are for different stages.
  lemma SlotsWellBound(args: Arguments, bound: seq<nat>, slots: seq<Bound>)
    requires |bound| == STAGE_COUNT && SlotsFor(args, bound, slots)
    ensures WellBound(slots)
  {
    forall i | 0 <= i < |slots| ensures slots[i].stage < STAGE_COUNT { assert slots[i] in slots; }
    assert Ordered(slots);
  }

  // ---- Collecting them ----

  predicate IsMesh(args: Arguments) {
    args.command == DispatchMesh || (args.command == Indirect && args.indirect == DispatchMeshCommand)
  }

  predicate IsDispatch(args: Arguments) {
    || args.command == Dispatch
    || (args.command == Indirect
        && (args.indirect == DispatchCommand || args.indirect == DispatchRaysCommand
            || (args.indirect == UnknownCommand && args.unknownIsDispatch)))
  }

  method CollectStage(slots: seq<Bound>, bound: seq<nat>, stage: nat, ghost stages: set<nat>)
    returns (slots': seq<Bound>)
    requires |bound| == STAGE_COUNT && stage < STAGE_COUNT && SlotsOf(stages, bound, slots)
    requires forall s <- stages :: Before(s, stage)
    ensures SlotsOf(stages + {stage}, bound, slots')
    ensures |slots'| <= |slots| + 1
  {
    slots' := slots;
    if bound[stage] != 0 { slots' := slots' + [Bound(bound[stage], stage)]; }
    forall i | 0 <= i < |slots| ensures Before(slots[i].stage, stage) { assert slots[i] in slots; }
  }

  method CollectStages(args: Arguments, bound: seq<nat>) returns (slots: seq<Bound>)
    requires |bound| == STAGE_COUNT
    ensures SlotsFor(args, bound, slots) && |slots| <= STAGE_COUNT
  {
    hide SlotsOf;
    slots := [];
    NoSlots(bound);
    if IsMesh(args) {
      slots := CollectStage(slots, bound, AMPLIFICATION, {});
      slots := CollectStage(slots, bound, MESH, {AMPLIFICATION});
      slots := CollectStage(slots, bound, PIXEL, {AMPLIFICATION, MESH});
      assert {AMPLIFICATION, MESH} + {PIXEL} == MESH_STAGES;
    } else if IsDispatch(args) {
      slots := CollectStage(slots, bound, COMPUTE, {});
      assert {} + {COMPUTE} == {COMPUTE};
    } else {
      ghost var done: set<nat> := {};
      var stage := 0;
      while stage < STAGE_COUNT
        invariant stage <= STAGE_COUNT && |slots| <= stage && SlotsOf(done, bound, slots)
        invariant forall s :: s in done <==> s in DRAW_STAGES && s < stage
      {
        if stage != COMPUTE && stage != AMPLIFICATION && stage != MESH {
          slots := CollectStage(slots, bound, stage, done);
          done := done + {stage};
        }
        stage := stage + 1;
      }
      assert done == DRAW_STAGES;
    }
  }

  lemma NoSlots(bound: seq<nat>)
    requires |bound| == STAGE_COUNT
    ensures SlotsOf({}, bound, [])
  {
  }
}
