/** What is left after Close: the comment on it promises that all connections stop (internal/server/nodemanager/manager.go). */
module Closing {
  import opened GoLib
  import opened Manager

  /** The states a schedule leads to from a given one. */
  function RunFrom(s: State, steps: seq<Step>): Option<State>
    decreases |steps|
  {
    if steps == [] then Some(s)
    else match Next(s, steps[0])
      case Some(t) => RunFrom(t, steps[1..])
      case None => None
  }

  /** Close has returned and no connection is listed. */
  predicate Closed(s: State) {
    s.stopped && s.emptied && s.conns == map[]
  }

  /** A connect loop is past its stop check and has not listed its connection yet. */
  predicate Connecting(p: LoopPc) {
    p.CheckNode? || p.LookUp? || p.Dialing? || p.Insert?
  }

  predicate InFlight(s: State) {
    exists l :: l in s.loops && Connecting(s.loops[l].pc)
  }

  ghost predicate StaysClosed(s: State) {
    forall steps | RunFrom(s, steps).Some? :: RunFrom(s, steps).value.conns == map[]
  }

  lemma LoopStaysDown(s: State, l: LoopId, choice: Choice)
    requires Closed(s) && l in s.loops && !Connecting(s.loops[l].pc) && LoopMoves(s, l, choice).Some?
    ensures var t := LoopMoves(s, l, choice).value;
            Closed(t) && OneLoopChanges(s, t, l) && !Connecting(t.loops[l].pc)
  {
  }

  lemma StepStaysDown(s: State, step: Step)
    requires Closed(s) && !InFlight(s) && Next(s, step).Some?
    ensures Closed(Next(s, step).value) && !InFlight(Next(s, step).value)
  {
    hide LoopMoves;
    match step
    case LoopStep(l, choice) => LoopStaysDown(s, l, choice);
    case DropNode(n) => assert s.conns - {n} == map[];
    case ReadStep(c) => ReadStaysDown(s, c);
    case Reconcile(n, l) =>
    case CloseStop =>
    case CloseMaps =>
  }

  lemma ReadStaysDown(s: State, c: ConnId)
    requires Closed(s) && c in s.links && ReadMoves(s, c).Some?
    ensures var t := ReadMoves(s, c).value; Closed(t) && t.loops == s.loops
  {
  }

  lemma {:induction false} RunStaysDown(s: State, steps: seq<Step>)
    requires Closed(s) && !InFlight(s) && RunFrom(s, steps).Some?
    ensures RunFrom(s, steps).value.conns == map[]
    decreases |steps|
  {
    hide Next, InFlight;
    if steps != [] {
      StepStaysDown(s, steps[0]);
      RunStaysDown(Next(s, steps[0]).value, steps[1..]);
    }
  }

  /** What is left to do before a connecting loop lists its connection. */
  function Left(p: LoopPc): nat {
    match p
    case CheckNode => 3
    case LookUp => 2
    case Dialing => 1
    case _ => 0
  }

  /** One step of a connecting loop that nothing interferes with. */
  lemma ConnectStep(s: State, l: LoopId) returns (choice: Choice)
    requires l in s.loops && Connecting(s.loops[l].pc) && !s.loops[l].pc.Insert? && s.conns == map[]
    ensures LoopMoves(s, l, choice).Some?
    ensures var t := LoopMoves(s, l, choice).value;
            l in t.loops && Connecting(t.loops[l].pc) && Left(t.loops[l].pc) < Left(s.loops[l].pc) && t.conns == map[]
  {
    choice := Go;
    if s.loops[l].pc == Dialing {
      var c := FreshKey(s.links);
      choice := Dials(c);
    }
  }

  lemma {:induction false} LateListing(s: State, l: LoopId) returns (steps: seq<Step>)
    requires l in s.loops && Connecting(s.loops[l].pc) && s.conns == map[]
    ensures RunFrom(s, steps).Some? && s.loops[l].node in RunFrom(s, steps).value.conns
    decreases Left(s.loops[l].pc)
  {
    if s.loops[l].pc.Insert? {
      steps := [LoopStep(l, Go)];
      InsertLists(s, l);
    } else {
      var choice := ConnectStep(s, l);
      LoopStepLoop(s, l, choice, l);
      var t := LoopMoves(s, l, choice).value;
      hide LoopMoves;
      var more := LateListing(t, l);
      steps := [LoopStep(l, choice)] + more;
      assert steps[1..] == more;
    }
  }

  lemma InsertLists(s: State, l: LoopId)
    requires l in s.loops && s.loops[l].pc.Insert? && s.conns == map[]
    ensures RunFrom(s, [LoopStep(l, Go)]).Some? && s.loops[l].node in RunFrom(s, [LoopStep(l, Go)]).value.conns
  {
    assert [LoopStep(l, Go)][1..] == [];
  }

  /** After Close no connection is listed ever again exactly when no connect loop was past its stop check and still
      on its way to a connection. */
  lemma CloseLastsExactly(s: State)
    requires Closed(s)
    ensures StaysClosed(s) <==> !InFlight(s)
  {
    hide RunFrom;
    if InFlight(s) {
      var l :| l in s.loops && Connecting(s.loops[l].pc);
      var steps := LateListing(s, l);
      assert RunFrom(s, steps).value.conns != map[];
    } else {
      forall steps | RunFrom(s, steps).Some? ensures RunFrom(s, steps).value.conns == map[] {
        RunStaysDown(s, steps);
      }
    }
  }

  /** The last step of Close leaves nothing listed, and for good exactly under that condition. */
  lemma CloseEmptiesExactly(s: State)
    requires Next(s, CloseMaps).Some?
    ensures Next(s, CloseMaps).value.conns == map[]
    ensures StaysClosed(Next(s, CloseMaps).value) <==> !InFlight(s)
  {
    hide StaysClosed;
    CloseLastsExactly(Next(s, CloseMaps).value);
  }

  /** A dropped node is not listed, and is not again before a connect loop of it reaches its locked section; nothing else
      is touched. */
  lemma DropUnlists(s: State, n: NodeId, steps: seq<Step>)
    requires Next(s, DropNode(n)).Some? && RunFrom(Next(s, DropNode(n)).value, steps).Some?
    requires NoInsert(Next(s, DropNode(n)).value, n, steps)
    ensures n !in RunFrom(Next(s, DropNode(n)).value, steps).value.conns
    ensures Next(s, DropNode(n)).value.(conns := s.conns) == s
    ensures forall m | m != n :: m in s.conns <==> m in Next(s, DropNode(n)).value.conns
  {
    Unlisted(Next(s, DropNode(n)).value, n, steps);
  }

  /** No step of the schedule is the one in which a loop of the node lists its connection. */
  predicate NoInsert(s: State, n: NodeId, steps: seq<Step>)
    decreases |steps|
  {
    steps == [] || Next(s, steps[0]).None? ||
    (!(steps[0].LoopStep? && steps[0].loop in s.loops && s.loops[steps[0].loop].node == n && s.loops[steps[0].loop].pc.Insert?)
     && NoInsert(Next(s, steps[0]).value, n, steps[1..]))
  }

  lemma {:induction false} Unlisted(s: State, n: NodeId, steps: seq<Step>)
    requires n !in s.conns && RunFrom(s, steps).Some? && NoInsert(s, n, steps)
    ensures n !in RunFrom(s, steps).value.conns
    decreases |steps|
  {
    hide Next;
    if steps != [] {
      StepUnlisted(s, n, steps[0]);
      Unlisted(Next(s, steps[0]).value, n, steps[1..]);
    }
  }

  lemma StepUnlisted(s: State, n: NodeId, step: Step)
    requires n !in s.conns && Next(s, step).Some?
    requires !(step.LoopStep? && step.loop in s.loops && s.loops[step.loop].node == n && s.loops[step.loop].pc.Insert?)
    ensures n !in Next(s, step).value.conns
  {
  }

  // ---- it can be so ------------------------------------------------------------------------------------

  /** Close overtakes a loop that has passed its stop check. */
  lemma RaceRuns() returns (race: seq<Step>)
    ensures Run(race) == Some(Lone(LookUp, true, true))
  {
    LoneStarts();
    LoneMoves(CheckStop, CheckNode);
    LoneMoves(CheckNode, LookUp);
    hide Run, Move;
    race := [];
    assert Run(race) == Some(START) by { RunNothing(); }
    RunThen(race, Reconcile("n", 0));
    race := race + [Reconcile("n", 0)];
    RunThen(race, LoopStep(0, Go));
    race := race + [LoopStep(0, Go)];
    RunThen(race, LoopStep(0, Go));
    race := race + [LoopStep(0, Go)];
    RunThen(race, CloseStop);
    race := race + [CloseStop];
    RunThen(race, CloseMaps);
    race := race + [CloseMaps];
  }

  /** Close does not stop all connections: some run lists one after Close has returned. */
  lemma ConnectionAfterClose() returns (steps: seq<Step>)
    ensures Run(steps).Some? && Run(steps).value.emptied && Run(steps).value.conns != map[]
  {
    var race := RaceRuns();
    var late := LateListing(Lone(LookUp, true, true), 0);
    RunSplit(race, late);
    steps := race + late;
    EmptiedStays(Lone(LookUp, true, true), late);
  }

  lemma {:induction false} EmptiedStays(s: State, steps: seq<Step>)
    requires s.emptied && RunFrom(s, steps).Some?
    ensures RunFrom(s, steps).value.emptied
    decreases |steps|
  {
    if steps != [] {
      StepEmptied(s, steps[0]);
      EmptiedStays(Next(s, steps[0]).value, steps[1..]);
    }
  }

  lemma StepEmptied(s: State, step: Step)
    requires s.emptied && Next(s, step).Some?
    ensures Next(s, step).value.emptied
  {
  }

  lemma {:induction false} RunSplit(before: seq<Step>, steps: seq<Step>)
    requires Run(before).Some?
    ensures Run(before + steps) == RunFrom(Run(before).value, steps)
    decreases |steps|
  {
    hide Next;
    if steps == [] {
      assert before + steps == before;
    } else {
      var more := before + [steps[0]];
      assert more[..|before|] == before && more[|before|] == steps[0];
      assert before + steps == more + steps[1..];
      if Next(Run(before).value, steps[0]).Some? {
        RunSplit(more, steps[1..]);
      } else {
        RunFails(more, steps[1..]);
      }
    }
  }

  lemma {:induction false} RunFails(before: seq<Step>, steps: seq<Step>)
    requires Run(before).None?
    ensures Run(before + steps).None?
    decreases |steps|
  {
    hide Next;
    if steps == [] {
      assert before + steps == before;
    } else {
      var all := before + steps;
      RunFails(before, steps[..|steps| - 1]);
      assert all[..|all| - 1] == before + steps[..|steps| - 1];
    }
  }
}
