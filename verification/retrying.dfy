/** A connect loop gives its node up for two reasons only, and otherwise tries again
    (internal/server/nodemanager/manager.go: connectLoop). */
module Retrying {
  import opened GoLib
  import opened Manager
  import C = Closing

  // ---- why a loop leaves ---------------------------------------------------------------------------------

  function Before(steps: seq<Step>): seq<Step>
    requires steps != []
  {
    steps[..|steps| - 1]
  }

  /** In some step of the run the loop asked the store for its node and did not find it. */
  predicate FoundGone(steps: seq<Step>, l: LoopId)
    requires Run(steps).Some?
  {
    steps != [] &&
    (FoundGone(Before(steps), l)
     || (var s := Run(Before(steps)).value;
         steps[|steps| - 1] == LoopStep(l, NodeGone) && l in s.loops && s.loops[l].pc == CheckNode))
  }

  /** The step of a loop that stops serving. */
  lemma LeavingStep(s: State, l: LoopId, choice: Choice)
    requires l in s.loops && Serving(s.loops[l].pc) && LoopMoves(s, l, choice).Some?
    ensures var t := LoopMoves(s, l, choice).value;
            && l in t.loops && t.stopped == s.stopped
            && (!Serving(t.loops[l].pc) && !s.stopped <==> s.loops[l].pc == CheckNode && choice == NodeGone && !s.stopped)
  {
  }

  lemma GoneStep(s: State, l: LoopId, choice: Choice)
    requires l in s.loops && !Serving(s.loops[l].pc) && LoopMoves(s, l, choice).Some?
    ensures l in LoopMoves(s, l, choice).value.loops && !Serving(LoopMoves(s, l, choice).value.loops[l].pc)
  {
  }

  /** Other steps leave the loop where it is. */
  lemma OtherStep(s: State, step: Step, l: LoopId)
    requires Next(s, step).Some? && !(step.LoopStep? && step.loop == l)
    ensures var t := Next(s, step).value;
            && (s.stopped ==> t.stopped)
            && (l in s.loops ==> l in t.loops && t.loops[l] == s.loops[l])
            && (l !in s.loops && l in t.loops ==> t.loops[l].pc == CheckStop)
  {
    match step
    case LoopStep(m, choice) => LoopStepShape(s, m, choice); StoppedSame(s, m, choice); hide LoopMoves;
    case ReadStep(c) =>
    case _ =>
  }

  lemma StoppedSame(s: State, l: LoopId, choice: Choice)
    requires l in s.loops && LoopMoves(s, l, choice).Some?
    ensures LoopMoves(s, l, choice).value.stopped == s.stopped
  {
  }

  lemma {:induction false} NeverStarted(steps: seq<Step>, l: LoopId)
    requires Run(steps).Some? && l !in Run(steps).value.loops
    ensures !FoundGone(steps, l)
  {
    hide Next;
    if steps != [] {
      var s, step := Run(Before(steps)).value, steps[|steps| - 1];
      if step.LoopStep? && step.loop == l {
        OwnStep(s, l, step.choice);
      } else {
        OtherStep(s, step, l);
        NeverStarted(Before(steps), l);
      }
    }
  }

  /** In every run of a manager that has not been stopped, a connect loop has given up exactly if it did not find its
      node in the store; a refused dial or a lost connection is no reason. */
  lemma {:induction false} GivesUpExactly(steps: seq<Step>, l: LoopId)
    requires Run(steps).Some? && l in Run(steps).value.loops && !Run(steps).value.stopped
    ensures !Serving(Run(steps).value.loops[l].pc) <==> FoundGone(steps, l)
  {
    hide Next;
    if steps != [] {
      var s, step := Run(Before(steps)).value, steps[|steps| - 1];
      if step.LoopStep? && step.loop == l {
        OwnStep(s, l, step.choice);
        GivesUpExactly(Before(steps), l);
      } else {
        OtherStep(s, step, l);
        if l in s.loops {
          GivesUpExactly(Before(steps), l);
        } else {
          NeverStarted(Before(steps), l);
        }
      }
    }
  }

  lemma OwnStep(s: State, l: LoopId, choice: Choice)
    requires Next(s, LoopStep(l, choice)).Some?
    ensures l in s.loops
    ensures var t := Next(s, LoopStep(l, choice)).value;
            && l in t.loops && t.stopped == s.stopped
            && (!s.stopped ==>
                  (!Serving(t.loops[l].pc) <==> !Serving(s.loops[l].pc) || (s.loops[l].pc == CheckNode && choice == NodeGone)))
  {
    if Serving(s.loops[l].pc) {
      LeavingStep(s, l, choice);
    } else {
      GoneStep(s, l, choice);
      StoppedSame(s, l, choice);
    }
  }

  // ---- trying again ------------------------------------------------------------------------------------------

  /** Steps of the loop and of its read loop, in which the node is found and no dial succeeds. */
  predicate Retry(step: Step, l: LoopId) {
    step.ReadStep? || (step.LoopStep? && step.loop == l && step.choice != NodeGone && !step.choice.Dials?)
  }

  /** How far the loop is from its stop check. */
  function ToGo(s: State, l: LoopId): nat
    requires l in s.loops
  {
    match s.loops[l].pc
    case CheckStop => 0
    case Backoff => 1
    case Dialing => 2
    case LookUp => 3
    case CheckNode => 4
    case Await(c) => (match if c in s.links then s.links[c].reader else None
                      case Some(Reading) => 6
                      case Some(ClosingSocket) => 5
                      case Some(Evicting) => 4
                      case Some(Reporting) => 3
                      case Some(ClosingStop) => 2
                      case _ => 1)
    case Spawn(_) => 7
    case Report(_) => 8
    case Insert(_) => 9
    case _ => 0
  }

  predicate Closer(s: State, t: State, l: LoopId)
    requires l in s.loops
  {
    l in t.loops && Serving(t.loops[l].pc) && ToGo(t, l) < ToGo(s, l) && t.stopped == s.stopped
  }

  lemma LoopCloser(s: State, l: LoopId)
    requires l in s.loops && Serving(s.loops[l].pc) && LoopFits(s, l) && !s.stopped
    requires !s.loops[l].pc.Await? && s.loops[l].pc != CheckStop
    requires s.loops[l].pc == LookUp || s.loops[l].pc.Insert? ==> s.loops[l].node !in s.conns
    ensures var choice := if s.loops[l].pc == Dialing then DialFails else Go;
            LoopMoves(s, l, choice).Some? && Closer(s, LoopMoves(s, l, choice).value, l)
  {
  }

  lemma WaitCloser(s: State, l: LoopId)
    requires l in s.loops && LoopFits(s, l) && s.loops[l].pc.Await? && LinkFits(s, s.loops[l].pc.conn)
    ensures var c := s.loops[l].pc.conn;
            if s.links[c].reader == Some(Over)
            then LoopMoves(s, l, Go).Some? && Closer(s, LoopMoves(s, l, Go).value, l)
            else ReadMoves(s, c).Some? && Closer(s, ReadMoves(s, c).value, l)
  {
  }

  lemma OneCloser(s: State, l: LoopId) returns (step: Step)
    requires Inv(s) && l in s.loops && Serving(s.loops[l].pc) && s.loops[l].pc != CheckStop && !s.stopped
    ensures Retry(step, l) && Next(s, step).Some? && Closer(s, Next(s, step).value, l)
  {
    hide LoopMoves, ReadMoves, Closer;
    assert LoopFits(s, l);
    if s.loops[l].pc.Await? {
      var c := s.loops[l].pc.conn;
      assert LinkFits(s, c);
      WaitCloser(s, l);
      step := if s.links[c].reader == Some(Over) then LoopStep(l, Go) else ReadStep(c);
    } else {
      if s.loops[l].pc == LookUp || s.loops[l].pc.Insert? {
        NothingListed(s, l);
      }
      LoopCloser(s, l);
      step := LoopStep(l, if s.loops[l].pc == Dialing then DialFails else Go);
    }
  }

  lemma {:induction false} Returns(s: State, l: LoopId) returns (steps: seq<Step>)
    requires Inv(s) && l in s.loops && Serving(s.loops[l].pc) && !s.stopped
    ensures forall i | 0 <= i < |steps| :: Retry(steps[i], l)
    ensures C.RunFrom(s, steps).Some?
    ensures var t := C.RunFrom(s, steps).value; l in t.loops && t.loops[l].pc == CheckStop && !t.stopped
    decreases ToGo(s, l)
  {
    hide Inv, Next, Retry;
    if s.loops[l].pc == CheckStop {
      steps := [];
    } else {
      var step := OneCloser(s, l);
      StepHolds(s, step);
      var more := Returns(Next(s, step).value, l);
      steps := [step] + more;
      assert steps[1..] == more;
    }
  }

  /** In every run, as long as the manager has not been stopped and the loop has not missed its node, the loop comes back
      to its stop check by steps of its own and of its read loop alone, however often its node refuses the dial and
      whenever its connection is lost. */
  lemma ComesBack(steps: seq<Step>, l: LoopId) returns (more: seq<Step>)
    requires Run(steps).Some? && l in Run(steps).value.loops && !Run(steps).value.stopped && !FoundGone(steps, l)
    ensures forall i | 0 <= i < |more| :: Retry(more[i], l)
    ensures Run(steps + more).Some?
    ensures var t := Run(steps + more).value; l in t.loops && t.loops[l].pc == CheckStop && !t.stopped
  {
    hide Inv, Run, Retry;
    RunHolds(steps);
    GivesUpExactly(steps, l);
    more := Returns(Run(steps).value, l);
    C.RunSplit(steps, more);
  }

  /** A refused dial and a connection whose read loop is over lead back to the stop check directly. */
  lemma RetriesAtOnce(s: State, l: LoopId)
    requires l in s.loops && !s.stopped
    ensures s.loops[l].pc == Dialing ==>
              C.RunFrom(s, [LoopStep(l, DialFails), LoopStep(l, Go)]) == Some(s.(loops := s.loops[l := Loop(s.loops[l].node, CheckStop)]))
    ensures s.loops[l].pc.Await? && s.loops[l].pc.conn in s.links && s.links[s.loops[l].pc.conn].stops > 0 ==>
              C.RunFrom(s, [LoopStep(l, Go)]) == Some(s.(loops := s.loops[l := Loop(s.loops[l].node, CheckStop)]))
  {
    var back := s.(loops := s.loops[l := Loop(s.loops[l].node, CheckStop)]);
    assert Move(s, l, CheckStop) == back;
    if s.loops[l].pc == Dialing {
      var t := Move(s, l, Backoff);
      assert t.loops[l := Loop(s.loops[l].node, CheckStop)] == back.loops;
      assert Move(t, l, CheckStop) == back;
      OneStep(t, LoopStep(l, Go));
      assert [LoopStep(l, DialFails), LoopStep(l, Go)][1..] == [LoopStep(l, Go)];
    } else if s.loops[l].pc.Await? && s.loops[l].pc.conn in s.links && s.links[s.loops[l].pc.conn].stops > 0 {
      OneStep(s, LoopStep(l, Go));
    }
  }

  lemma OneStep(s: State, step: Step)
    ensures C.RunFrom(s, [step]) == Next(s, step)
  {
    hide Next;
    assert [step][1..] == [];
  }
}
