/** Which connect loops can still report a status of their node (internal/server/nodemanager/manager.go). */
module Working {
  import opened GoLib
  import opened Manager

  predicate StillToReport(r: Option<ReadPc>) {
    BeforeEviction(r) || r == Some(Reporting)
  }

  /** A loop that can come to a report: it has one ahead, its read loop has, or it may dial again. */
  predicate WorkingLoop(s: State, l: LoopId)
    requires l in s.loops
  {
    match s.loops[l].pc
    case CheckStop => !s.stopped
    case Backoff => !s.stopped
    case Await(c) => !s.stopped || (c in s.links && StillToReport(s.links[c].reader))
    case Leaving => false
    case Finished => false
    case _ => true
  }

  predicate LoopAtWork(s: State, n: NodeId) {
    exists l :: l in s.loops && s.loops[l].node == n && WorkingLoop(s, l)
  }

  // ---- an idle node stays idle -----------------------------------------------------------------------

  /** Reports of a step, none of them of the node. */
  predicate SilentOn(s: State, t: State, n: NodeId) {
    t.events == s.events || (|t.events| == |s.events| + 1 && t.events[|s.events|].node != n)
  }

  lemma IdleLoopMoves(s: State, l: LoopId, choice: Choice)
    requires l in s.loops && !WorkingLoop(s, l) && LoopMoves(s, l, choice).Some?
    ensures var t := LoopMoves(s, l, choice).value;
            l in t.loops && !WorkingLoop(t, l) && t.events == s.events && t.links == s.links && t.stopped == s.stopped
  {
  }

  lemma OtherLoopMoves(s: State, l: LoopId, choice: Choice)
    requires l in s.loops && LoopMoves(s, l, choice).Some?
    ensures var t := LoopMoves(s, l, choice).value;
            && t.stopped == s.stopped
            && (t.events == s.events || t.events == s.events + [Event(s.loops[l].node, true)])
  {
  }

  lemma OtherLinks(s: State, l: LoopId, choice: Choice, c: ConnId)
    requires LoopsFit(s) && l in s.loops && LoopMoves(s, l, choice).Some?
    requires c in s.links && s.links[c].node != s.loops[l].node
    ensures var t := LoopMoves(s, l, choice).value; c in t.links && t.links[c] == s.links[c]
  {
    assert LoopFits(s, l);
    hide LoopsFit;
  }

  lemma LoopStepIdle(s: State, l: LoopId, choice: Choice, n: NodeId)
    requires LoopsFit(s) && !LoopAtWork(s, n) && l in s.loops && LoopMoves(s, l, choice).Some?
    ensures !LoopAtWork(LoopMoves(s, l, choice).value, n) && SilentOn(s, LoopMoves(s, l, choice).value, n)
  {
    var t := LoopMoves(s, l, choice).value;
    LoopStepShape(s, l, choice);
    if s.loops[l].node == n {
      IdleLoopMoves(s, l, choice);
    } else {
      OtherLoopMoves(s, l, choice);
      forall c | c in s.links && s.links[c].node != s.loops[l].node ensures c in t.links && t.links[c] == s.links[c] {
        OtherLinks(s, l, choice, c);
      }
    }
    hide LoopMoves;
    forall m | m in t.loops && t.loops[m].node == n ensures !WorkingLoop(t, m) {
      assert !WorkingLoop(s, m) && LoopFits(s, m);
    }
  }

  lemma ReadStepShape(s: State, c: ConnId)
    requires c in s.links && ReadMoves(s, c).Some?
    ensures var t := ReadMoves(s, c).value;
            && t.loops == s.loops && t.stopped == s.stopped && c in t.links && t.links == s.links[c := t.links[c]]
            && (t.events == s.events
                || (t.events == s.events + [Event(s.links[c].node, false)] && s.links[c].reader == Some(Reporting)))
            && (s.links[c].reader == Some(ClosingStop) ==> t.links[c].reader == Some(Over))
  {
  }

  lemma ReadStepIdle(s: State, c: ConnId, n: NodeId)
    requires LoopsFit(s) && LinksFit(s) && !LoopAtWork(s, n) && c in s.links && ReadMoves(s, c).Some?
    ensures !LoopAtWork(ReadMoves(s, c).value, n) && SilentOn(s, ReadMoves(s, c).value, n)
  {
    var t := ReadMoves(s, c).value;
    if s.links[c].node == n && s.links[c].reader != Some(Over) {
      var l := Waiter(s, c);
      assert !WorkingLoop(s, l);
    }
    ReadStepShape(s, c);
    hide ReadMoves, LinksFit;
    assert s.links[c].node == n ==> s.links[c].reader == Some(ClosingStop) || s.links[c].reader == Some(Over);
    forall m | m in t.loops && t.loops[m].node == n ensures !WorkingLoop(t, m) {
      assert !WorkingLoop(s, m) && LoopFits(s, m);
    }
  }

  /** A node nobody is at work on is neither reported on nor taken to work by any step but a reconcile of it in a
      running manager. */
  lemma StepIdle(s: State, step: Step, n: NodeId)
    requires Inv(s) && !LoopAtWork(s, n) && Next(s, step).Some?
    requires step.Reconcile? && step.node == n ==> s.stopped
    ensures !LoopAtWork(Next(s, step).value, n) && SilentOn(s, Next(s, step).value, n)
  {
    var t := Next(s, step).value;
    match step
    case LoopStep(l, choice) => LoopStepIdle(s, l, choice, n);
    case ReadStep(c) => ReadStepIdle(s, c, n);
    case _ =>
      forall m | m in t.loops && t.loops[m].node == n ensures !WorkingLoop(t, m) {
        assert m in s.loops ==> !WorkingLoop(s, m);
      }
  }

  // ---- a working loop comes to its report ---------------------------------------------------------------

  /** Steps to go before the report. */
  function Left(s: State, l: LoopId): nat
    requires l in s.loops
  {
    match s.loops[l].pc
    case Report(_) => 0
    case Insert(_) => 1
    case Dialing => 2
    case LookUp => 3
    case CheckNode => 4
    case CheckStop => 5
    case Backoff => 6
    case Spawn(_) => 4
    case Await(c) => (match if c in s.links then s.links[c].reader else None
                      case Some(Reading) => 3
                      case Some(ClosingSocket) => 2
                      case Some(Evicting) => 1
                      case Some(Reporting) => 0
                      case Some(ClosingStop) => 7
                      case _ => 6)
    case _ => 0
  }

  /** The step is the loop's or its read loop's, and its node is taken to be in the store. */
  predicate Ordinary(step: Step, l: LoopId) {
    step.ReadStep? || (step.LoopStep? && step.loop == l && step.choice != NodeGone)
  }

  /** One step nearer to the report, or the report itself. */
  predicate Nearer(s: State, t: State, l: LoopId)
    requires l in s.loops
  {
    && l in t.loops && t.loops[l].node == s.loops[l].node
    && ((t.events == s.events && WorkingLoop(t, l) && Left(t, l) < Left(s, l))
        || (|t.events| == |s.events| + 1 && t.events[|s.events|].node == s.loops[l].node))
  }

  /** A loop before its report. */
  lemma LoopNearer(s: State, l: LoopId, choice: Choice)
    requires l in s.loops && WorkingLoop(s, l) && LoopFits(s, l) && !s.loops[l].pc.Await? && choice != NodeGone && choice != SeesStop
    requires s.loops[l].pc == LookUp || s.loops[l].pc.Insert? ==> s.loops[l].node !in s.conns
    requires if s.loops[l].pc == Dialing then choice.Dials? && choice.conn !in s.links else choice == Go
    ensures LoopMoves(s, l, choice).Some? && Nearer(s, LoopMoves(s, l, choice).value, l)
  {
  }

  lemma AdvanceLoop(s: State, l: LoopId) returns (step: Step)
    requires Inv(s) && l in s.loops && WorkingLoop(s, l) && !s.loops[l].pc.Await?
    ensures Ordinary(step, l) && Next(s, step).Some? && Nearer(s, Next(s, step).value, l)
  {
    hide LoopMoves, Nearer, WorkingLoop, LoopFits;
    assert LoopFits(s, l);
    assert s.loops[l].pc == LookUp || s.loops[l].pc.Insert? ==> s.loops[l].node !in s.conns by {
      if s.loops[l].pc == LookUp || s.loops[l].pc.Insert? {
        NothingListed(s, l);
      }
    }
    hide Inv;
    var choice := Go;
    if s.loops[l].pc == Dialing {
      var c := FreshKey(s.links);
      choice := Dials(c);
    }
    LoopNearer(s, l, choice);
    step := LoopStep(l, choice);
  }

  /** A read loop before its report, or between it and the end. */
  lemma ReadNearer(s: State, l: LoopId, c: ConnId)
    requires l in s.loops && WorkingLoop(s, l) && LoopFits(s, l) && s.loops[l].pc == Await(c) && s.links[c].reader != Some(Over)
    ensures ReadMoves(s, c).Some? && Nearer(s, ReadMoves(s, c).value, l)
  {
  }

  lemma WaitNearer(s: State, l: LoopId, c: ConnId)
    requires l in s.loops && WorkingLoop(s, l) && s.loops[l].pc == Await(c)
    requires c in s.links && s.links[c].reader == Some(Over) && s.links[c].stops > 0
    ensures LoopMoves(s, l, Go).Some? && Nearer(s, LoopMoves(s, l, Go).value, l)
  {
  }

  lemma AdvanceWait(s: State, l: LoopId) returns (step: Step)
    requires Inv(s) && l in s.loops && WorkingLoop(s, l) && s.loops[l].pc.Await?
    ensures Ordinary(step, l) && Next(s, step).Some? && Nearer(s, Next(s, step).value, l)
  {
    hide LoopMoves, ReadMoves, Nearer, WorkingLoop;
    var c := s.loops[l].pc.conn;
    assert LoopFits(s, l) && LinkFits(s, c);
    if s.links[c].reader == Some(Over) {
      WaitNearer(s, l, c);
      step := LoopStep(l, Go);
    } else {
      ReadNearer(s, l, c);
      step := ReadStep(c);
    }
  }

  lemma Advance(s: State, l: LoopId) returns (step: Step)
    requires Inv(s) && l in s.loops && WorkingLoop(s, l)
    ensures Ordinary(step, l) && Next(s, step).Some? && Nearer(s, Next(s, step).value, l)
  {
    if s.loops[l].pc.Await? {
      step := AdvanceWait(s, l);
    } else {
      step := AdvanceLoop(s, l);
    }
  }

  // ---- a listed node is taken to work --------------------------------------------------------------------

  /** With the manager running and no loop at work on the node, a loop of it that is still active is leaving; once it
      has left, nothing keeps a reconcile from starting a new one. */
  lemma LeavingOnly(s: State, n: NodeId, l: LoopId)
    requires Inv(s) && !s.stopped && !LoopAtWork(s, n)
    requires l in s.loops && s.loops[l].node == n && Active(s.loops[l].pc)
    ensures s.loops[l].pc == Leaving && Next(s, LoopStep(l, Go)).Some?
    ensures var t := Next(s, LoopStep(l, Go)).value; t.events == s.events && t.stopped == s.stopped && !HasLoop(t, n)
  {
    assert !WorkingLoop(s, l);
    LoopStepShape(s, l, Go);
  }

  lemma ReconcileStarts(s: State, n: NodeId) returns (l: LoopId)
    requires Inv(s) && Supervised(s) && !s.stopped && !HasLoop(s, n)
    ensures Next(s, Reconcile(n, l)).Some?
    ensures var t := Next(s, Reconcile(n, l)).value;
            t.events == s.events && l in t.loops && t.loops[l] == Loop(n, CheckStop) && WorkingLoop(t, l)
  {
    l := FreshKey(s.loops);
    if n in s.conns {
      ListedHeld(s, n);
    }
  }
}
