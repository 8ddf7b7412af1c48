/** Approval over runs of the server: when a pending node can leave pending without an Approve, and when a node that
    comes back after a deletion is safe (internal/server/api/nodes.go, internal/server/store/sqlite.go,
    internal/server/nodemanager/manager.go). */
module Approval {
  import opened GoLib
  import opened Lifecycle
  import M = Manager
  import W = Working

  // ---- reachable states ------------------------------------------------------------------------------

  /** What every reachable state has of the manager and of the Approve requests. */
  ghost predicate Sound(s: State, pairToken: string) {
    && M.Inv(s.manager) && M.Supervised(s.manager)
    && (pairToken == "" ==> forall h | h in s.approvals :: s.approvals[h].SettingStatus?)
  }

  lemma {:induction false} ApprovalsSound(pairToken: string, steps: seq<Step>)
    requires pairToken == "" && Run(pairToken, steps).Some?
    ensures forall h | h in Run(pairToken, steps).value.approvals :: Run(pairToken, steps).value.approvals[h].SettingStatus?
  {
    hide M.Next;
    if steps != [] {
      ApprovalsSound(pairToken, steps[..|steps| - 1]);
    }
  }

  lemma RunSound(pairToken: string, steps: seq<Step>)
    requires Run(pairToken, steps).Some?
    ensures Sound(Run(pairToken, steps).value, pairToken)
  {
    hide Run, M.Inv, M.Supervised, M.Run;
    ManagerRuns(pairToken, steps);
    M.RunHolds(ManagerSteps(steps));
    M.RunSupervised(ManagerSteps(steps));
    if pairToken == "" {
      ApprovalsSound(pairToken, steps);
    }
  }

  lemma StepSound(s: State, pairToken: string, step: Step)
    requires Sound(s, pairToken) && Next(s, pairToken, step).Some?
    ensures Sound(Next(s, pairToken, step).value, pairToken)
  {
    hide M.Inv, M.Supervised, M.Next;
    if step.Managed? {
      M.StepHolds(s.manager, step.step);
      M.InvListed(s.manager);
      M.StepSupervised(s.manager, step.step);
    }
  }

  // ---- a node at work -----------------------------------------------------------------------------------

  predicate Listed(s: State, n: NodeId) {
    exists h :: h in s.listings && n in s.listings[h]
  }

  /** Some goroutine can still come to report on the node: a connect loop, or a Reconcile that has it in its listing. */
  predicate AtWork(s: State, n: NodeId) {
    W.LoopAtWork(s.manager, n) || (!s.manager.stopped && Listed(s, n))
  }

  /** An Approve of the node is past its token check. */
  predicate Finishing(s: State, n: NodeId) {
    exists h :: h in s.approvals && s.approvals[h] == SettingStatus(n)
  }

  predicate PendingIfThere(s: State, n: NodeId) {
    n in s.nodes ==> s.nodes[n].status == Pending
  }

  lemma ManagedIdle(s: State, pairToken: string, h: HandlerId, step: M.Step, n: NodeId)
    requires Sound(s, pairToken) && !AtWork(s, n) && Next(s, pairToken, Managed(h, step)).Some?
    ensures var t := Next(s, pairToken, Managed(h, step)).value;
            !AtWork(t, n) && (n in t.nodes <==> n in s.nodes) && (n in s.nodes ==> t.nodes[n] == s.nodes[n])
  {
    hide M.Inv, M.Supervised, M.Next, W.LoopAtWork;
    W.StepIdle(s.manager, step, n);
    StoppedStays(s.manager, step);
  }

  lemma StoppedStays(m: M.State, step: M.Step)
    requires M.Next(m, step).Some?
    ensures m.stopped ==> M.Next(m, step).value.stopped
  {
    match step
    case LoopStep(l, choice) => W.OtherLoopMoves(m, l, choice);
    case ReadStep(c) => W.ReadStepShape(m, c);
    case _ =>
  }

  /** A pending or absent node nobody is at work on stays so, and stays out of work, until an Approve of it. */
  lemma StepQuiet(s: State, pairToken: string, step: Step, n: NodeId)
    requires Sound(s, pairToken) && !AtWork(s, n) && PendingIfThere(s, n)
    requires Next(s, pairToken, step).Some? && !ApprovalOf(s, step, n)
    ensures var t := Next(s, pairToken, step).value; !AtWork(t, n) && PendingIfThere(t, n)
  {
    hide M.Inv, M.Supervised, M.Next, W.LoopAtWork, Sound;
    match step
    case Managed(h, m) => ManagedIdle(s, pairToken, h, m, n);
    case List(h) => ListQuiet(s, pairToken, h, n);
    case _ => assert Listed(Next(s, pairToken, step).value, n) ==> Listed(s, n);
  }

  lemma ListQuiet(s: State, pairToken: string, h: HandlerId, n: NodeId)
    requires PendingIfThere(s, n)
    ensures Listed(Next(s, pairToken, List(h)).value, n) ==> Listed(s, n)
  {
  }

  // ---- from work to a report ------------------------------------------------------------------------------

  function RunFrom(s: State, pairToken: string, steps: seq<Step>): Option<State>
    decreases |steps|
  {
    if steps == [] then Some(s)
    else match Next(s, pairToken, steps[0])
      case Some(t) => RunFrom(t, pairToken, steps[1..])
      case None => None
  }

  predicate AllManaged(steps: seq<Step>) {
    forall i | 0 <= i < |steps| :: steps[i].Managed?
  }

  lemma RunFromCons(s: State, pairToken: string, step: Step, more: seq<Step>)
    requires Next(s, pairToken, step).Some?
    ensures RunFrom(s, pairToken, [step] + more) == RunFrom(Next(s, pairToken, step).value, pairToken, more)
  {
    hide Next;
    assert ([step] + more)[1..] == more;
  }

  /** The schedule leads the node out of pending by steps of the manager alone; its token stays as it was. */
  predicate LeadsOut(s: State, pairToken: string, n: NodeId, steps: seq<Step>) {
    && n in s.nodes && AllManaged(steps) && RunFrom(s, pairToken, steps).Some?
    && var t := RunFrom(s, pairToken, steps).value;
    && n in t.nodes && t.nodes[n].status != Pending && t.nodes[n].token == s.nodes[n].token
  }

  lemma LeadsOutCons(s: State, pairToken: string, n: NodeId, step: Step, more: seq<Step>)
    requires step.Managed? && Next(s, pairToken, step).Some? && n in s.nodes
    requires Next(s, pairToken, step).value.nodes == s.nodes && LeadsOut(Next(s, pairToken, step).value, pairToken, n, more)
    ensures LeadsOut(s, pairToken, n, [step] + more)
  {
    hide Next, RunFrom;
    RunFromCons(s, pairToken, step, more);
  }

  /** A working loop's step at the server. */
  lemma LoopAdvances(s: State, pairToken: string, l: M.LoopId) returns (step: Step)
    requires Sound(s, pairToken) && l in s.manager.loops && W.WorkingLoop(s.manager, l) && s.manager.loops[l].node in s.nodes
    ensures step.Managed? && Next(s, pairToken, step).Some?
    ensures var t := Next(s, pairToken, step).value;
            var n := s.manager.loops[l].node;
            W.Nearer(s.manager, t.manager, l)
            && (t.manager.events == s.manager.events ==> t.nodes == s.nodes)
            && (t.manager.events != s.manager.events ==>
                  n in t.nodes && t.nodes[n].status != Pending && t.nodes[n].token == s.nodes[n].token)
  {
    hide M.Inv, M.Supervised, M.Next, W.WorkingLoop;
    var m := W.Advance(s.manager, l);
    step := Managed(0, m);
  }

  lemma {:induction false} LoopLeadsOut(s: State, pairToken: string, l: M.LoopId) returns (steps: seq<Step>)
    requires Sound(s, pairToken) && l in s.manager.loops && W.WorkingLoop(s.manager, l) && s.manager.loops[l].node in s.nodes
    ensures LeadsOut(s, pairToken, s.manager.loops[l].node, steps)
    decreases W.Left(s.manager, l)
  {
    hide Next, Sound, RunFrom, W.WorkingLoop, W.Left;
    var n := s.manager.loops[l].node;
    var step := LoopAdvances(s, pairToken, l);
    var t := Next(s, pairToken, step).value;
    StepSound(s, pairToken, step);
    if t.manager.events == s.manager.events {
      var more := LoopLeadsOut(t, pairToken, l);
      LeadsOutCons(s, pairToken, n, step, more);
      steps := [step] + more;
    } else {
      RunFromOne(s, pairToken, step);
      steps := [step];
    }
  }

  lemma RunFromOne(s: State, pairToken: string, step: Step)
    requires Next(s, pairToken, step).Some?
    ensures RunFrom(s, pairToken, [step]) == Next(s, pairToken, step)
  {
    hide Next;
    assert [step][1..] == [];
  }

  /** A listed node with no active loop: its Reconcile starts one. */
  lemma ListingLeadsOut(s: State, pairToken: string, h: HandlerId, n: NodeId) returns (steps: seq<Step>)
    requires Sound(s, pairToken) && !s.manager.stopped && h in s.listings && n in s.listings[h] && n in s.nodes
    requires !M.HasLoop(s.manager, n)
    ensures LeadsOut(s, pairToken, n, steps)
  {
    hide M.Inv, M.Supervised, M.Next, RunFrom, W.WorkingLoop, M.HasLoop, LeadsOut;
    var l := W.ReconcileStarts(s.manager, n);
    var step := Managed(h, M.Reconcile(n, l));
    StepSound(s, pairToken, step);
    var t := Next(s, pairToken, step).value;
    assert t.nodes == s.nodes;
    hide Next, Sound;
    var more := LoopLeadsOut(t, pairToken, l);
    LeadsOutCons(s, pairToken, n, step, more);
    steps := [step] + more;
  }

  /** Work on a node comes to a report on it, if nothing interferes. */
  lemma WorkLeadsOut(s: State, pairToken: string, n: NodeId) returns (steps: seq<Step>)
    requires Sound(s, pairToken) && AtWork(s, n) && n in s.nodes
    ensures LeadsOut(s, pairToken, n, steps)
  {
    hide M.Inv, M.Supervised, M.Next, RunFrom, W.WorkingLoop, LeadsOut;
    if W.LoopAtWork(s.manager, n) {
      var l :| l in s.manager.loops && s.manager.loops[l].node == n && W.WorkingLoop(s.manager, l);
      steps := LoopLeadsOut(s, pairToken, l);
    } else {
      var h :| h in s.listings && n in s.listings[h];
      if M.HasLoop(s.manager, n) {
        var l :| l in s.manager.loops && s.manager.loops[l].node == n && M.Active(s.manager.loops[l].pc);
        W.LeavingOnly(s.manager, n, l);
        var step := Managed(0, M.LoopStep(l, M.Go));
        StepSound(s, pairToken, step);
        var t := Next(s, pairToken, step).value;
        hide Next, Sound, W.LoopAtWork, M.HasLoop;
        var more := ListingLeadsOut(t, pairToken, h, n);
        LeadsOutCons(s, pairToken, n, step, more);
        steps := [step] + more;
      } else {
        steps := ListingLeadsOut(s, pairToken, h, n);
      }
    }
  }

  // ---- pending nodes ------------------------------------------------------------------------------------------

  /** No step of the schedule completes an Approve of the node. */
  predicate Unapproved(s: State, pairToken: string, steps: seq<Step>, n: NodeId)
    decreases |steps|
  {
    steps == [] ||
    (!ApprovalOf(s, steps[0], n)
     && (Next(s, pairToken, steps[0]).Some? ==> Unapproved(Next(s, pairToken, steps[0]).value, pairToken, steps[1..], n)))
  }

  /** Without an Approve the node never leaves pending. */
  ghost predicate StaysPending(s: State, pairToken: string, n: NodeId) {
    forall steps | RunFrom(s, pairToken, steps).Some? && Unapproved(s, pairToken, steps, n) ::
      PendingIfThere(RunFrom(s, pairToken, steps).value, n)
  }

  lemma {:induction false} RunQuiet(s: State, pairToken: string, steps: seq<Step>, n: NodeId)
    requires Sound(s, pairToken) && !AtWork(s, n) && PendingIfThere(s, n)
    requires RunFrom(s, pairToken, steps).Some? && Unapproved(s, pairToken, steps, n)
    ensures PendingIfThere(RunFrom(s, pairToken, steps).value, n)
    decreases |steps|
  {
    hide Next, Sound, AtWork, PendingIfThere, ApprovalOf;
    if steps != [] {
      StepQuiet(s, pairToken, steps[0], n);
      StepSound(s, pairToken, steps[0]);
      RunQuiet(Next(s, pairToken, steps[0]).value, pairToken, steps[1..], n);
    }
  }

  lemma {:induction false} ManagedUnapproved(s: State, pairToken: string, steps: seq<Step>, n: NodeId)
    requires AllManaged(steps)
    ensures Unapproved(s, pairToken, steps, n)
    decreases |steps|
  {
    hide Next;
    if steps != [] {
      assert steps[0].Managed?;
      forall i | 0 <= i < |steps[1..]| ensures steps[1..][i].Managed? { assert steps[1..][i] == steps[i + 1]; }
      if Next(s, pairToken, steps[0]).Some? {
        ManagedUnapproved(Next(s, pairToken, steps[0]).value, pairToken, steps[1..], n);
      }
    }
  }

  /** In every run, deletions and rediscoveries included: a pending node never leaves pending without an Approve,
      whatever happens next, exactly when nobody is at work on it now. */
  lemma PendingStaysExactly(pairToken: string, steps: seq<Step>, n: NodeId)
    requires Run(pairToken, steps).Some?
    requires n in Run(pairToken, steps).value.nodes && Run(pairToken, steps).value.nodes[n].status == Pending
    ensures StaysPending(Run(pairToken, steps).value, pairToken, n) <==> !AtWork(Run(pairToken, steps).value, n)
  {
    hide Run, Next, Sound, AtWork, RunFrom, Unapproved;
    var s := Run(pairToken, steps).value;
    RunSound(pairToken, steps);
    if AtWork(s, n) {
      var more := WorkLeadsOut(s, pairToken, n);
      ManagedUnapproved(s, pairToken, more, n);
      assert !PendingIfThere(RunFrom(s, pairToken, more).value, n);
    } else {
      forall more | RunFrom(s, pairToken, more).Some? && Unapproved(s, pairToken, more, n)
        ensures PendingIfThere(RunFrom(s, pairToken, more).value, n)
      {
        RunQuiet(s, pairToken, more, n);
      }
    }
  }

  // ---- nodes that come back -------------------------------------------------------------------------------------

  /** A node that is not pending has a token. */
  predicate Kept(s: State, n: NodeId) {
    n in s.nodes && s.nodes[n].status != Pending ==> s.nodes[n].token != ""
  }

  /** Besides, whoever is at work on the node or about to set its status has reason to. */
  predicate Safe(s: State, n: NodeId) {
    && Kept(s, n)
    && (n in s.nodes && Finishing(s, n) ==> s.nodes[n].token != "")
    && (n in s.nodes && AtWork(s, n) ==> s.nodes[n].status != Pending)
  }

  /** The step puts the node into the store. */
  predicate Brings(s: State, step: Step, n: NodeId) {
    (step.Discover? || step.Create?) && step.node == n && n !in s.nodes
  }

  lemma ManagedSafe(s: State, pairToken: string, h: HandlerId, step: M.Step, n: NodeId)
    requires Sound(s, pairToken) && Safe(s, n) && n in s.nodes && Next(s, pairToken, Managed(h, step)).Some?
    ensures Safe(Next(s, pairToken, Managed(h, step)).value, n)
  {
    hide M.Inv, M.Supervised, M.Next, W.LoopAtWork;
    if !AtWork(s, n) {
      ManagedIdle(s, pairToken, h, step, n);
    }
  }

  lemma StoreStepSafe(s: State, pairToken: string, step: Step, n: NodeId)
    requires Sound(s, pairToken) && Safe(s, n) && !step.Managed? && Next(s, pairToken, step).Some?
    requires Brings(s, step, n) ==> !AtWork(s, n) && !Finishing(s, n)
    ensures Safe(Next(s, pairToken, step).value, n)
  {
    hide M.Inv, M.Supervised, W.LoopAtWork;
    var t := Next(s, pairToken, step).value;
    if n in t.nodes {
      match step
      case Approve(h, k) => ApprovalsShape(s, t, h, n);
      case AssignToken(h) => ApprovalsShape(s, t, h, n);
      case SetStatus(h) =>
        if s.approvals[h].node == n {
          assert Finishing(s, n);
        }
        assert Finishing(t, n) ==> Finishing(s, n);
      case List(h) =>
        if s.nodes[n].status == Pending {
          ListQuiet(s, pairToken, h, n);
        }
      case _ =>
    }
  }

  /** At most one request's state changes. */
  lemma ApprovalsShape(s: State, t: State, h: HandlerId, n: NodeId)
    requires forall k | k in t.approvals && k != h :: k in s.approvals && s.approvals[k] == t.approvals[k]
    ensures Finishing(t, n) ==> Finishing(s, n) || (h in t.approvals && t.approvals[h] == SettingStatus(n))
  {
  }

  lemma StepSafe(s: State, pairToken: string, step: Step, n: NodeId)
    requires Sound(s, pairToken) && Safe(s, n) && Next(s, pairToken, step).Some?
    requires Brings(s, step, n) ==> !AtWork(s, n) && !Finishing(s, n)
    ensures Safe(Next(s, pairToken, step).value, n)
  {
    hide Sound;
    if step.Managed? {
      if n in s.nodes {
        ManagedSafe(s, pairToken, step.handler, step.step, n);
      }
    } else {
      StoreStepSafe(s, pairToken, step, n);
    }
  }

  predicate Deletes(steps: seq<Step>, n: NodeId) {
    Delete(n) in steps
  }

  /** From now on, until it is deleted again, the node has a token whenever it is not pending. */
  ghost predicate StaysKept(s: State, pairToken: string, n: NodeId) {
    forall steps | RunFrom(s, pairToken, steps).Some? && !Deletes(steps, n) :: Kept(RunFrom(s, pairToken, steps).value, n)
  }

  lemma {:induction false} RunKept(s: State, pairToken: string, steps: seq<Step>, n: NodeId)
    requires Sound(s, pairToken) && Safe(s, n) && n in s.nodes
    requires RunFrom(s, pairToken, steps).Some? && !Deletes(steps, n)
    ensures Kept(RunFrom(s, pairToken, steps).value, n)
    decreases |steps|
  {
    hide Next, Sound, AtWork, Finishing;
    if steps != [] {
      assert steps[0] in steps && forall step | step in steps[1..] :: step in steps;
      StepSafe(s, pairToken, steps[0], n);
      StepSound(s, pairToken, steps[0]);
      StaysThere(s, pairToken, steps[0], n);
      RunKept(Next(s, pairToken, steps[0]).value, pairToken, steps[1..], n);
    }
  }

  lemma StaysThere(s: State, pairToken: string, step: Step, n: NodeId)
    requires n in s.nodes && step != Delete(n) && Next(s, pairToken, step).Some?
    ensures n in Next(s, pairToken, step).value.nodes
  {
    hide M.Next;
  }

  /** A node that comes back by discovery, hence without a token, keeps having a token whenever it is not pending,
      whatever happens next, exactly when nobody was at work on its id and no Approve of it was past the check. */
  lemma ReturnSafeExactly(pairToken: string, steps: seq<Step>, n: NodeId)
    requires Run(pairToken, steps).Some? && n !in Run(pairToken, steps).value.nodes
    ensures var s := Run(pairToken, steps).value;
            Next(s, pairToken, Discover(n)).Some?
            && (StaysKept(Next(s, pairToken, Discover(n)).value, pairToken, n) <==> !AtWork(s, n) && !Finishing(s, n))
  {
    hide Run, Sound, M.Next, RunFrom, W.LoopAtWork;
    var s := Run(pairToken, steps).value;
    RunSound(pairToken, steps);
    StepSound(s, pairToken, Discover(n));
    var t := Next(s, pairToken, Discover(n)).value;
    assert AtWork(t, n) <==> AtWork(s, n);
    assert Finishing(t, n) <==> Finishing(s, n);
    hide Next;
    if AtWork(t, n) {
      var more := WorkLeadsOut(t, pairToken, n);
      assert !Deletes(more, n) && !Kept(RunFrom(t, pairToken, more).value, n);
    } else if Finishing(t, n) {
      var h :| h in t.approvals && t.approvals[h] == SettingStatus(n);
      FinishBreaks(t, pairToken, h, n);
    } else {
      forall more | RunFrom(t, pairToken, more).Some? && !Deletes(more, n) ensures Kept(RunFrom(t, pairToken, more).value, n) {
        RunKept(t, pairToken, more, n);
      }
    }
  }

  lemma FinishBreaks(t: State, pairToken: string, h: HandlerId, n: NodeId)
    requires n in t.nodes && t.nodes[n].token == "" && h in t.approvals && t.approvals[h] == SettingStatus(n)
    ensures !StaysKept(t, pairToken, n)
  {
    var more := [SetStatus(h)];
    RunFromOne(t, pairToken, SetStatus(h));
    assert !Deletes(more, n) && !Kept(RunFrom(t, pairToken, more).value, n);
  }

  // ---- runs in which no node comes back unsafely -------------------------------------------------------------------

  predicate QuietReturn(s: State, step: Step) {
    (step.Discover? || step.Create?) && step.node !in s.nodes ==> !AtWork(s, step.node) && !Finishing(s, step.node)
  }

  /** Every node comes into the store while nobody is at work on its id. */
  predicate QuietReturns(pairToken: string, steps: seq<Step>)
    requires Run(pairToken, steps).Some?
  {
    steps == [] ||
    (var before := steps[..|steps| - 1];
     QuietReturns(pairToken, before) && QuietReturn(Run(pairToken, before).value, steps[|steps| - 1]))
  }

  lemma {:induction false} RunSafe(pairToken: string, steps: seq<Step>, n: NodeId)
    requires Run(pairToken, steps).Some? && QuietReturns(pairToken, steps)
    ensures Safe(Run(pairToken, steps).value, n)
  {
    hide Next, Sound, AtWork, Finishing, Kept;
    if steps == [] {
      StartSafe(n);
    } else {
      var before := steps[..|steps| - 1];
      RunSafe(pairToken, before, n);
      RunSound(pairToken, before);
      StepSafe(Run(pairToken, before).value, pairToken, steps[|steps| - 1], n);
    }
  }

  lemma StartSafe(n: NodeId)
    ensures Safe(START, n)
  {
  }

  /** In every such run each node that is not pending has a token, and the server is at work on approved nodes only. */
  lemma ApprovedNodesHaveTokens(pairToken: string, steps: seq<Step>, n: NodeId)
    requires Run(pairToken, steps).Some? && QuietReturns(pairToken, steps) && n in Run(pairToken, steps).value.nodes
    ensures var s := Run(pairToken, steps).value;
            && (s.nodes[n].status != Pending ==> s.nodes[n].token != "")
            && (AtWork(s, n) ==> s.nodes[n].status != Pending)
  {
    hide Run;
    RunSafe(pairToken, steps, n);
  }

  /** In such runs only Approve takes a node out of pending; in any run nothing takes it back, a token once set is never
      emptied, and discovery and manual adds leave the nodes they meet as they are. */
  lemma ApprovalMonotone(pairToken: string, steps: seq<Step>, step: Step, n: NodeId)
    requires Run(pairToken, steps + [step]).Some? && Run(pairToken, steps).Some?
    requires n in Run(pairToken, steps).value.nodes && n in Run(pairToken, steps + [step]).value.nodes
    ensures var s := Run(pairToken, steps).value;
            var a, b := s.nodes[n], Run(pairToken, steps + [step]).value.nodes[n];
            && (a.status == Pending && b.status != Pending && QuietReturns(pairToken, steps) ==> ApprovalOf(s, step, n))
            && (a.status != Pending ==> b.status != Pending)
            && (a.token != "" ==> b.token != "")
            && (step.Discover? || step.Create? ==> b == a)
  {
    hide M.Next, M.Inv, M.Supervised, W.LoopAtWork;
    assert (steps + [step])[..|steps|] == steps;
    var s := Run(pairToken, steps).value;
    RunSound(pairToken, steps);
    if s.nodes[n].status == Pending && QuietReturns(pairToken, steps) && !ApprovalOf(s, step, n) {
      RunSafe(pairToken, steps, n);
      StepQuiet(s, pairToken, step, n);
    }
  }

  // ---- runs in which no deleted id comes back ------------------------------------------------------------------------

  /** No id is inserted again after it was deleted. */
  predicate NoReturn(pairToken: string, steps: seq<Step>)
    requires Run(pairToken, steps).Some?
  {
    steps == [] ||
    (var before, step := steps[..|steps| - 1], steps[|steps| - 1];
     NoReturn(pairToken, before)
     && (step.Discover? || step.Create? ==> step.node !in Run(pairToken, before).value.deleted))
  }

  predicate Seen(s: State, n: NodeId) {
    n in s.nodes || n in s.deleted
  }

  /** Everybody works on ids that are or were in the store. */
  predicate Known(s: State) {
    && (forall h, n | h in s.listings && n in s.listings[h] :: Seen(s, n))
    && (forall h | h in s.approvals :: Seen(s, s.approvals[h].node))
    && (forall l | l in s.manager.loops :: Seen(s, s.manager.loops[l].node))
  }

  lemma StepKnown(s: State, pairToken: string, step: Step)
    requires Known(s) && Next(s, pairToken, step).Some?
    ensures Known(Next(s, pairToken, step).value)
  {
    var t := Next(s, pairToken, step).value;
    SeenStays(s, pairToken, step);
    hide Next, Seen;
    forall h, n | h in t.listings && n in t.listings[h] ensures Seen(t, n) { ListingFrom(s, pairToken, step, h, n); }
    forall h | h in t.approvals ensures Seen(t, t.approvals[h].node) { ApprovalFrom(s, pairToken, step, h); }
    forall l | l in t.manager.loops ensures Seen(t, t.manager.loops[l].node) { LoopFrom(s, pairToken, step, l); }
  }

  lemma SeenStays(s: State, pairToken: string, step: Step)
    requires Next(s, pairToken, step).Some?
    ensures forall n | Seen(s, n) :: Seen(Next(s, pairToken, step).value, n)
  {
    hide M.Next;
  }

  lemma ApprovalFrom(s: State, pairToken: string, step: Step, h: HandlerId)
    requires Known(s) && Next(s, pairToken, step).Some? && h in Next(s, pairToken, step).value.approvals
    ensures Seen(s, Next(s, pairToken, step).value.approvals[h].node)
  {
    hide M.Next;
  }

  lemma LoopFrom(s: State, pairToken: string, step: Step, l: M.LoopId)
    requires Known(s) && Next(s, pairToken, step).Some? && l in Next(s, pairToken, step).value.manager.loops
    ensures Seen(s, Next(s, pairToken, step).value.manager.loops[l].node)
  {
    hide M.Next, LinksOf, ReportsOf, Seen;
    if step.Managed? {
      ManagerNodes(s.manager, step.step);
      WorkerSeen(s, step.handler, step.step);
      if step.step.ReadStep? {
        ReadKeepsLoops(s.manager, step.step);
      }
      hide Known;
      assert l in s.manager.loops ==> Seen(s, s.manager.loops[l].node) by { LoopSeen(s, l); }
    }
  }

  lemma ReadKeepsLoops(m: M.State, step: M.Step)
    requires step.ReadStep? && M.Next(m, step).Some?
    ensures M.Next(m, step).value.loops == m.loops
  {
    W.ReadStepShape(m, step.conn);
  }

  lemma LoopSeen(s: State, l: M.LoopId)
    requires Known(s)
    ensures l in s.manager.loops ==> Seen(s, s.manager.loops[l].node)
  {
  }

  lemma WorkerSeen(s: State, h: HandlerId, step: M.Step)
    requires Known(s) && Admissible(s, h, step) && M.Next(s.manager, step).Some?
    ensures !step.ReadStep? && Worker(s.manager, step).Some? ==> Seen(s, Worker(s.manager, step).value)
  {
    hide M.Next, Seen;
  }

  lemma ListingFrom(s: State, pairToken: string, step: Step, h: HandlerId, n: NodeId)
    requires Known(s) && Next(s, pairToken, step).Some?
    requires var t := Next(s, pairToken, step).value; h in t.listings && n in t.listings[h]
    ensures Seen(s, n)
  {
    hide M.Next;
  }

  lemma {:induction false} RunKnown(pairToken: string, steps: seq<Step>)
    requires Run(pairToken, steps).Some?
    ensures Known(Run(pairToken, steps).value)
  {
    hide Next, Known;
    if steps == [] {
      assert Known(START) by { StartKnown(); }
    } else {
      RunKnown(pairToken, steps[..|steps| - 1]);
      StepKnown(Run(pairToken, steps[..|steps| - 1]).value, pairToken, steps[|steps| - 1]);
    }
  }

  lemma StartKnown()
    ensures Known(START)
  {
  }

  lemma UnseenIsQuiet(s: State, n: NodeId)
    requires Known(s) && !Seen(s, n)
    ensures !AtWork(s, n) && !Finishing(s, n)
  {
  }

  /** Such runs are quiet. */
  lemma {:induction false} NoReturnIsQuiet(pairToken: string, steps: seq<Step>)
    requires Run(pairToken, steps).Some? && NoReturn(pairToken, steps)
    ensures QuietReturns(pairToken, steps)
  {
    hide Next, Known, AtWork, Finishing;
    if steps != [] {
      var before, step := steps[..|steps| - 1], steps[|steps| - 1];
      NoReturnIsQuiet(pairToken, before);
      RunKnown(pairToken, before);
      if (step.Discover? || step.Create?) && step.node !in Run(pairToken, before).value.nodes {
        UnseenIsQuiet(Run(pairToken, before).value, step.node);
      }
    }
  }

  /** Runs without deletions are such runs. */
  lemma {:induction false} WithoutDeletes(pairToken: string, steps: seq<Step>)
    requires Run(pairToken, steps).Some? && forall i | 0 <= i < |steps| :: !steps[i].Delete?
    ensures NoReturn(pairToken, steps) && Run(pairToken, steps).value.deleted == {}
  {
    hide M.Next;
    if steps != [] {
      WithoutDeletes(pairToken, steps[..|steps| - 1]);
    }
  }
}
