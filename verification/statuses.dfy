/** What the stored status of a node says about the manager, and which nodes it serves (internal/server/server.go,
    internal/server/nodemanager/manager.go). */
module Statuses {
  import opened GoLib
  import M = Manager
  import A = Approval
  import opened Lifecycle

  function Reports(s: State, n: NodeId): seq<bool> {
    M.Reports(s.manager.events, n)
  }

  /** A node stored as online or offline has been reported on, and that is what was reported last. */
  predicate FitsLastReport(s: State, n: NodeId) {
    n in s.nodes ==>
      && (s.nodes[n].status == Online ==> Reports(s, n) != [] && Reports(s, n)[|Reports(s, n)| - 1])
      && (s.nodes[n].status == Offline ==> Reports(s, n) != [] && !Reports(s, n)[|Reports(s, n)| - 1])
  }

  lemma ManagedFits(s: State, pairToken: string, h: HandlerId, step: M.Step, n: NodeId)
    requires FitsLastReport(s, n) && Next(s, pairToken, Managed(h, step)).Some?
    ensures FitsLastReport(Next(s, pairToken, Managed(h, step)).value, n)
  {
    hide M.Next, M.Reports;
    ReportExactly(s.manager, step);
    var t := Next(s, pairToken, Managed(h, step)).value;
    if t.manager.events != s.manager.events {
      var e := NewEvent(t.manager);
      assert t.manager.events == s.manager.events + [e];
      M.ReportsSnoc(s.manager.events, e, n);
    }
  }

  lemma StepFits(s: State, pairToken: string, step: Step, n: NodeId)
    requires FitsLastReport(s, n) && Next(s, pairToken, step).Some?
    ensures FitsLastReport(Next(s, pairToken, step).value, n)
  {
    hide M.Next, M.Reports;
    if step.Managed? {
      ManagedFits(s, pairToken, step.handler, step.step, n);
    }
  }

  lemma {:induction false} RunFits(pairToken: string, steps: seq<Step>, n: NodeId)
    requires Run(pairToken, steps).Some?
    ensures FitsLastReport(Run(pairToken, steps).value, n)
  {
    hide Next, FitsLastReport;
    if steps == [] {
      StartFits(n);
    } else {
      RunFits(pairToken, steps[..|steps| - 1], n);
      StepFits(Run(pairToken, steps[..|steps| - 1]).value, pairToken, steps[|steps| - 1], n);
    }
  }

  lemma StartFits(n: NodeId)
    ensures FitsLastReport(START, n)
  {
  }

  lemma {:induction false} LastAlternates(rs: seq<bool>)
    requires M.Alternating(rs) && rs != []
    ensures rs[|rs| - 1] <==> |rs| % 2 == 1
  {
    var i := |rs| - 1;
    assert rs[i] <==> i % 2 == 0;
  }

  /** A report of the manager is stored: online or offline, as reported, on that node alone and with its token. */
  lemma ReportStored(s: State, pairToken: string, h: HandlerId, step: M.Step, n: NodeId)
    requires Next(s, pairToken, Managed(h, step)).Some? && n in s.nodes
    ensures var t := Next(s, pairToken, Managed(h, step)).value;
            && n in t.nodes && t.nodes[n].token == s.nodes[n].token
            && (if |Reports(t, n)| > |Reports(s, n)|
                then t.nodes[n].status == (if Reports(t, n)[|Reports(s, n)|] then Online else Offline)
                else t.nodes[n] == s.nodes[n])
  {
    hide M.Next, M.Reports;
    ReportExactly(s.manager, step);
    var t := Next(s, pairToken, Managed(h, step)).value;
    if t.manager.events != s.manager.events {
      var e := NewEvent(t.manager);
      assert t.manager.events == s.manager.events + [e];
      M.ReportsSnoc(s.manager.events, e, n);
    }
  }

  /** In every run, deletions and re-approvals included, a node stored as online has a connect loop between its online and
      its offline report, and one stored as offline has none. */
  lemma OnlineMeansLive(pairToken: string, steps: seq<Step>, n: NodeId)
    requires Run(pairToken, steps).Some? && n in Run(pairToken, steps).value.nodes
    ensures var s := Run(pairToken, steps).value;
            && (s.nodes[n].status == Online ==> M.Live(s.manager, n))
            && (s.nodes[n].status == Offline ==> !M.Live(s.manager, n))
  {
    var s := Run(pairToken, steps).value;
    RunFits(pairToken, steps, n);
    ManagerRuns(pairToken, steps);
    M.RunHolds(ManagerSteps(steps));
    hide Run, M.Run, M.Live, M.Reports;
    assert M.ReportsFit(s.manager, n);
    if Reports(s, n) != [] {
      LastAlternates(Reports(s, n));
    }
  }

  /** In every run, a Reconcile comes to exactly the nodes that are approved, offline or online; and until Close, one it
      comes to has a loop serving it from then on exactly if none of its loops was on its way out. */
  lemma ReconcilesExactly(pairToken: string, steps: seq<Step>, h: HandlerId, n: NodeId, l: M.LoopId)
    requires Run(pairToken, steps).Some? && l !in Run(pairToken, steps).value.manager.loops
    ensures var s, more := Run(pairToken, steps).value, steps + [List(h)] + [Managed(h, M.Reconcile(n, l))];
            && (Run(pairToken, more).Some? <==>
                  n in s.nodes && (s.nodes[n].status == Approved || s.nodes[n].status == Offline || s.nodes[n].status == Online))
            && (Run(pairToken, more).Some? && !s.manager.emptied ==>
                  (M.Served(Run(pairToken, more).value.manager, n) <==> !M.GoingAway(s.manager, n)))
  {
    var s, listed := Run(pairToken, steps).value, steps + [List(h)];
    var more := listed + [Managed(h, M.Reconcile(n, l))];
    RunSnoc(pairToken, steps, List(h));
    RunSnoc(pairToken, listed, Managed(h, M.Reconcile(n, l)));
    ManagerRuns(pairToken, steps);
    ListStep(s, pairToken, h, n, l);
    if Run(pairToken, more).Some? && !s.manager.emptied {
      ManagerRuns(pairToken, more);
      ReconcileSteps(steps, h, n, l);
      hide Run, M.Run, M.Served, M.GoingAway, M.Next, Next;
      M.ReconcileServesExactly(ManagerSteps(steps), n, l);
    }
  }

  lemma ListStep(s: State, pairToken: string, h: HandlerId, n: NodeId, l: M.LoopId)
    requires l !in s.manager.loops
    ensures var t := Next(s, pairToken, List(h)).value;
            Next(t, pairToken, Managed(h, M.Reconcile(n, l))).Some? <==> n in s.nodes && s.nodes[n].status != Pending
  {
  }

  lemma ReconcileSteps(steps: seq<Step>, h: HandlerId, n: NodeId, l: M.LoopId)
    ensures ManagerSteps(steps + [List(h)] + [Managed(h, M.Reconcile(n, l))]) == ManagerSteps(steps) + [M.Reconcile(n, l)]
  {
    var listed := steps + [List(h)];
    var more := listed + [Managed(h, M.Reconcile(n, l))];
    assert more[..|more| - 1] == listed && listed[..|steps|] == steps;
    assert ManagerSteps(listed) == ManagerSteps(steps);
  }

  // ---- nodes without a token -----------------------------------------------------------------------------

  lemma TokenStep(s: State, pairToken: string, step: Step, n: NodeId)
    requires A.Sound(s, pairToken) && Next(s, pairToken, step).Some? && step != Discover(n)
    ensures var t := Next(s, pairToken, step).value;
            n in t.nodes && t.nodes[n].token == "" ==> n in s.nodes && s.nodes[n].token == ""
  {
    hide M.Inv, M.Supervised, M.Next;
  }

  /** In every run, a node that has no token was discovered: nodes added by hand have one from the start, and none loses
      its token. */
  lemma {:induction false} TokenlessDiscovered(pairToken: string, steps: seq<Step>, n: NodeId)
    requires Run(pairToken, steps).Some? && n in Run(pairToken, steps).value.nodes
    requires Run(pairToken, steps).value.nodes[n].token == ""
    ensures Discover(n) in steps
  {
    hide Next, A.Sound;
    if steps != [] {
      var before, step := steps[..|steps| - 1], steps[|steps| - 1];
      assert steps == before + [step];
      if step != Discover(n) {
        A.RunSound(pairToken, before);
        TokenStep(Run(pairToken, before).value, pairToken, step, n);
        TokenlessDiscovered(pairToken, before, n);
      }
    }
  }
}
