/** The life of a node in the store, over every run of the server: discovery, manual adds, token setting, the steps of
    Approve, deletion, and the connection manager with its status callbacks (internal/server/store/sqlite.go,
    internal/server/api/nodes.go, internal/server/discovery/udp.go, internal/server/server.go). */
module Lifecycle {
  import opened GoLib
  import M = Manager

  type NodeId = string
  type HandlerId = nat

  datatype Status = Pending | Approved | Offline | Online

  /** The columns of a node that decide its life. */
  datatype Node = Node(status: Status, token: string)

  /** An Approve request between its database calls. */
  datatype Approval = AssigningToken(node: NodeId) | SettingStatus(node: NodeId)

  datatype State = State(
    nodes: map<NodeId, Node>,
    approvals: map<HandlerId, Approval>,
    listings: map<HandlerId, set<NodeId>>,   // connectable nodes that running Reconcile calls have still to visit
    manager: M.State,
    deleted: set<NodeId>)                    // every id ever deleted

  const START := State(map[], map[], map[], M.START, {})

  datatype Step =
    | Discover(node: NodeId)                            // one reply in UpsertReplies
    | Create(node: NodeId, token: string)
    | SetToken(node: NodeId, token: string)
    | Approve(handler: HandlerId, node: NodeId)         // GetNode and the token check
    | AssignToken(handler: HandlerId)                   // SetNodeToken with the pairing token
    | SetStatus(handler: HandlerId)                     // SetNodeStatus(approved)
    | Delete(node: NodeId)                              // DeleteNode; Drop is a step of the manager
    | List(handler: HandlerId)                          // Reconcile: ListNodes
    | Managed(handler: HandlerId, step: M.Step)         // a step of the manager

  /** `UpsertNode`: a new row is pending; an existing one keeps its status and token. */
  function Upsert(nodes: map<NodeId, Node>, n: NodeId, token: string): map<NodeId, Node> {
    if n in nodes then nodes else nodes[n := Node(Pending, token)]
  }

  function WithToken(nodes: map<NodeId, Node>, n: NodeId, token: string): map<NodeId, Node> {
    if n in nodes then nodes[n := nodes[n].(token := token)] else nodes
  }

  function WithStatus(nodes: map<NodeId, Node>, n: NodeId, status: Status): map<NodeId, Node> {
    if n in nodes then nodes[n := nodes[n].(status := status)] else nodes
  }

  /** `OnStatus` writes the status that the manager reported in this step. */
  function Reported(nodes: map<NodeId, Node>, before: M.State, after: M.State): map<NodeId, Node> {
    if |after.events| > |before.events| then
      var e := after.events[|after.events| - 1];
      WithStatus(nodes, e.node, if e.online then Online else Offline)
    else nodes
  }

  /** A Reconcile call visits each node of its listing once. */
  function Visited(listings: map<HandlerId, set<NodeId>>, h: HandlerId, step: M.Step): map<HandlerId, set<NodeId>> {
    if step.Reconcile? && h in listings then listings[h := listings[h] - {step.node}] else listings
  }

  /** The manager reconciles only nodes of the caller's listing, and GetNode fails exactly for absent nodes. */
  predicate Admissible(s: State, h: HandlerId, step: M.Step) {
    match step
    case Reconcile(n, l) => h in s.listings && n in s.listings[h]
    case LoopStep(l, choice) =>
      l in s.manager.loops && s.manager.loops[l].pc == M.CheckNode ==> (choice == M.NodeGone <==> s.manager.loops[l].node !in s.nodes)
    case DropNode(n) => n in s.deleted
    case _ => true
  }

  function Next(s: State, pairToken: string, step: Step): Option<State> {
    match step
    case Discover(n) => Some(s.(nodes := Upsert(s.nodes, n, "")))
    case Create(n, token) => if token == "" then None else Some(s.(nodes := Upsert(s.nodes, n, token)))
    case SetToken(n, token) => if token == "" then None else Some(s.(nodes := WithToken(s.nodes, n, token)))
    case Approve(h, n) =>
      if n !in s.nodes || h in s.approvals then None
      else if s.nodes[n].token != "" then Some(s.(approvals := s.approvals[h := SettingStatus(n)]))
      else if pairToken != "" then Some(s.(approvals := s.approvals[h := AssigningToken(n)]))
      else None
    case AssignToken(h) =>
      if h !in s.approvals || !s.approvals[h].AssigningToken? then None
      else
        var n := s.approvals[h].node;
        if n in s.nodes then
          Some(s.(nodes := WithToken(s.nodes, n, pairToken), approvals := s.approvals[h := SettingStatus(n)]))
        else Some(s.(approvals := s.approvals - {h}))
    case SetStatus(h) =>
      if h !in s.approvals || !s.approvals[h].SettingStatus? then None
      else Some(s.(nodes := WithStatus(s.nodes, s.approvals[h].node, Approved), approvals := s.approvals - {h}))
    case Delete(n) => if n !in s.nodes then None else Some(s.(nodes := s.nodes - {n}, deleted := s.deleted + {n}))
    case List(h) => Some(s.(listings := s.listings[h := set n | n in s.nodes && s.nodes[n].status != Pending]))
    case Managed(h, step) =>
      if !Admissible(s, h, step) then None
      else match M.Next(s.manager, step)
        case Some(after) =>
          Some(s.(manager := after, nodes := Reported(s.nodes, s.manager, after), listings := Visited(s.listings, h, step)))
        case None => None
  }

  function Run(pairToken: string, steps: seq<Step>): Option<State> {
    if steps == [] then Some(START)
    else match Run(pairToken, steps[..|steps| - 1])
      case Some(s) => Next(s, pairToken, steps[|steps| - 1])
      case None => None
  }

  // ---- what a step of the manager touches ---------------------------------------------------------

  /** The node whose goroutine a step of the manager runs. */
  function Worker(s: M.State, step: M.Step): Option<NodeId> {
    match step
    case Reconcile(n, l) => Some(n)
    case LoopStep(l, choice) => if l in s.loops then Some(s.loops[l].node) else None
    case ReadStep(c) => if c in s.links then Some(s.links[c].node) else None
    case _ => None
  }

  predicate LoopsOf(s: M.State, t: M.State, w: Option<NodeId>) {
    forall l | l in t.loops :: (l in s.loops && t.loops[l].node == s.loops[l].node) || w == Some(t.loops[l].node)
  }

  predicate LinksOf(s: M.State, t: M.State, w: Option<NodeId>) {
    forall c | c in t.links :: (c in s.links && t.links[c].node == s.links[c].node) || w == Some(t.links[c].node)
  }

  predicate ReportsOf(s: M.State, t: M.State, w: Option<NodeId>) {
    t.events == s.events || (t.events == s.events + [NewEvent(t)] && w == Some(NewEvent(t).node))
  }

  /** Every goroutine, connection and report after a step was there before or is of that node. */
  predicate WorksOn(s: M.State, t: M.State, w: Option<NodeId>) {
    LoopsOf(s, t, w) && LinksOf(s, t, w) && ReportsOf(s, t, w)
  }

  lemma LoopStepLinks(s: M.State, l: M.LoopId, choice: M.Choice)
    requires l in s.loops && M.LoopMoves(s, l, choice).Some?
    ensures LinksOf(s, M.LoopMoves(s, l, choice).value, Some(s.loops[l].node))
  {
  }

  lemma LoopStepReports(s: M.State, l: M.LoopId, choice: M.Choice)
    requires l in s.loops && M.LoopMoves(s, l, choice).Some?
    ensures ReportsOf(s, M.LoopMoves(s, l, choice).value, Some(s.loops[l].node))
  {
  }

  lemma LoopWorksOn(s: M.State, l: M.LoopId, choice: M.Choice)
    requires l in s.loops && M.LoopMoves(s, l, choice).Some?
    ensures WorksOn(s, M.LoopMoves(s, l, choice).value, Some(s.loops[l].node))
  {
    hide M.LoopMoves, LinksOf, ReportsOf;
    forall m | m in M.LoopMoves(s, l, choice).value.loops
      ensures m in s.loops && M.LoopMoves(s, l, choice).value.loops[m].node == s.loops[m].node
    {
      M.LoopStepLoop(s, l, choice, m);
    }
    LoopStepLinks(s, l, choice);
    LoopStepReports(s, l, choice);
  }

  lemma ReadStepLinks(s: M.State, c: M.ConnId)
    requires c in s.links && M.ReadMoves(s, c).Some?
    ensures var t := M.ReadMoves(s, c).value;
            t.loops == s.loops && t.links.Keys == s.links.Keys && LinksOf(s, t, None)
  {
  }

  lemma ReadStepReports(s: M.State, c: M.ConnId)
    requires c in s.links && M.ReadMoves(s, c).Some?
    ensures ReportsOf(s, M.ReadMoves(s, c).value, Some(s.links[c].node))
  {
  }

  lemma ReadWorksOn(s: M.State, c: M.ConnId)
    requires c in s.links && M.ReadMoves(s, c).Some?
    ensures WorksOn(s, M.ReadMoves(s, c).value, Some(s.links[c].node))
  {
    hide M.ReadMoves, ReportsOf;
    ReadStepLinks(s, c);
    ReadStepReports(s, c);
  }

  lemma ManagerNodes(s: M.State, step: M.Step)
    requires M.Next(s, step).Some?
    ensures WorksOn(s, M.Next(s, step).value, Worker(s, step))
  {
    hide M.LoopMoves, M.ReadMoves;
    match step
    case LoopStep(l, choice) => LoopWorksOn(s, l, choice);
    case ReadStep(c) => ReadWorksOn(s, c);
    case _ =>
  }

  function NewEvent(t: M.State): M.Event {
    if t.events == [] then M.Event("", false) else t.events[|t.events| - 1]
  }

  // ---- leaving pending -------------------------------------------------------------------------------

  /** The step that gives an Approve request's node its status. */
  predicate ApprovalOf(s: State, step: Step, n: NodeId) {
    step.SetStatus? && step.handler in s.approvals && s.approvals[step.handler].node == n
  }

  /** The manager reports a status of the node in this step. */
  predicate ReportsOn(s: State, step: Step, n: NodeId) {
    step.Managed? &&
    match step.step
    case LoopStep(l, choice) => l in s.manager.loops && s.manager.loops[l].node == n && s.manager.loops[l].pc.Report?
    case ReadStep(c) => c in s.manager.links && s.manager.links[c].node == n && s.manager.links[c].reader == Some(M.Reporting)
    case _ => false
  }

  /** Whatever happened before, deletions included, a pending node leaves pending exactly by an Approve of it or by a
      report on it. */
  lemma LeavesPendingExactly(s: State, pairToken: string, step: Step, n: NodeId)
    requires Next(s, pairToken, step).Some? && n in s.nodes && s.nodes[n].status == Pending
    ensures var t := Next(s, pairToken, step).value;
            n in t.nodes && t.nodes[n].status != Pending <==> ApprovalOf(s, step, n) || ReportsOn(s, step, n)
  {
    if step.Managed? {
      ReportExactly(s.manager, step.step);
      hide M.Next;
    }
  }

  /** When a step of the manager reports, and on whom. */
  lemma ReportExactly(m: M.State, step: M.Step)
    requires M.Next(m, step).Some?
    ensures var t := M.Next(m, step).value;
            match step
            case LoopStep(l, choice) =>
              l in m.loops && t.events == m.events + if m.loops[l].pc.Report? then [M.Event(m.loops[l].node, true)] else []
            case ReadStep(c) =>
              c in m.links && t.events == m.events + if m.links[c].reader == Some(M.Reporting) then [M.Event(m.links[c].node, false)] else []
            case _ => t.events == m.events
  {
    assert m.events + [] == m.events;
  }

  /** The manager's part of a run. */
  function ManagerSteps(steps: seq<Step>): seq<M.Step> {
    if steps == [] then []
    else
      var step := steps[|steps| - 1];
      ManagerSteps(steps[..|steps| - 1]) + if step.Managed? then [step.step] else []
  }

  /** The manager's part of a step. */
  lemma ManagerPart(s: State, pairToken: string, step: Step)
    requires Next(s, pairToken, step).Some?
    ensures Some(Next(s, pairToken, step).value.manager) == if step.Managed? then M.Next(s.manager, step.step) else Some(s.manager)
  {
    hide M.Next;
  }

  /** What holds of every run of the manager holds of it inside every run of the server. */
  lemma {:induction false} ManagerRuns(pairToken: string, steps: seq<Step>)
    requires Run(pairToken, steps).Some?
    ensures M.Run(ManagerSteps(steps)) == Some(Run(pairToken, steps).value.manager)
  {
    hide M.Next, Next;
    if steps != [] {
      var before, step := steps[..|steps| - 1], steps[|steps| - 1];
      ManagerRuns(pairToken, before);
      ManagerPart(Run(pairToken, before).value, pairToken, step);
      if step.Managed? {
        var ms := ManagerSteps(before);
        assert (ms + [step.step])[..|ms|] == ms;
      } else {
        assert ManagerSteps(steps) == ManagerSteps(before);
      }
    }
  }

  // ---- with deletions --------------------------------------------------------------------------------

  const N: NodeId := "n"

  function Busy(pc: M.LoopPc, conns: map<NodeId, M.ConnId>, links: map<M.ConnId, M.Conn>, events: seq<M.Event>): M.State {
    M.State(false, false, conns, {N}, map[0 := M.Loop(N, pc)], links, events)
  }

  /** One Reconcile call, which visits the node with the manager's first step. */
  function Serving(nodes: map<NodeId, Node>, manager: M.State, deleted: set<NodeId>): State {
    State(nodes, map[], map[0 := if manager == M.START then {N} else {}], manager, deleted)
  }

  const KNOWN: map<NodeId, Node> := map[N := Node(Approved, "t")]
  const DIALLED: map<M.ConnId, M.Conn> := map[0 := M.Conn(N, None, 0)]
  const LISTED: map<NodeId, M.ConnId> := map[N := 0]

  lemma RunSnoc(pairToken: string, steps: seq<Step>, step: Step)
    ensures Run(pairToken, steps + [step]) ==
            match Run(pairToken, steps) case Some(s) => Next(s, pairToken, step) case None => None
  {
    hide Next;
    assert (steps + [step])[..|steps|] == steps;
  }

  const ADMIT: seq<Step> := [Create(N, "t"), Approve(0, N), SetStatus(0), List(0)]

  lemma AdmitRuns()
    ensures Run("", ADMIT) == Some(Serving(KNOWN, M.START, {}))
  {
    var pending := map[N := Node(Pending, "t")];
    assert Next(START, "", Create(N, "t")) == Some(START.(nodes := pending));
    assert Next(START.(nodes := pending), "", Approve(0, N)) ==
           Some(START.(nodes := pending, approvals := map[0 := SettingStatus(N)]));
    var s := START.(nodes := KNOWN);
    assert pending[N := Node(Approved, "t")] == KNOWN;
    assert map[0 := SettingStatus(N)] - {0} == map[];
    assert Next(START.(nodes := pending, approvals := map[0 := SettingStatus(N)]), "", SetStatus(0)) == Some(s);
    assert (set n | n in KNOWN && KNOWN[n].status != Pending) == {N};
    assert map[][0 := {N}] == map[0 := {N}];
    assert Next(s, "", List(0)) == Some(Serving(KNOWN, M.START, {}));
    hide Next;
    assert [Create(N, "t")] == [] + [Create(N, "t")];
    RunSnoc("", [], Create(N, "t"));
    RunSnoc("", [Create(N, "t")], Approve(0, N));
    RunSnoc("", [Create(N, "t")] + [Approve(0, N)], SetStatus(0));
    RunSnoc("", [Create(N, "t")] + [Approve(0, N)] + [SetStatus(0)], List(0));
    assert ADMIT == [Create(N, "t")] + [Approve(0, N)] + [SetStatus(0)] + [List(0)];
  }

  /** A connect loop up to the moment before it reports its node online. */
  const CONNECT: seq<M.Step> := [
    M.Reconcile(N, 0), M.LoopStep(0, M.Go), M.LoopStep(0, M.Go), M.LoopStep(0, M.Go), M.LoopStep(0, M.Dials(0)), M.LoopStep(0, M.Go)]

  const STAGES: seq<M.State> := [
    M.START, Busy(M.CheckStop, map[], map[], []), Busy(M.CheckNode, map[], map[], []), Busy(M.LookUp, map[], map[], []),
    Busy(M.Dialing, map[], map[], []), Busy(M.Insert(0), map[], DIALLED, []), Busy(M.Report(0), LISTED, DIALLED, [])]

  /** Inside the manager. */
  lemma ManagerStage(k: nat)
    requires k < 6
    ensures M.Next(STAGES[k], CONNECT[k]) == Some(STAGES[k + 1])
  {
    hide M.LoopMoves;
    if k == 0 {
      assert map[][0 := M.Loop(N, M.CheckStop)] == map[0 := M.Loop(N, M.CheckStop)];
      assert {} + {N} == {N};
    } else if k <= 3 {
      PlainMove(k);
    } else if k == 4 {
      DialMove();
    } else {
      InsertMove();
    }
  }

  lemma Moved(pc: M.LoopPc, conns: map<NodeId, M.ConnId>, links: map<M.ConnId, M.Conn>, events: seq<M.Event>, to: M.LoopPc)
    ensures M.Move(Busy(pc, conns, links, events), 0, to) == Busy(to, conns, links, events)
  {
    assert map[0 := M.Loop(N, pc)][0 := M.Loop(N, to)] == map[0 := M.Loop(N, to)];
  }

  lemma PlainMove(k: nat)
    requires 1 <= k <= 3
    ensures M.LoopMoves(STAGES[k], 0, M.Go) == Some(STAGES[k + 1])
  {
    hide M.Move;
    Moved(STAGES[k].loops[0].pc, map[], map[], [], STAGES[k + 1].loops[0].pc);
  }

  lemma DialMove()
    ensures M.LoopMoves(STAGES[4], 0, M.Dials(0)) == Some(STAGES[5])
  {
    hide M.Move;
    Moved(M.Dialing, map[], map[], [], M.Insert(0));
    assert map[][0 := M.Conn(N, None, 0)] == DIALLED;
  }

  lemma InsertMove()
    ensures M.LoopMoves(STAGES[5], 0, M.Go) == Some(STAGES[6])
  {
    hide M.Move;
    Moved(M.Insert(0), map[], DIALLED, [], M.Report(0));
    assert map[][N := 0] == LISTED;
  }

  lemma ConnectStage(k: nat)
    requires k < 6
    ensures Next(Serving(KNOWN, STAGES[k], {}), "", Managed(0, CONNECT[k])) == Some(Serving(KNOWN, STAGES[k + 1], {}))
  {
    hide M.Next;
    ManagerStage(k);
    assert STAGES[k].events == [] && STAGES[k + 1].events == [];
    assert k == 2 ==> N in KNOWN;
    assert {N} - {N} == {} && map[0 := {N}][0 := {}] == map[0 := {}];
    assert STAGES[k] == M.START <==> k == 0;
  }

  function Lift(ms: seq<M.Step>): (steps: seq<Step>)
    ensures |steps| == |ms| && forall i | 0 <= i < |ms| :: steps[i] == Managed(0, ms[i])
  {
    seq(|ms|, i requires 0 <= i < |ms| => Managed(0, ms[i]))
  }

  lemma {:induction false} ConnectRuns(k: nat)
    requires k <= 6
    ensures Run("", ADMIT + Lift(CONNECT[..k])) == Some(Serving(KNOWN, STAGES[k], {}))
  {
    hide Next, Serving;
    if k == 0 {
      AdmitRuns();
      assert ADMIT + Lift(CONNECT[..0]) == ADMIT;
    } else {
      ConnectRuns(k - 1);
      ConnectStage(k - 1);
      RunSnoc("", ADMIT + Lift(CONNECT[..k - 1]), Managed(0, CONNECT[k - 1]));
      assert ADMIT + Lift(CONNECT[..k]) == ADMIT + Lift(CONNECT[..k - 1]) + [Managed(0, CONNECT[k - 1])];
    }
  }

  lemma ReportStage()
    ensures var again := map[N := Node(Pending, "")];
            Next(Serving(again, STAGES[6], {N}), "", Managed(0, M.LoopStep(0, M.Go))) ==
            Some(Serving(map[N := Node(Online, "")], Busy(M.Spawn(0), LISTED, DIALLED, [M.Event(N, true)]), {N}))
    ensures Serving(map[N := Node(Pending, "")], STAGES[6], {N}).nodes == map[N := Node(Pending, "")]
    ensures Serving(map[N := Node(Online, "")], Busy(M.Spawn(0), LISTED, DIALLED, [M.Event(N, true)]), {N}).nodes[N] == Node(Online, "")
  {
    hide M.Move;
    Moved(M.Report(0), LISTED, DIALLED, [], M.Spawn(0));
    assert STAGES[6] == Busy(M.Report(0), LISTED, DIALLED, []);
    assert [] + [M.Event(N, true)] == [M.Event(N, true)];
    assert M.LoopMoves(STAGES[6], 0, M.Go) == Some(Busy(M.Spawn(0), LISTED, DIALLED, [M.Event(N, true)]));
    hide M.LoopMoves;
    assert map[N := Node(Pending, "")][N := Node(Online, "")] == map[N := Node(Online, "")];
  }

  const BEFORE: seq<Step> := ADMIT + Lift(CONNECT[..6]) + [Delete(N)]

  /** Deletion breaks both promises: a node deleted while the manager is about to report it, and discovered again, is
      taken out of pending by that report, without a token and without an Approve. */
  lemma RediscoveredWithoutApproval()
    ensures Run("", BEFORE + [Discover(N)]).Some? && Run("", BEFORE + [Discover(N)] + [Managed(0, M.LoopStep(0, M.Go))]).Some?
    ensures var s := Run("", BEFORE + [Discover(N)]).value; N in s.nodes && s.nodes[N] == Node(Pending, "")
    ensures var t := Run("", BEFORE + [Discover(N)] + [Managed(0, M.LoopStep(0, M.Go))]).value;
            N in t.nodes && t.nodes[N] == Node(Online, "")
  {
    var steps := ADMIT + Lift(CONNECT[..6]);
    var report := Managed(0, M.LoopStep(0, M.Go));
    ConnectRuns(6);
    RunSnoc("", steps, Delete(N));
    RunSnoc("", BEFORE, Discover(N));
    RunSnoc("", BEFORE + [Discover(N)], report);
    hide Run, ADMIT, CONNECT, Lift;
    ReportStage();
    DeleteStage();
    hide Next, Serving, STAGES;
  }

  lemma DeleteStage()
    ensures var m := STAGES[6]; var again := map[N := Node(Pending, "")];
            && Next(Serving(KNOWN, m, {}), "", Delete(N)) == Some(Serving(map[], m, {N}))
            && Next(Serving(map[], m, {N}), "", Discover(N)) == Some(Serving(again, m, {N}))
  {
    hide M.Next;
    assert KNOWN - {N} == map[] && {} + {N} == {N};
    assert map[][N := Node(Pending, "")] == map[N := Node(Pending, "")];
  }
}
