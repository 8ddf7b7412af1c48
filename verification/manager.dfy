/** The connection manager as a transition system: one program counter per goroutine, one atomic step per
    locked section, callback, channel operation or system call (internal/server/nodemanager/manager.go). */
module Manager {
  import opened GoLib

  type NodeId = string
  type LoopId = nat
  type ConnId = nat

  /** Where a connectLoop goroutine is, `Connect` included. */
  datatype LoopPc =
    | CheckStop                 // select on m.stop at the loop head
    | CheckNode                 // store.GetNode
    | LookUp                    // Connect: first locked section
    | Dialing                   // Connect: Dial
    | Insert(conn: ConnId)      // Connect: second locked section
    | Report(conn: ConnId)      // Connect: OnStatus(online)
    | Spawn(conn: ConnId)       // Connect: go readLoop
    | Await(conn: ConnId)       // <-conn.stop
    | Backoff                   // select on m.stop and the timer
    | Leaving                   // deferred delete(m.looping)
    | Finished

  /** Where a readLoop goroutine is; everything after `Reading` is its deferred function. */
  datatype ReadPc = Reading | ClosingSocket | Evicting | Reporting | ClosingStop | Over

  datatype Loop = Loop(node: NodeId, pc: LoopPc)

  /** `stops` counts the closings of `conn.stop`: a second one would panic. */
  datatype Conn = Conn(node: NodeId, reader: Option<ReadPc>, stops: nat)

  datatype Event = Event(node: NodeId, online: bool)

  datatype State = State(
    stopped: bool,                  // m.stop is closed
    emptied: bool,                  // Close has emptied the maps
    conns: map<NodeId, ConnId>,
    looping: set<NodeId>,
    loops: map<LoopId, Loop>,
    links: map<ConnId, Conn>,
    events: seq<Event>)             // OnStatus calls, oldest first

  const START := State(false, false, map[], {}, map[], map[], [])

  /** What the outside world decides for one step of a connect loop. */
  datatype Choice = Go | NodeGone | DialFails | Dials(conn: ConnId) | SeesStop

  datatype Step =
    | Reconcile(node: NodeId, loop: LoopId)
    | LoopStep(loop: LoopId, choice: Choice)
    | ReadStep(conn: ConnId)
    | DropNode(node: NodeId)
    | CloseStop
    | CloseMaps

  function Move(s: State, l: LoopId, pc: LoopPc): State
    requires l in s.loops
  {
    s.(loops := s.loops[l := s.loops[l].(pc := pc)])
  }

  /** One step of a connect loop; `None` when it cannot happen. */
  function LoopMoves(s: State, l: LoopId, choice: Choice): Option<State>
    requires l in s.loops
  {
    var n := s.loops[l].node;
    match s.loops[l].pc
    case CheckStop => Some(Move(s, l, if s.stopped then Leaving else CheckNode))
    case CheckNode => Some(Move(s, l, if choice == NodeGone then Leaving else LookUp))
    case LookUp => Some(Move(s, l, if n in s.conns then Await(s.conns[n]) else Dialing))
    case Dialing =>
      if choice == DialFails then Some(Move(s, l, Backoff))
      else if choice.Dials? && choice.conn !in s.links then
        Some(Move(s, l, Insert(choice.conn)).(links := s.links[choice.conn := Conn(n, None, 0)]))
      else None
    case Insert(c) =>
      if n in s.conns then Some(Move(s, l, Await(s.conns[n])))
      else Some(Move(s, l, Report(c)).(conns := s.conns[n := c]))
    case Report(c) => Some(Move(s, l, Spawn(c)).(events := s.events + [Event(n, true)]))
    case Spawn(c) =>
      if c in s.links then Some(Move(s, l, Await(c)).(links := s.links[c := s.links[c].(reader := Some(Reading))])) else None
    case Await(c) => if c in s.links && s.links[c].stops > 0 then Some(Move(s, l, CheckStop)) else None
    case Backoff => if choice == SeesStop then (if s.stopped then Some(Move(s, l, Leaving)) else None) else Some(Move(s, l, CheckStop))
    case Leaving => Some(Move(s, l, Finished).(looping := s.looping - {n}))
    case Finished => None
  }

  function ReadMoves(s: State, c: ConnId): Option<State>
    requires c in s.links
  {
    var k := s.links[c];
    match k.reader
    case None => None
    case Some(Reading) => Some(s.(links := s.links[c := k.(reader := Some(ClosingSocket))]))
    case Some(ClosingSocket) => Some(s.(links := s.links[c := k.(reader := Some(Evicting))]))
    case Some(Evicting) =>
      Some(s.(links := s.links[c := k.(reader := Some(Reporting))],
              conns := if k.node in s.conns && s.conns[k.node] == c then s.conns - {k.node} else s.conns))
    case Some(Reporting) =>
      Some(s.(links := s.links[c := k.(reader := Some(ClosingStop))], events := s.events + [Event(k.node, false)]))
    case Some(ClosingStop) => Some(s.(links := s.links[c := k.(reader := Some(Over), stops := k.stops + 1)]))
    case Some(Over) => None
  }

  function Next(s: State, step: Step): Option<State> {
    match step
    case Reconcile(n, l) =>
      if l in s.loops then None
      else if n in s.conns || n in s.looping then Some(s)
      else Some(s.(looping := s.looping + {n}, loops := s.loops[l := Loop(n, CheckStop)]))
    case LoopStep(l, choice) => if l in s.loops then LoopMoves(s, l, choice) else None
    case ReadStep(c) => if c in s.links then ReadMoves(s, c) else None
    case DropNode(n) => Some(s.(conns := s.conns - {n}))
    case CloseStop => if s.stopped then None else Some(s.(stopped := true))
    case CloseMaps => if s.stopped && !s.emptied then Some(s.(emptied := true, conns := map[], looping := {})) else None
  }

  // ---- which node a loop is for ---------------------------------------------------------------------

  /** A loop keeps its node. */
  lemma LoopStepLoop(s: State, l: LoopId, choice: Choice, m: LoopId)
    requires l in s.loops && LoopMoves(s, l, choice).Some? && m in LoopMoves(s, l, choice).value.loops
    ensures m in s.loops && LoopMoves(s, l, choice).value.loops[m].node == s.loops[m].node
  {
    hide Move;
    forall pc ensures SameNode(s, Move(s, l, pc), m) {
      MoveSameNode(s, l, pc, m);
    }
  }

  predicate SameNode(s: State, t: State, m: LoopId) {
    m in t.loops ==> m in s.loops && t.loops[m].node == s.loops[m].node
  }

  lemma MoveSameNode(s: State, l: LoopId, pc: LoopPc, m: LoopId)
    requires l in s.loops
    ensures SameNode(s, Move(s, l, pc), m)
  {
  }

  // ---- the invariant ------------------------------------------------------------------------------

  predicate Active(p: LoopPc) {
    p != Finished
  }

  /** Past the stop check: the loop may connect. */
  predicate Past(p: LoopPc) {
    p != CheckStop && p != Leaving && p != Finished
  }

  /** Before Close has emptied the maps, the looping map lists the nodes with a loop, one loop each. */
  predicate LoopsListed(s: State) {
    && (s.emptied ==> s.stopped)
    && (!s.emptied ==> forall l | l in s.loops && Active(s.loops[l].pc) :: s.loops[l].node in s.looping)
    && (!s.emptied ==> forall l, m | l in s.loops && m in s.loops && l != m && Active(s.loops[l].pc) && Active(s.loops[m].pc) ::
          s.loops[l].node != s.loops[m].node)
  }

  /** At most one connect loop per node is past its stop check. */
  predicate SingleOwner(s: State) {
    forall l, m | l in s.loops && m in s.loops && l != m && Past(s.loops[l].pc) && Past(s.loops[m].pc) ::
      s.loops[l].node != s.loops[m].node
  }

  predicate Holds(p: LoopPc, c: ConnId) {
    p == Report(c) || p == Spawn(c) || p == Await(c)
  }

  predicate HoldsNothing(p: LoopPc) {
    !p.Report? && !p.Spawn? && !p.Await?
  }

  /** A loop and the connection it is working on. */
  predicate LoopFits(s: State, l: LoopId)
    requires l in s.loops
  {
    var n := s.loops[l].node;
    match s.loops[l].pc
    case Insert(c) => c in s.links && s.links[c].node == n && s.links[c].reader == None && !(n in s.conns && s.conns[n] == c)
    case Report(c) => c in s.links && s.links[c].node == n && s.links[c].reader == None
    case Spawn(c) => c in s.links && s.links[c].node == n && s.links[c].reader == None
    case Await(c) => c in s.links && s.links[c].node == n && s.links[c].reader.Some?
    case _ => true
  }

  predicate LoopsFit(s: State) {
    forall l | l in s.loops :: LoopFits(s, l)
  }

  predicate HeldBySomeone(s: State, c: ConnId) {
    exists l :: l in s.loops && Holds(s.loops[l].pc, c)
  }

  /** The stop channel is closed exactly once, by the read loop, which a connect loop is waiting for until then. */
  predicate LinkFits(s: State, c: ConnId)
    requires c in s.links
  {
    var k := s.links[c];
    && k.stops == (if k.reader == Some(Over) then 1 else 0)
    && (k.reader.Some? && k.reader != Some(Over) ==> HeldBySomeone(s, c))
  }

  predicate LinksFit(s: State) {
    forall c | c in s.links :: LinkFits(s, c)
  }

  predicate BeforeEviction(r: Option<ReadPc>) {
    r == None || r == Some(Reading) || r == Some(ClosingSocket) || r == Some(Evicting)
  }

  /** A listed connection belongs to its node, is held by its loop and has not been evicted yet. */
  predicate ConnsFit(s: State) {
    forall n | n in s.conns ::
      && s.conns[n] in s.links && s.links[s.conns[n]].node == n
      && BeforeEviction(s.links[s.conns[n]].reader) && HeldBySomeone(s, s.conns[n])
  }

  /** Between its online and its offline report. */
  predicate Between(s: State, l: LoopId)
    requires l in s.loops
  {
    match s.loops[l].pc
    case Spawn(c) => true
    case Await(c) => c in s.links && (BeforeEviction(s.links[c].reader) || s.links[c].reader == Some(Reporting))
    case _ => false
  }

  predicate Live(s: State, n: NodeId) {
    exists l :: l in s.loops && s.loops[l].node == n && Between(s, l)
  }

  /** The statuses reported for one node. */
  function Reports(events: seq<Event>, n: NodeId): seq<bool> {
    if events == [] then []
    else
      var e := events[|events| - 1];
      Reports(events[..|events| - 1], n) + if e.node == n then [e.online] else []
  }

  predicate Alternating(rs: seq<bool>) {
    forall i | 0 <= i < |rs| :: rs[i] <==> i % 2 == 0
  }

  /** Reports alternate, and the last one is online exactly while the node is between its reports. */
  predicate ReportsFit(s: State, n: NodeId) {
    Alternating(Reports(s.events, n)) && (|Reports(s.events, n)| % 2 == 1 <==> Live(s, n))
  }

  ghost predicate Inv(s: State) {
    && LoopsListed(s) && SingleOwner(s) && LoopsFit(s) && LinksFit(s) && ConnsFit(s)
    && forall n :: ReportsFit(s, n)
  }

  // ---- preservation -----------------------------------------------------------------------------------

  lemma InitHolds()
    ensures Inv(START)
  {
  }

  lemma ReportsSnoc(events: seq<Event>, e: Event, n: NodeId)
    ensures Reports(events + [e], n) == Reports(events, n) + if e.node == n then [e.online] else []
  {
    assert (events + [e])[..|events|] == events;
  }

  /** A loop that stays active only if it was, and passes the stop check only while the manager runs. */
  lemma LoopControl(s: State, t: State, l: LoopId)
    requires LoopsListed(s) && SingleOwner(s) && OneLoopChanges(s, t, l)
    requires t.stopped == s.stopped && t.emptied == s.emptied && t.looping == s.looping
    requires Active(s.loops[l].pc) && (Past(t.loops[l].pc) ==> Past(s.loops[l].pc) || !s.stopped)
    ensures LoopsListed(t) && SingleOwner(t)
  {
  }

  predicate OneLoopChanges(s: State, t: State, l: LoopId) {
    l in s.loops && l in t.loops && t.loops == s.loops[l := t.loops[l]] && t.loops[l].node == s.loops[l].node
  }

  lemma OnlyPast(s: State, l: LoopId)
    requires SingleOwner(s) && l in s.loops && Past(s.loops[l].pc)
    ensures forall m | m in s.loops && m != l && s.loops[m].node == s.loops[l].node :: !Past(s.loops[m].pc)
  {
  }

  /** No report is made and no node starts or stops being live. */
  lemma ReportsUnchanged(s: State, t: State)
    requires (forall n :: ReportsFit(s, n)) && t.events == s.events
    requires forall n :: Live(s, n) <==> Live(t, n)
    ensures forall n :: ReportsFit(t, n)
  {
    hide Reports, Alternating, Live;
    forall n ensures ReportsFit(t, n) {
      assert ReportsFit(s, n);
    }
  }

  /** The same nodes are live when every loop's place between reports is unchanged. */
  lemma SameLive(s: State, t: State)
    requires s.loops.Keys == t.loops.Keys
    requires forall m | m in s.loops :: (Between(s, m) <==> Between(t, m)) && s.loops[m].node == t.loops[m].node
    ensures forall n :: Live(s, n) <==> Live(t, n)
  {
    hide Between;
    forall n ensures Live(s, n) <==> Live(t, n) {
      LiveFollows(s, t, n);
      LiveFollows(t, s, n);
    }
  }

  lemma LiveFollows(s: State, t: State, n: NodeId)
    requires s.loops.Keys == t.loops.Keys
    requires forall m | m in s.loops :: (Between(s, m) ==> Between(t, m)) && s.loops[m].node == t.loops[m].node
    ensures Live(s, n) ==> Live(t, n)
  {
    hide Between;
    if Live(s, n) {
      var m :| m in s.loops && s.loops[m].node == n && Between(s, m);
      assert m in t.loops && t.loops[m].node == n && Between(t, m);
    }
  }

  /** No other loop works on the node, so nothing is listed for it. */
  lemma NothingListed(s: State, l: LoopId)
    requires Inv(s) && l in s.loops && Past(s.loops[l].pc)
    requires HoldsNothing(s.loops[l].pc)
    ensures s.loops[l].node !in s.conns && !Live(s, s.loops[l].node)
  {
    hide LoopsListed, LinksFit, ReportsFit, Live;
    var n := s.loops[l].node;
    OnlyPast(s, l);
    if n in s.conns {
      ListedHeld(s, n);
    }
    assert forall m | m in s.loops && s.loops[m].node == n :: !Between(s, m);
    NotLive(s, n);
  }

  lemma ListedHeld(s: State, n: NodeId)
    requires LoopsFit(s) && ConnsFit(s) && n in s.conns
    ensures exists m :: m in s.loops && s.loops[m].node == n && !HoldsNothing(s.loops[m].pc)
  {
    var m :| m in s.loops && Holds(s.loops[m].pc, s.conns[n]);
    assert LoopFits(s, m);
  }

  lemma NotLive(s: State, n: NodeId)
    requires forall m | m in s.loops && s.loops[m].node == n :: !Between(s, m)
    ensures !Live(s, n)
  {
    hide Between;
  }

  /** When only loop `l` changes, connections it does not let go of stay held. */
  lemma KeptHeld(s: State, t: State, l: LoopId)
    requires OneLoopChanges(s, t, l)
    ensures forall c | HeldBySomeone(s, c) && (Holds(s.loops[l].pc, c) ==> Holds(t.loops[l].pc, c)) :: HeldBySomeone(t, c)
  {
    hide Holds;
    forall c | HeldBySomeone(s, c) && (Holds(s.loops[l].pc, c) ==> Holds(t.loops[l].pc, c)) ensures HeldBySomeone(t, c) {
      var m :| m in s.loops && Holds(s.loops[m].pc, c);
      assert m in t.loops && Holds(t.loops[m].pc, c);
    }
  }

  /** Links and listed connections fit as long as every held connection stays held. */
  lemma LinksKept(s: State, t: State)
    requires LinksFit(s) && ConnsFit(s) && t.links == s.links && t.conns == s.conns
    requires forall c | HeldBySomeone(s, c) :: HeldBySomeone(t, c)
    ensures LinksFit(t) && ConnsFit(t)
  {
    hide HeldBySomeone, BeforeEviction;
    forall c | c in t.links ensures LinkFits(t, c) { assert LinkFits(s, c); }
  }

  /** A move between program counters at which a loop holds no connection. */
  lemma QuietMove(s: State, l: LoopId, pc: LoopPc)
    requires Inv(s) && l in s.loops && HoldsNothing(s.loops[l].pc) && HoldsNothing(pc) && !pc.Insert?
    requires s.loops[l].pc != Finished && (Past(pc) && !Past(s.loops[l].pc) ==> !s.stopped)
    ensures Inv(Move(s, l, pc))
  {
    hide LoopsListed, SingleOwner, HeldBySomeone, LinksFit, ConnsFit, ReportsFit, Live;
    var t := Move(s, l, pc);
    LoopControl(s, t, l);
    forall m | m in t.loops ensures LoopFits(t, m) && (Between(s, m) <==> Between(t, m)) { assert LoopFits(s, m); }
    KeptHeld(s, t, l);
    LinksKept(s, t);
    SameLive(s, t);
    ReportsUnchanged(s, t);
  }

  /** The dialled socket before it is listed. */
  lemma DialHolds(s: State, l: LoopId, c: ConnId)
    requires Inv(s) && l in s.loops && s.loops[l].pc == Dialing && c !in s.links
    ensures Inv(Move(s, l, Insert(c)).(links := s.links[c := Conn(s.loops[l].node, None, 0)]))
  {
    hide LoopsListed, SingleOwner, HeldBySomeone, ReportsFit, Live;
    var n := s.loops[l].node;
    var t := Move(s, l, Insert(c)).(links := s.links[c := Conn(n, None, 0)]);
    NothingListed(s, l);
    LoopControl(s, t, l);
    forall m | m in t.loops ensures LoopFits(t, m) && (Between(s, m) <==> Between(t, m)) { assert LoopFits(s, m); }
    KeptHeld(s, t, l);
    forall d | d in t.links ensures LinkFits(t, d) { assert d != c ==> LinkFits(s, d); }
    assert ConnsFit(t);
    SameLive(s, t);
    ReportsUnchanged(s, t);
  }

  /** Connect: the dialled connection is listed; nothing was listed for the node before. */
  lemma InsertHolds(s: State, l: LoopId, c: ConnId)
    requires Inv(s) && l in s.loops && s.loops[l].pc == Insert(c)
    ensures s.loops[l].node !in s.conns
    ensures Inv(Move(s, l, Report(c)).(conns := s.conns[s.loops[l].node := c]))
  {
    hide LoopsListed, SingleOwner, HeldBySomeone, ReportsFit, Live;
    var n := s.loops[l].node;
    var t := Move(s, l, Report(c)).(conns := s.conns[n := c]);
    NothingListed(s, l);
    OnlyPast(s, l);
    LoopControl(s, t, l);
    assert LoopFits(s, l);
    forall m | m in t.loops ensures LoopFits(t, m) && (Between(s, m) <==> Between(t, m)) { assert LoopFits(s, m); }
    KeptHeld(s, t, l);
    HeldNow(t, l, c);
    forall d | d in t.links ensures LinkFits(t, d) { assert LinkFits(s, d); }
    assert ConnsFit(t);
    SameLive(s, t);
    ReportsUnchanged(s, t);
  }

  lemma HeldNow(t: State, l: LoopId, c: ConnId)
    requires l in t.loops && Holds(t.loops[l].pc, c)
    ensures HeldBySomeone(t, c)
  {
  }

  /** The online report: the node was not between its reports, now it is. */
  lemma ReportHolds(s: State, l: LoopId, c: ConnId)
    requires Inv(s) && l in s.loops && s.loops[l].pc == Report(c)
    ensures Inv(Move(s, l, Spawn(c)).(events := s.events + [Event(s.loops[l].node, true)]))
  {
    hide LoopsListed, SingleOwner, HeldBySomeone, LinksFit, ConnsFit, ReportsFit, Live;
    var n := s.loops[l].node;
    var t := Move(s, l, Spawn(c)).(events := s.events + [Event(n, true)]);
    LoopControl(s, t, l);
    OnlyPast(s, l);
    forall m | m in t.loops ensures LoopFits(t, m) && (m != l ==> (Between(s, m) <==> Between(t, m))) { assert LoopFits(s, m); }
    KeptHeld(s, t, l);
    LinksKept(s, t);
    assert forall m | m in s.loops && s.loops[m].node == n :: !Between(s, m);
    NowOnline(s, t, l);
  }

  /** A loop enters the stretch between reports and reports online. */
  lemma NowOnline(s: State, t: State, l: LoopId)
    requires (forall n :: ReportsFit(s, n)) && OneLoopChanges(s, t, l)
    requires forall m | m in s.loops && m != l :: Between(s, m) <==> Between(t, m)
    requires forall m | m in s.loops && s.loops[m].node == s.loops[l].node :: !Between(s, m)
    requires Between(t, l) && t.events == s.events + [Event(s.loops[l].node, true)]
    ensures forall n :: ReportsFit(t, n)
  {
    hide Between;
    var n := s.loops[l].node;
    forall x ensures ReportsFit(t, x) {
      assert ReportsFit(s, x);
      ReportsSnoc(s.events, Event(n, true), x);
      if x == n {
        assert t.loops[l].node == n && Live(t, n) && !Live(s, n);
      } else {
        OtherLive(s, t, l, x);
        OtherLive(t, s, l, x);
      }
    }
  }

  /** A change to one loop leaves the other nodes as they were. */
  lemma OtherLive(s: State, t: State, l: LoopId, x: NodeId)
    requires l in s.loops && s.loops.Keys == t.loops.Keys && s.loops[l].node != x
    requires forall m | m in s.loops && m != l :: (Between(s, m) ==> Between(t, m)) && s.loops[m].node == t.loops[m].node
    ensures Live(s, x) ==> Live(t, x)
  {
    hide Between;
    if Live(s, x) {
      var m :| m in s.loops && s.loops[m].node == x && Between(s, m);
      assert m in t.loops && t.loops[m].node == x && Between(t, m);
    }
  }

  /** Starting the read loop. */
  lemma SpawnHolds(s: State, l: LoopId, c: ConnId)
    requires Inv(s) && l in s.loops && s.loops[l].pc == Spawn(c)
    ensures c in s.links && Inv(Move(s, l, Await(c)).(links := s.links[c := s.links[c].(reader := Some(Reading))]))
  {
    hide LoopsListed, SingleOwner, HeldBySomeone, ReportsFit, Live;
    assert LoopFits(s, l) && LinkFits(s, c);
    var t := Move(s, l, Await(c)).(links := s.links[c := s.links[c].(reader := Some(Reading))]);
    LoopControl(s, t, l);
    OnlyPast(s, l);
    forall m | m in t.loops ensures LoopFits(t, m) && (Between(s, m) <==> Between(t, m)) { assert LoopFits(s, m); SpawnFits(s, t, l, c, m); }
    KeptHeld(s, t, l);
    HeldNow(t, l, c);
    hide LoopFits, Between;
    forall d | d in t.links ensures LinkFits(t, d) { assert LinkFits(s, d); }
    assert ConnsFit(t);
    SameLive(s, t);
    ReportsUnchanged(s, t);
  }

  /** The other loops are on other nodes' connections. */
  lemma SpawnFits(s: State, t: State, l: LoopId, c: ConnId, m: LoopId)
    requires OneLoopChanges(s, t, l) && s.loops[l].pc == Spawn(c) && t.loops[l].pc == Await(c) && m in s.loops
    requires c in s.links && t.links == s.links[c := s.links[c].(reader := Some(Reading))] && t.conns == s.conns
    requires LoopFits(s, l) && LoopFits(s, m)
    requires m != l && s.loops[m].node == s.loops[l].node ==> !Past(s.loops[m].pc)
    ensures LoopFits(t, m) && (Between(s, m) <==> Between(t, m))
  {
  }

  /** The wait ends: the read loop is over, so the connection is neither listed nor between its reports. */
  lemma AwaitHolds(s: State, l: LoopId, c: ConnId)
    requires Inv(s) && l in s.loops && s.loops[l].pc == Await(c) && c in s.links && s.links[c].stops > 0
    ensures Inv(Move(s, l, CheckStop))
  {
    hide LoopsListed, SingleOwner, HeldBySomeone, ReportsFit, Live;
    var t := Move(s, l, CheckStop);
    assert LinkFits(s, c) && LoopFits(s, l);
    LoopControl(s, t, l);
    forall m | m in t.loops ensures LoopFits(t, m) && (Between(s, m) <==> Between(t, m)) { assert LoopFits(s, m); }
    KeptHeld(s, t, l);
    forall d | d in t.links ensures LinkFits(t, d) { assert LinkFits(s, d); }
    assert ConnsFit(t);
    SameLive(s, t);
    ReportsUnchanged(s, t);
  }

  // ---- read loops -------------------------------------------------------------------------------------

  /** An unfinished read loop has its connect loop waiting for it. */
  lemma Waiter(s: State, c: ConnId) returns (l: LoopId)
    requires LoopsFit(s) && LinksFit(s) && c in s.links && s.links[c].reader.Some? && s.links[c].reader != Some(Over)
    ensures l in s.loops && s.loops[l] == Loop(s.links[c].node, Await(c))
  {
    assert LinkFits(s, c);
    l :| l in s.loops && Holds(s.loops[l].pc, c);
    assert LoopFits(s, l);
  }

  /** A read loop's step that touches nothing but its own place, and stays on its side of eviction and reports. */
  lemma QuietRead(s: State, c: ConnId, pc: ReadPc, evicts: bool)
    requires Inv(s) && c in s.links && s.links[c].reader.Some? && s.links[c].reader != Some(Over) && pc != Over
    requires BeforeEviction(s.links[c].reader)
    requires evicts <==> pc == Reporting
    requires pc == ClosingSocket || pc == Evicting || pc == Reporting
    ensures var k := s.links[c];
            Inv(s.(links := s.links[c := k.(reader := Some(pc))],
                   conns := if evicts && k.node in s.conns && s.conns[k.node] == c then s.conns - {k.node} else s.conns))
  {
    hide LoopsListed, SingleOwner, HeldBySomeone, ReportsFit, Live;
    var k := s.links[c];
    var t := s.(links := s.links[c := k.(reader := Some(pc))],
                conns := if evicts && k.node in s.conns && s.conns[k.node] == c then s.conns - {k.node} else s.conns);
    SameLoops(s, t);
    assert LinkFits(s, c);
    forall m | m in t.loops ensures LoopFits(t, m) && (Between(s, m) <==> Between(t, m)) { assert LoopFits(s, m); }
    forall d | d in t.links ensures LinkFits(t, d) { assert LinkFits(s, d); }
    assert ConnsFit(t);
    SameLive(s, t);
    ReportsUnchanged(s, t);
  }

  lemma SameLoops(s: State, t: State)
    requires LoopsListed(s) && SingleOwner(s) && t.loops == s.loops && t.looping == s.looping
    requires t.stopped == s.stopped && t.emptied == s.emptied
    ensures LoopsListed(t) && SingleOwner(t) && forall c :: HeldBySomeone(s, c) <==> HeldBySomeone(t, c)
  {
  }

  /** The offline report: the waiting loop was the node's one loop between its reports. */
  lemma OfflineHolds(s: State, c: ConnId)
    requires Inv(s) && c in s.links && s.links[c].reader == Some(Reporting)
    ensures Inv(s.(links := s.links[c := s.links[c].(reader := Some(ClosingStop))], events := s.events + [Event(s.links[c].node, false)]))
  {
    hide LoopsListed, SingleOwner, HeldBySomeone, ReportsFit, Live;
    var k := s.links[c];
    var t := s.(links := s.links[c := k.(reader := Some(ClosingStop))], events := s.events + [Event(k.node, false)]);
    SameLoops(s, t);
    var l := Waiter(s, c);
    OnlyPast(s, l);
    assert LinkFits(s, c);
    forall m | m in t.loops ensures LoopFits(t, m) && (m != l ==> (Between(s, m) <==> Between(t, m))) { assert LoopFits(s, m); }
    forall d | d in t.links ensures LinkFits(t, d) { assert LinkFits(s, d); }
    assert ConnsFit(t);
    NowOffline(s, t, l);
  }

  lemma NowOffline(s: State, t: State, l: LoopId)
    requires (forall n :: ReportsFit(s, n)) && t.loops == s.loops && l in s.loops
    requires forall m | m in s.loops && m != l :: Between(s, m) <==> Between(t, m)
    requires forall m | m in s.loops && s.loops[m].node == s.loops[l].node :: !Between(t, m)
    requires Between(s, l) && t.events == s.events + [Event(s.loops[l].node, false)]
    ensures forall n :: ReportsFit(t, n)
  {
    hide Between;
    var n := s.loops[l].node;
    forall x ensures ReportsFit(t, x) {
      assert ReportsFit(s, x);
      ReportsSnoc(s.events, Event(n, false), x);
      if x == n {
        assert s.loops[l].node == n && Live(s, n) && !Live(t, n);
      } else {
        OtherLive(s, t, l, x);
        OtherLive(t, s, l, x);
      }
    }
  }

  /** The read loop's last act, done once: it closes the stop channel. */
  lemma CloseStopHolds(s: State, c: ConnId)
    requires Inv(s) && c in s.links && s.links[c].reader == Some(ClosingStop)
    ensures s.links[c].stops == 0
    ensures Inv(s.(links := s.links[c := s.links[c].(reader := Some(Over), stops := s.links[c].stops + 1)]))
  {
    hide LoopsListed, SingleOwner, HeldBySomeone, ReportsFit, Live;
    var k := s.links[c];
    var t := s.(links := s.links[c := k.(reader := Some(Over), stops := k.stops + 1)]);
    SameLoops(s, t);
    assert LinkFits(s, c);
    forall m | m in t.loops ensures LoopFits(t, m) && (Between(s, m) <==> Between(t, m)) { assert LoopFits(s, m); }
    forall d | d in t.links ensures LinkFits(t, d) { assert LinkFits(s, d); }
    assert ConnsFit(t);
    SameLive(s, t);
    ReportsUnchanged(s, t);
  }

  // ---- the manager's own steps ----------------------------------------------------------------------------

  lemma ReconcileHolds(s: State, n: NodeId, l: LoopId)
    requires Inv(s) && l !in s.loops && n !in s.conns && n !in s.looping
    ensures Inv(s.(looping := s.looping + {n}, loops := s.loops[l := Loop(n, CheckStop)]))
  {
    hide ReportsFit, Live;
    var t := s.(looping := s.looping + {n}, loops := s.loops[l := Loop(n, CheckStop)]);
    assert LoopsListed(t) && SingleOwner(t);
    forall m | m in t.loops ensures LoopFits(t, m) { assert m != l ==> LoopFits(s, m); }
    forall c | HeldBySomeone(s, c) ensures HeldBySomeone(t, c) {
      var m :| m in s.loops && Holds(s.loops[m].pc, c);
      assert m in t.loops && Holds(t.loops[m].pc, c);
    }
    LinksKept(s, t);
    forall x ensures Live(s, x) <==> Live(t, x) { NewLoopQuiet(s, t, l, x); }
    ReportsUnchanged(s, t);
  }

  lemma NewLoopQuiet(s: State, t: State, l: LoopId, x: NodeId)
    requires l !in s.loops && l in t.loops && t.loops == s.loops[l := t.loops[l]] && t.links == s.links && t.loops[l].pc == CheckStop
    ensures Live(s, x) <==> Live(t, x)
  {
    if Live(s, x) {
      var m :| m in s.loops && s.loops[m].node == x && Between(s, m);
      assert m in t.loops && t.loops[m].node == x && Between(t, m);
    }
    if Live(t, x) {
      var m :| m in t.loops && t.loops[m].node == x && Between(t, m);
      assert m in s.loops && s.loops[m].node == x && Between(s, m);
    }
  }

  lemma LeaveHolds(s: State, l: LoopId)
    requires Inv(s) && l in s.loops && s.loops[l].pc == Leaving
    ensures Inv(Move(s, l, Finished).(looping := s.looping - {s.loops[l].node}))
  {
    hide HeldBySomeone, LinksFit, ConnsFit, ReportsFit, Live;
    var t := Move(s, l, Finished).(looping := s.looping - {s.loops[l].node});
    assert LoopsListed(t) && SingleOwner(t);
    forall m | m in t.loops ensures LoopFits(t, m) && (Between(s, m) <==> Between(t, m)) { assert LoopFits(s, m); }
    KeptHeld(s, t, l);
    LinksKept(s, t);
    SameLive(s, t);
    ReportsUnchanged(s, t);
  }

  /** Drop and Close only take connections off the list. */
  lemma UnlistHolds(s: State, t: State)
    requires Inv(s) && t.loops == s.loops && t.links == s.links && t.events == s.events
    requires forall n | n in t.conns :: n in s.conns && t.conns[n] == s.conns[n]
    requires LoopsListed(t)
    ensures Inv(t)
  {
    hide HeldBySomeone, ReportsFit, Live;
    forall m | m in t.loops ensures LoopFits(t, m) && (Between(s, m) <==> Between(t, m)) { assert LoopFits(s, m); }
    assert SingleOwner(t);
    forall c ensures HeldBySomeone(s, c) <==> HeldBySomeone(t, c) { SameHeld(s, t, c); }
    forall d | d in t.links ensures LinkFits(t, d) { assert LinkFits(s, d); }
    assert ConnsFit(t);
    SameLive(s, t);
    ReportsUnchanged(s, t);
  }

  lemma SameHeld(s: State, t: State, c: ConnId)
    requires s.loops == t.loops
    ensures HeldBySomeone(s, c) <==> HeldBySomeone(t, c)
  {
  }

  lemma LoopStepHolds(s: State, l: LoopId, choice: Choice)
    requires Inv(s) && l in s.loops && LoopMoves(s, l, choice).Some?
    ensures Inv(LoopMoves(s, l, choice).value)
  {
    hide Inv;
    match s.loops[l].pc
    case CheckStop => QuietMove(s, l, if s.stopped then Leaving else CheckNode);
    case CheckNode => QuietMove(s, l, if choice == NodeGone then Leaving else LookUp);
    case LookUp => NothingListed(s, l); QuietMove(s, l, Dialing);
    case Dialing => if choice == DialFails { QuietMove(s, l, Backoff); } else { DialHolds(s, l, choice.conn); }
    case Insert(c) => InsertHolds(s, l, c);
    case Report(c) => ReportHolds(s, l, c);
    case Spawn(c) => SpawnHolds(s, l, c);
    case Await(c) => AwaitHolds(s, l, c);
    case Backoff => QuietMove(s, l, if choice == SeesStop then Leaving else CheckStop);
    case Leaving => LeaveHolds(s, l);
    case Finished =>
  }

  lemma ReadStepHolds(s: State, c: ConnId)
    requires Inv(s) && c in s.links && ReadMoves(s, c).Some?
    ensures Inv(ReadMoves(s, c).value)
  {
    hide Inv;
    match s.links[c].reader
    case None =>
    case Some(Reading) => QuietRead(s, c, ClosingSocket, false);
    case Some(ClosingSocket) => QuietRead(s, c, Evicting, false);
    case Some(Evicting) => QuietRead(s, c, Reporting, true);
    case Some(Reporting) => OfflineHolds(s, c);
    case Some(ClosingStop) => CloseStopHolds(s, c);
    case Some(Over) =>
  }

  /** Every step keeps the invariant. */
  lemma StepHolds(s: State, step: Step)
    requires Inv(s) && Next(s, step).Some?
    ensures Inv(Next(s, step).value)
  {
    match step
    case Reconcile(n, l) => if !(n in s.conns || n in s.looping) { ReconcileHolds(s, n, l); }
    case LoopStep(l, choice) => LoopStepHolds(s, l, choice);
    case ReadStep(c) => ReadStepHolds(s, c);
    case DropNode(n) => UnlistHolds(s, Next(s, step).value);
    case CloseStop => UnlistHolds(s, Next(s, step).value);
    case CloseMaps => UnlistHolds(s, Next(s, step).value);
  }

  // ---- runs --------------------------------------------------------------------------------------------------

  /** The state after a schedule of steps from the start; `None` if some step cannot happen. */
  function Run(steps: seq<Step>): Option<State> {
    if steps == [] then Some(START)
    else match Run(steps[..|steps| - 1])
      case Some(s) => Next(s, steps[|steps| - 1])
      case None => None
  }

  lemma {:induction false} RunHolds(steps: seq<Step>)
    requires Run(steps).Some?
    ensures Inv(Run(steps).value)
  {
    hide Inv, Next;
    if steps == [] {
      InitHolds();
    } else {
      RunHolds(steps[..|steps| - 1]);
      StepHolds(Run(steps[..|steps| - 1]).value, steps[|steps| - 1]);
    }
  }

  /** In every interleaving, the statuses reported for a node are online, offline, online, ... */
  lemma StatusAlternates(steps: seq<Step>, n: NodeId)
    requires Run(steps).Some?
    ensures Alternating(Reports(Run(steps).value.events, n))
  {
    RunHolds(steps);
    assert ReportsFit(Run(steps).value, n);
  }

  /** In every interleaving, Close and Drop included, at most one loop per node is past its stop check. */
  lemma OneLoopPerNode(steps: seq<Step>, l: LoopId, m: LoopId)
    requires Run(steps).Some?
    requires var s := Run(steps).value;
             l in s.loops && m in s.loops && s.loops[l].node == s.loops[m].node && Past(s.loops[l].pc) && Past(s.loops[m].pc)
    ensures l == m
  {
    RunHolds(steps);
  }

  /** In every interleaving, an unfinished read loop has its node's connect loop waiting for it, so loops that have
      finished leave none behind, and each stop channel is closed at most once and only when its read loop is over. */
  lemma ReadLoopsOwned(steps: seq<Step>, c: ConnId)
    requires Run(steps).Some? && c in Run(steps).value.links
    ensures var s := Run(steps).value;
            && s.links[c].stops <= 1 && (s.links[c].stops == 1 <==> s.links[c].reader == Some(Over))
            && (s.links[c].reader.Some? && s.links[c].reader != Some(Over) ==>
                  exists l :: l in s.loops && s.loops[l] == Loop(s.links[c].node, Await(c)))
  {
    RunHolds(steps);
    var s := Run(steps).value;
    assert LinkFits(s, c);
    if s.links[c].reader.Some? && s.links[c].reader != Some(Over) {
      var l := Waiter(s, c);
    }
  }

  /** A read loop about to evict finds its own connection listed or none: it never evicts another. */
  lemma EvictsOnlyItself(steps: seq<Step>, c: ConnId)
    requires Run(steps).Some?
    requires c in Run(steps).value.links && Run(steps).value.links[c].reader == Some(Evicting)
    ensures var s := Run(steps).value; var n := s.links[c].node; n in s.conns ==> s.conns[n] == c
  {
    hide Inv, Run;
    RunHolds(steps);
    ListedIsOwn(Run(steps).value, c);
  }

  lemma ListedIsOwn(s: State, c: ConnId)
    requires Inv(s) && c in s.links && s.links[c].reader == Some(Evicting)
    ensures var n := s.links[c].node; n in s.conns ==> s.conns[n] == c
  {
    hide LoopsListed, ReportsFit;
    var n := s.links[c].node;
    var l := Waiter(s, c);
    OnlyPast(s, l);
    if n in s.conns {
      var m :| m in s.loops && Holds(s.loops[m].pc, s.conns[n]);
      assert LoopFits(s, m);
      assert Past(s.loops[m].pc) && s.loops[m].node == n;
    }
  }

  // ---- what a reconcile achieves ---------------------------------------------------------------------

  predicate HasLoop(s: State, n: NodeId) {
    exists l :: l in s.loops && s.loops[l].node == n && Active(s.loops[l].pc)
  }

  /** Before Close has emptied the maps, a node in the looping map has a loop. */
  ghost predicate Supervised(s: State) {
    !s.emptied ==> forall n | n in s.looping :: HasLoop(s, n)
  }

  lemma LoopStepSupervised(s: State, l: LoopId, choice: Choice)
    requires LoopsListed(s) && Supervised(s) && l in s.loops && LoopMoves(s, l, choice).Some?
    ensures Supervised(LoopMoves(s, l, choice).value)
  {
    var t := LoopMoves(s, l, choice).value;
    LoopStepShape(s, l, choice);
    hide LoopMoves;
    if !t.emptied {
      forall n | n in t.looping ensures HasLoop(t, n) {
        assert HasLoop(s, n);
        var m :| m in s.loops && s.loops[m].node == n && Active(s.loops[m].pc);
        assert m in t.loops && t.loops[m].node == n && Active(t.loops[m].pc);
      }
    }
  }

  /** A loop leaves the looping map exactly when it finishes. */
  lemma LoopStepShape(s: State, l: LoopId, choice: Choice)
    requires l in s.loops && LoopMoves(s, l, choice).Some?
    ensures var t := LoopMoves(s, l, choice).value;
            && OneLoopChanges(s, t, l) && t.emptied == s.emptied
            && t.looping == if Active(t.loops[l].pc) then s.looping else s.looping - {s.loops[l].node}
  {
    hide Move, OneLoopChanges;
    forall pc ensures MovedTo(s, Move(s, l, pc), l, pc) {
      MoveShape(s, l, pc);
    }
    SameMap(s, LoopMoves(s, l, choice).value, l);
  }

  predicate MovedTo(s: State, t: State, l: LoopId, pc: LoopPc) {
    OneLoopChanges(s, t, l) && t.loops[l].pc == pc && t.looping == s.looping && t.emptied == s.emptied
  }

  lemma MoveShape(s: State, l: LoopId, pc: LoopPc)
    requires l in s.loops
    ensures MovedTo(s, Move(s, l, pc), l, pc)
  {
  }

  /** Only the loops matter. */
  lemma SameMap(s: State, t: State, l: LoopId)
    ensures forall u: State | u.loops == t.loops && OneLoopChanges(s, u, l) :: OneLoopChanges(s, t, l)
  {
  }

  lemma ReadStepSupervised(s: State, c: ConnId)
    requires Supervised(s) && c in s.links && ReadMoves(s, c).Some?
    ensures Supervised(ReadMoves(s, c).value)
  {
    var t := ReadMoves(s, c).value;
    assert t.loops == s.loops && t.looping == s.looping && t.emptied == s.emptied;
    hide ReadMoves;
    SameSupervision(s, t);
  }

  lemma SameSupervision(s: State, t: State)
    requires Supervised(s) && t.loops == s.loops && t.looping == s.looping && t.emptied == s.emptied
    ensures Supervised(t)
  {
    forall n | !t.emptied && n in t.looping ensures HasLoop(t, n) { assert HasLoop(s, n); }
  }

  lemma ReconcileSupervised(s: State, n: NodeId, l: LoopId)
    requires Supervised(s) && l !in s.loops
    ensures Supervised(s.(looping := s.looping + {n}, loops := s.loops[l := Loop(n, CheckStop)]))
  {
    var t := s.(looping := s.looping + {n}, loops := s.loops[l := Loop(n, CheckStop)]);
    forall k | !t.emptied && k in t.looping ensures HasLoop(t, k) {
      if k == n {
        assert l in t.loops && t.loops[l].node == n && Active(t.loops[l].pc);
      } else {
        assert HasLoop(s, k);
        var m :| m in s.loops && s.loops[m].node == k && Active(s.loops[m].pc);
        assert m in t.loops && t.loops[m] == s.loops[m];
      }
    }
  }

  lemma StepSupervised(s: State, step: Step)
    requires LoopsListed(s) && Supervised(s) && Next(s, step).Some?
    ensures Supervised(Next(s, step).value)
  {
    hide LoopMoves, ReadMoves, Supervised, LoopsListed;
    match step
    case Reconcile(n, l) => if !(n in s.conns || n in s.looping) { ReconcileSupervised(s, n, l); }
    case LoopStep(l, choice) => LoopStepSupervised(s, l, choice);
    case ReadStep(c) => ReadStepSupervised(s, c);
    case DropNode(n) => SameSupervision(s, Next(s, step).value);
    case CloseStop => SameSupervision(s, Next(s, step).value);
    case CloseMaps => Unsupervised(Next(s, step).value);
  }

  lemma Unsupervised(t: State)
    requires t.emptied
    ensures Supervised(t)
  {
  }

  lemma {:induction false} RunSupervised(steps: seq<Step>)
    requires Run(steps).Some?
    ensures Supervised(Run(steps).value)
  {
    hide Next, Supervised, Inv;
    if steps == [] {
      StartSupervised();
    } else {
      var s := Run(steps[..|steps| - 1]).value;
      RunSupervised(steps[..|steps| - 1]);
      RunHolds(steps[..|steps| - 1]);
      assert LoopsListed(s) by { InvListed(s); }
      StepSupervised(s, steps[|steps| - 1]);
    }
  }

  lemma InvListed(s: State)
    requires Inv(s)
    ensures LoopsListed(s) && LoopsFit(s) && ConnsFit(s)
  {
  }

  lemma StartSupervised()
    ensures Supervised(START)
  {
  }

  /** A loop that may still serve its node. */
  predicate Serving(p: LoopPc) {
    p != Leaving && p != Finished
  }

  predicate Served(s: State, n: NodeId) {
    exists l :: l in s.loops && s.loops[l].node == n && Serving(s.loops[l].pc)
  }

  /** A loop of the node has decided to go and has not taken itself out of the looping map yet. */
  predicate GoingAway(s: State, n: NodeId) {
    exists l :: l in s.loops && s.loops[l].node == n && s.loops[l].pc == Leaving
  }

  /** In every interleaving, until Close empties the maps, reconciling a node leaves it with one connect loop at most,
      and with one that may serve it exactly when no loop of the node was on its way out at that moment: a reconcile
      that meets a leaving loop is lost. */
  lemma ReconcileServesExactly(steps: seq<Step>, n: NodeId, l: LoopId)
    requires Run(steps + [Reconcile(n, l)]).Some? && Run(steps).Some? && !Run(steps).value.emptied
    ensures var t := Run(steps + [Reconcile(n, l)]).value;
            && (Served(t, n) <==> !GoingAway(Run(steps).value, n))
            && HasLoop(t, n)
            && forall i, j | i in t.loops && j in t.loops && t.loops[i].node == n && t.loops[j].node == n
                             && Active(t.loops[i].pc) && Active(t.loops[j].pc) :: i == j
  {
    hide Inv, Supervised, Served, GoingAway;
    var s, more := Run(steps).value, steps + [Reconcile(n, l)];
    assert more[..|steps|] == steps;
    RunHolds(steps);
    RunHolds(more);
    RunSupervised(steps);
    RunSupervised(more);
    InvListed(s);
    InvListed(Run(more).value);
    ReconciledLoops(s, Run(more).value, n, l);
    ReconcileServes(s, Run(more).value, n, l);
  }

  lemma ReconciledLoops(s: State, t: State, n: NodeId, l: LoopId)
    requires Next(s, Reconcile(n, l)) == Some(t) && !s.emptied
    requires LoopsFit(s) && ConnsFit(s) && LoopsListed(t) && Supervised(t)
    ensures HasLoop(t, n)
    ensures forall i, j | i in t.loops && j in t.loops && t.loops[i].node == n && t.loops[j].node == n
                          && Active(t.loops[i].pc) && Active(t.loops[j].pc) :: i == j
  {
    if n in s.conns {
      ListedHeld(s, n);
      var m :| m in s.loops && s.loops[m].node == n && !HoldsNothing(s.loops[m].pc);
      assert t == s && Active(t.loops[m].pc);
    }
  }

  lemma ReconcileServes(s: State, t: State, n: NodeId, l: LoopId)
    requires Next(s, Reconcile(n, l)) == Some(t) && !s.emptied
    requires LoopsFit(s) && ConnsFit(s) && LoopsListed(s) && Supervised(s)
    ensures Served(t, n) <==> !GoingAway(s, n)
  {
    hide LoopsFit, ConnsFit;
    if GoingAway(s, n) {
      assert n in s.looping && t == s;
    } else if n in s.conns {
      ListedHeld(s, n);
      var m :| m in s.loops && s.loops[m].node == n && !HoldsNothing(s.loops[m].pc);
      assert Serving(t.loops[m].pc);
    } else if n in s.looping {
      assert HasLoop(s, n);
      var m :| m in s.loops && s.loops[m].node == n && Active(s.loops[m].pc);
      assert Serving(t.loops[m].pc);
    } else {
      assert Serving(t.loops[l].pc);
    }
  }

  // ---- a run in which a reconcile is lost -----------------------------------------------------------

  /** One loop for one node, and nothing else. */
  function Lone(pc: LoopPc, stopped: bool, emptied: bool): State {
    State(stopped, emptied, map[], if emptied then {} else {"n"}, map[0 := Loop("n", pc)], map[], [])
  }

  lemma LoneMoves(pc: LoopPc, to: LoopPc)
    ensures Move(Lone(pc, false, false), 0, to) == Lone(to, false, false)
  {
    assert map[0 := Loop("n", pc)][0 := Loop("n", to)] == map[0 := Loop("n", to)];
  }

  lemma LoneStarts()
    ensures Next(START, Reconcile("n", 0)) == Some(Lone(CheckStop, false, false))
  {
    assert map[][0 := Loop("n", CheckStop)] == map[0 := Loop("n", CheckStop)];
    assert {} + {"n"} == {"n"};
  }

  lemma RunThen(steps: seq<Step>, step: Step)
    requires Run(steps).Some?
    ensures Run(steps + [step]) == Next(Run(steps).value, step)
  {
    hide Next;
    assert (steps + [step])[..|steps|] == steps;
  }

  lemma RunNothing()
    ensures Run([]) == Some(START)
  {
  }

  /** A loop that found its node gone is still listed when the node, back in the store, is reconciled: nobody connects
      to it, with the manager running and nothing else going on, until some later reconcile. */
  lemma LostReconcile() returns (steps: seq<Step>)
    ensures Run(steps).Some? && Run(steps + [Reconcile("n", 1)]).Some?
    ensures !Run(steps).value.stopped && !Served(Run(steps + [Reconcile("n", 1)]).value, "n")
  {
    LoneStarts();
    LoneMoves(CheckStop, CheckNode);
    LoneMoves(CheckNode, Leaving);
    hide Run, Move;
    RunNothing();
    steps := [];
    RunThen(steps, Reconcile("n", 0));
    steps := steps + [Reconcile("n", 0)];
    RunThen(steps, LoopStep(0, Go));
    steps := steps + [LoopStep(0, Go)];
    RunThen(steps, LoopStep(0, NodeGone));
    steps := steps + [LoopStep(0, NodeGone)];
    RunThen(steps, Reconcile("n", 1));
  }
}
