/** The agent's table of followed logs as a transition system: one program counter per follow, one atomic step per
    locked section, event written, channel operation or call into Docker (internal/agent/docker/client.go:
    StreamLogs, StopLogs). */
module Streams {
  import opened GoLib
  import opened LineWriter
  import opened Text

  type ContainerId = string
  type FollowId = nat
  type ClientId = nat

  datatype Side = Stdout | Stderr

  /** Where the copying goroutine of a follow is; from `Ending` on these are its deferred functions. */
  datatype Pc =
    | Opening                // ContainerLogs
    | Copying                // StdCopy into the two splitters
    | FlushingOut            // out.Flush
    | FlushingErr            // errOut.Flush
    | Ending(error: string)  // the end event
    | Closing                // close(finished)
    | Removing               // the deferred locked section
    | Done

  datatype Line = Line(side: Side, text: string)

  /** `out` and `err` are the frames read so far; `queue` the lines a splitter has cut and not sent yet;
      `waiting` holds while the goroutine that watches for the client's disconnect is blocked. */
  datatype Follow = Follow(container: ContainerId, client: ClientId, pc: Pc, cancelled: bool, waiting: bool,
                           out: seq<string>, err: seq<string>, queue: seq<Line>)

  datatype Event = LineEvent(id: FollowId, line: Line) | EndEvent(id: FollowId, error: string)

  datatype State = State(
    table: map<ContainerId, FollowId>,
    follows: map<FollowId, Follow>,
    gone: set<ClientId>,     // clients whose done channel is closed
    events: seq<Event>)      // in the order written

  const START := State(map[], map[], {}, [])

  datatype Step =
    | Start(id: FollowId, container: ContainerId, client: ClientId)
    | Stop(container: ContainerId)
    | Disconnect(client: ClientId)
    | Notice(id: FollowId)                            // the watcher sees the disconnect
    | Dismiss(id: FollowId)                           // the watcher sees `finished`
    | Opened(id: FollowId)
    | OpenFails(id: FollowId, error: string)
    | Frame(id: FollowId, side: Side, data: string)   // StdCopy writes one frame to a splitter
    | Send(id: FollowId)                              // one cut line is written
    | Advance(id: FollowId)                           // StdCopy returns, or the goroutine goes on to its next action

  function Set(s: State, id: FollowId, f: Follow): State {
    s.(follows := s.follows[id := f])
  }

  /** The locked cancel of whatever is listed for a container. */
  function CancelListed(s: State, c: ContainerId): State {
    if c in s.table && s.table[c] in s.follows then
      Set(s, s.table[c], s.follows[s.table[c]].(cancelled := true))
    else s
  }

  function SideLines(side: Side, texts: seq<string>): (ls: seq<Line>)
    ensures |ls| == |texts| && forall i | 0 <= i < |texts| :: ls[i] == Line(side, texts[i])
  {
    seq(|texts|, i requires 0 <= i < |texts| => Line(side, texts[i]))
  }

  /** The lines a write or flush adds to those a splitter has cut. */
  function NewLines(before: Splitter, after: Splitter): seq<string> {
    if |before.emitted| <= |after.emitted| then after.emitted[|before.emitted|..] else []
  }

  function TakeFrame(f: Follow, side: Side, data: string): Follow {
    match side
    case Stdout => f.(out := f.out + [data], queue := SideLines(Stdout, NewLines(Fed(f.out), Written(Fed(f.out), data))))
    case Stderr => f.(err := f.err + [data], queue := SideLines(Stderr, NewLines(Fed(f.err), Written(Fed(f.err), data))))
  }

  function Advanced(s: State, id: FollowId): Option<State>
    requires id in s.follows
  {
    var f := s.follows[id];
    match f.pc
    case Copying => Some(Set(s, id, f.(pc := FlushingOut, queue := SideLines(Stdout, NewLines(Fed(f.out), Flushed(Fed(f.out)))))))
    case FlushingOut => Some(Set(s, id, f.(pc := FlushingErr, queue := SideLines(Stderr, NewLines(Fed(f.err), Flushed(Fed(f.err)))))))
    case FlushingErr => Some(Set(s, id, f.(pc := Ending(""))))
    case Ending(e) => Some(Set(s, id, f.(pc := Closing)).(events := s.events + [EndEvent(id, e)]))
    case Closing => Some(Set(s, id, f.(pc := Removing)))
    case Removing =>
      var t := Set(s, id, f.(pc := Done));
      Some(if f.container in s.table && s.table[f.container] == id then t.(table := s.table - {f.container}) else t)
    case _ => None
  }

  /** The goroutine has closed `finished`. */
  predicate Finished(p: Pc) {
    p == Removing || p == Done
  }

  function Next(s: State, step: Step): Option<State> {
    match step
    case Start(id, c, client) =>
      if id in s.follows then None
      else Some(Set(CancelListed(s, c), id, Follow(c, client, Opening, false, true, [], [], [])).(table := s.table[c := id]))
    case Stop(c) => Some(CancelListed(s, c))
    case Disconnect(client) => Some(s.(gone := s.gone + {client}))
    case Notice(id) =>
      if id in s.follows && s.follows[id].waiting && s.follows[id].client in s.gone then
        Some(Set(s, id, s.follows[id].(waiting := false, cancelled := true)))
      else None
    case Dismiss(id) =>
      if id in s.follows && s.follows[id].waiting && Finished(s.follows[id].pc) then
        Some(Set(s, id, s.follows[id].(waiting := false)))
      else None
    case Opened(id) =>
      if id in s.follows && s.follows[id].pc == Opening then Some(Set(s, id, s.follows[id].(pc := Copying))) else None
    case OpenFails(id, e) =>
      if id in s.follows && s.follows[id].pc == Opening then Some(Set(s, id, s.follows[id].(pc := Ending(e)))) else None
    case Frame(id, side, data) =>
      if id in s.follows && s.follows[id].pc == Copying && s.follows[id].queue == [] then
        Some(Set(s, id, TakeFrame(s.follows[id], side, data)))
      else None
    case Send(id) =>
      if id in s.follows && s.follows[id].queue != [] then
        var f := s.follows[id];
        Some(Set(s, id, f.(queue := f.queue[1..])).(events := s.events + [LineEvent(id, f.queue[0])]))
      else None
    case Advance(id) => if id in s.follows && s.follows[id].queue == [] then Advanced(s, id) else None
  }

  function Run(steps: seq<Step>): Option<State> {
    if steps == [] then Some(START)
    else match Run(steps[..|steps| - 1])
      case Some(s) => Next(s, steps[|steps| - 1])
      case None => None
  }

  // ---- the table -----------------------------------------------------------------------------------

  /** The table lists unfinished follows under their containers. */
  predicate ListedFit(s: State) {
    forall c | c in s.table :: s.table[c] in s.follows && s.follows[s.table[c]].container == c && s.follows[s.table[c]].pc != Done
  }

  /** A follow nobody cancelled and that has not removed itself. */
  predicate Live(f: Follow) {
    !f.cancelled && f.pc != Done
  }

  /** Every such follow is the one in the table. */
  predicate LiveListed(s: State) {
    forall id | id in s.follows && Live(s.follows[id]) ::
      s.follows[id].container in s.table && s.table[s.follows[id].container] == id
  }

  /** A follow is watched until it is cancelled or done copying. */
  predicate Watched(s: State) {
    forall id | id in s.follows && !s.follows[id].waiting :: s.follows[id].cancelled || Finished(s.follows[id].pc)
  }

  predicate TableInv(s: State) {
    ListedFit(s) && LiveListed(s) && Watched(s)
  }

  lemma TableKept(s: State, step: Step)
    requires TableInv(s) && Next(s, step).Some?
    ensures TableInv(Next(s, step).value)
  {
    hide TakeFrame, SideLines, NewLines, TableInv;
    var t := Next(s, step).value;
    match step
    case Start(id, c, client) => StartKept(s, id, c, client);
    case Stop(c) => CancelKept(s, c);
    case Disconnect(client) => TableSame(s, t);
    case Notice(id) => MoveKept(s, t, id);
    case Dismiss(id) => MoveKept(s, t, id);
    case Opened(id) => MoveKept(s, t, id);
    case OpenFails(id, e) => MoveKept(s, t, id);
    case Frame(id, side, data) => TakeFrameFrame(s.follows[id], side, data); MoveKept(s, t, id);
    case Send(id) => MoveKept(s, t, id);
    case Advance(id) => if s.follows[id].pc == Removing { RemoveKept(s, id); } else { MoveKept(s, t, id); }
  }

  lemma TableSame(s: State, t: State)
    requires TableInv(s) && t.table == s.table && t.follows == s.follows
    ensures TableInv(t)
  {
  }

  /** One follow moves without leaving the table or becoming live again. */
  lemma MoveKept(s: State, t: State, id: FollowId)
    requires TableInv(s) && id in s.follows && id in t.follows
    requires t.table == s.table && t.follows == s.follows[id := t.follows[id]]
    requires var f, g := s.follows[id], t.follows[id];
             && g.container == f.container && (f.pc == Done <==> g.pc == Done) && (f.cancelled ==> g.cancelled)
             && (g.waiting || g.cancelled || Finished(g.pc) || (!f.waiting && !Finished(f.pc)))
    ensures TableInv(t)
  {
  }

  lemma CancelKept(s: State, c: ContainerId)
    requires TableInv(s)
    ensures TableInv(CancelListed(s, c))
  {
  }

  lemma RemoveKept(s: State, id: FollowId)
    requires TableInv(s) && Next(s, Advance(id)).Some? && s.follows[id].pc == Removing
    ensures TableInv(Next(s, Advance(id)).value)
  {
  }

  lemma TakeFrameFrame(f: Follow, side: Side, data: string)
    ensures var g := TakeFrame(f, side, data); g == f.(out := g.out, err := g.err, queue := g.queue)
  {
  }

  lemma StartKept(s: State, id: FollowId, c: ContainerId, client: ClientId)
    requires TableInv(s) && id !in s.follows
    ensures TableInv(Next(s, Start(id, c, client)).value)
  {
  }

  lemma {:induction false} TableHolds(steps: seq<Step>)
    requires Run(steps).Some?
    ensures TableInv(Run(steps).value)
  {
    hide Next, TableInv;
    if steps == [] {
      StartHolds();
    } else {
      TableHolds(steps[..|steps| - 1]);
      TableKept(Run(steps[..|steps| - 1]).value, steps[|steps| - 1]);
    }
  }

  lemma StartHolds()
    ensures TableInv(START)
  {
  }

  /** In every interleaving of starts, stops, disconnects and stream ends, two live follows of one container are the
      same follow, and it is the one in the table. */
  lemma OneLiveFollow(steps: seq<Step>, i: FollowId, j: FollowId)
    requires Run(steps).Some?
    requires var s := Run(steps).value; i in s.follows && j in s.follows && s.follows[i].container == s.follows[j].container
    requires Live(Run(steps).value.follows[i]) && Live(Run(steps).value.follows[j])
    ensures i == j && Run(steps).value.follows[i].container in Run(steps).value.table
    ensures Run(steps).value.table[Run(steps).value.follows[i].container] == i
  {
    TableHolds(steps);
  }

  /** Finishing never takes a newer follow out of the table, nor leaves its own entry behind. */
  lemma FinishingRemovesOnlyItself(steps: seq<Step>, id: FollowId)
    requires Run(steps).Some? && Run(steps + [Advance(id)]).Some?
    requires id in Run(steps).value.follows && Run(steps).value.follows[id].pc == Removing
    ensures var s, t := Run(steps).value, Run(steps + [Advance(id)]).value;
            && (forall c | c in s.table && s.table[c] != id :: c in t.table && t.table[c] == s.table[c])
            && (forall c | c in t.table :: t.table[c] != id && c in s.table)
  {
    TableHolds(steps);
    TableHolds(steps + [Advance(id)]);
    assert (steps + [Advance(id)])[..|steps|] == steps;
  }

  /** After a stop no follow of the container is live, and no other container's is touched. */
  lemma StopSilences(steps: seq<Step>, c: ContainerId, id: FollowId)
    requires Run(steps).Some? && id in Run(steps).value.follows
    ensures Run(steps + [Stop(c)]).Some? && id in Run(steps + [Stop(c)]).value.follows
    ensures var s, t := Run(steps).value, Run(steps + [Stop(c)]).value;
            Live(t.follows[id]) <==> Live(s.follows[id]) && s.follows[id].container != c
  {
    TableHolds(steps);
    assert (steps + [Stop(c)])[..|steps|] == steps;
  }

  /** A live follow whose client is gone can still be noticed, and then is not live. */
  lemma DisconnectReaches(steps: seq<Step>, id: FollowId)
    requires Run(steps).Some?
    requires var s := Run(steps).value; id in s.follows && Live(s.follows[id]) && s.follows[id].client in s.gone
    requires !Finished(Run(steps).value.follows[id].pc)
    ensures Run(steps + [Notice(id)]).Some? && !Live(Run(steps + [Notice(id)]).value.follows[id])
  {
    TableHolds(steps);
    assert (steps + [Notice(id)])[..|steps|] == steps;
  }

  // ---- the events ----------------------------------------------------------------------------------

  /** The lines one follow has sent. */
  function SentLines(events: seq<Event>, id: FollowId): seq<Line> {
    if events == [] then []
    else
      var e := events[|events| - 1];
      SentLines(events[..|events| - 1], id) + if e.LineEvent? && e.id == id then [e.line] else []
  }

  /** How many end events one follow has sent. */
  function SentEnds(events: seq<Event>, id: FollowId): nat {
    if events == [] then 0
    else
      var e := events[|events| - 1];
      SentEnds(events[..|events| - 1], id) + if e.EndEvent? && e.id == id then 1 else 0
  }

  function Texts(ls: seq<Line>, side: Side): seq<string> {
    if ls == [] then []
    else
      var l := ls[|ls| - 1];
      Texts(ls[..|ls| - 1], side) + if l.side == side then [l.text] else []
  }

  function Frames(f: Follow, side: Side): seq<string> {
    if side == Stdout then f.out else f.err
  }

  predicate Flushing(p: Pc, side: Side) {
    p != Opening && p != Copying && (side == Stderr ==> p != FlushingOut)
  }

  /** The lines a splitter has cut from the frames read, at a given place of the goroutine. */
  function Cut(f: Follow, side: Side): seq<string> {
    var w := Fed(Frames(f, side));
    if Flushing(f.pc, side) then Flushed(w).emitted else w.emitted
  }

  /** The end event has been written. */
  predicate Ended(p: Pc) {
    p == Closing || Finished(p)
  }

  /** Sent and queued lines are what the splitters cut, nothing is queued at an end, and one end event is sent. */
  predicate SentFit(events: seq<Event>, id: FollowId, f: Follow) {
    && (forall side :: Texts(SentLines(events, id) + f.queue, side) == Cut(f, side))
    && (f.queue != [] ==> f.pc == Copying || f.pc == FlushingOut || f.pc == FlushingErr)
    && SentEnds(events, id) == (if Ended(f.pc) then 1 else 0)
    && (f.pc == Opening ==> f.out == [] && f.err == [])
  }

  predicate EventsInv(s: State) {
    && (forall id | id in s.follows :: SentFit(s.events, id, s.follows[id]))
    && (forall i | 0 <= i < |s.events| :: s.events[i].id in s.follows)
  }

  lemma TextsSnoc(ls: seq<Line>, l: Line, side: Side)
    ensures Texts(ls + [l], side) == Texts(ls, side) + if l.side == side then [l.text] else []
  {
    assert (ls + [l])[..|ls|] == ls;
  }

  lemma {:induction false} TextsAppend(ls: seq<Line>, sd: Side, texts: seq<string>, side: Side)
    ensures Texts(ls + SideLines(sd, texts), side) == Texts(ls, side) + if sd == side then texts else []
    decreases |texts|
  {
    hide Texts;
    if texts == [] {
      assert ls + SideLines(sd, texts) == ls;
    } else {
      var front, text := texts[..|texts| - 1], texts[|texts| - 1];
      TextsAppend(ls, sd, front, side);
      assert texts == front + [text];
      SideLinesSnoc(ls, sd, front, text);
      TextsSnoc(ls + SideLines(sd, front), Line(sd, text), side);
    }
  }

  lemma SideLinesSnoc(ls: seq<Line>, sd: Side, front: seq<string>, text: string)
    ensures ls + SideLines(sd, front + [text]) == (ls + SideLines(sd, front)) + [Line(sd, text)]
  {
    assert SideLines(sd, front + [text]) == SideLines(sd, front) + [Line(sd, text)];
  }

  lemma {:induction false} WrittenGrows(w: Splitter, p: string)
    ensures |w.emitted| <= |Written(w, p).emitted| && Written(w, p).emitted[..|w.emitted|] == w.emitted
    decreases |p|
  {
    var i := Span(p, IsNewline);
    if i < |p| {
      WrittenGrows(Splitter("", w.emitted + [w.buf + p[..i]]), p[i + 1..]);
    }
  }

  /** Queueing what a splitter newly cut brings the sent and queued lines up to date. */
  lemma QueuedNew(sent: seq<Line>, before: Splitter, after: Splitter, sd: Side, side: Side)
    requires |before.emitted| <= |after.emitted| && after.emitted[..|before.emitted|] == before.emitted
    ensures Texts(sent + SideLines(sd, NewLines(before, after)), side) ==
            Texts(sent, side) + if sd == side then NewLines(before, after) else []
    ensures before.emitted + NewLines(before, after) == after.emitted
  {
    TextsAppend(sent, sd, NewLines(before, after), side);
  }

  lemma FrameFits(events: seq<Event>, id: FollowId, f: Follow, sd: Side, data: string)
    requires SentFit(events, id, f) && f.pc == Copying && f.queue == []
    ensures SentFit(events, id, TakeFrame(f, sd, data))
  {
    hide Texts, SentLines, SentEnds, Written, Flushed, SideLines, NewLines;
    var g := TakeFrame(f, sd, data);
    var read, chunks := Frames(f, sd), Frames(g, sd);
    assert chunks == read + [data] && chunks[..|read|] == read;
    WrittenGrows(Fed(read), data);
    assert Fed(chunks) == Written(Fed(read), data);
    var sent := SentLines(events, id);
    assert sent + [] == sent;
    forall side ensures Texts(sent + g.queue, side) == Cut(g, side) {
      assert Texts(sent + f.queue, side) == Cut(f, side);
      QueuedNew(sent, Fed(read), Fed(chunks), sd, side);
    }
  }

  /** One splitter is flushed. */
  lemma FlushFits(events: seq<Event>, id: FollowId, f: Follow, sd: Side)
    requires SentFit(events, id, f) && f.queue == [] && f.pc == (if sd == Stdout then Copying else FlushingOut)
    ensures var w := Fed(Frames(f, sd));
            SentFit(events, id, f.(pc := if sd == Stdout then FlushingOut else FlushingErr,
                                   queue := SideLines(sd, NewLines(w, Flushed(w)))))
  {
    hide Texts, SentLines, SentEnds, Fed, SideLines, NewLines;
    var w := Fed(Frames(f, sd));
    var g := f.(pc := if sd == Stdout then FlushingOut else FlushingErr, queue := SideLines(sd, NewLines(w, Flushed(w))));
    var sent := SentLines(events, id);
    assert sent + [] == sent;
    forall side ensures Texts(sent + g.queue, side) == Cut(g, side) {
      assert Texts(sent + f.queue, side) == Cut(f, side);
      QueuedNew(sent, w, Flushed(w), sd, side);
    }
  }

  lemma SentSnoc(events: seq<Event>, e: Event, id: FollowId)
    ensures SentLines(events + [e], id) == SentLines(events, id) + if e.LineEvent? && e.id == id then [e.line] else []
    ensures SentEnds(events + [e], id) == SentEnds(events, id) + if e.EndEvent? && e.id == id then 1 else 0
  {
    assert (events + [e])[..|events|] == events;
  }

  lemma OthersSent(events: seq<Event>, e: Event, id: FollowId, f: Follow)
    requires SentFit(events, id, f) && e.id != id
    ensures SentFit(events + [e], id, f)
  {
    hide Texts, SentLines, SentEnds, Cut;
    SentSnoc(events, e, id);
    assert SentLines(events, id) + [] == SentLines(events, id);
  }

  lemma SendFits(events: seq<Event>, id: FollowId, f: Follow)
    requires SentFit(events, id, f) && f.queue != []
    ensures SentFit(events + [LineEvent(id, f.queue[0])], id, f.(queue := f.queue[1..]))
  {
    hide Texts, SentLines, SentEnds;
    var e := LineEvent(id, f.queue[0]);
    SentSnoc(events, e, id);
    var g := f.(queue := f.queue[1..]);
    assert SentLines(events, id) + f.queue == SentLines(events + [e], id) + g.queue;
    forall side ensures Cut(g, side) == Cut(f, side) { }
  }

  lemma EndFits(events: seq<Event>, id: FollowId, f: Follow)
    requires SentFit(events, id, f) && f.pc.Ending?
    ensures SentFit(events + [EndEvent(id, f.pc.error)], id, f.(pc := Closing))
  {
    hide Texts, SentLines, SentEnds;
    SentSnoc(events, EndEvent(id, f.pc.error), id);
    assert SentLines(events, id) + [] == SentLines(events, id);
    forall side ensures Cut(f.(pc := Closing), side) == Cut(f, side) { }
  }

  /** Moves that neither read nor send. */
  lemma QuietFits(events: seq<Event>, id: FollowId, f: Follow, g: Follow)
    requires SentFit(events, id, f) && g.out == f.out && g.err == f.err && g.queue == f.queue
    requires Ended(g.pc) == Ended(f.pc) && (g.pc == Opening ==> f.pc == Opening)
    requires g.pc == f.pc || f.queue == []
    requires (forall side :: Flushing(g.pc, side) == Flushing(f.pc, side)) || (f.out == [] && f.err == [])
    ensures SentFit(events, id, g)
  {
    hide Texts, SentLines, SentEnds, Written;
    forall side ensures Cut(g, side) == Cut(f, side) {
      assert Frames(g, side) == Frames(f, side);
    }
  }

  predicate OthersKept(s: State, t: State, id: FollowId) {
    t.follows.Keys == s.follows.Keys + {id} && forall i | i in s.follows && i != id :: t.follows[i] == s.follows[i]
  }

  /** One follow moves and the events stay. */
  lemma OneMoved(s: State, t: State, id: FollowId)
    requires EventsInv(s) && t.events == s.events && OthersKept(s, t, id) && SentFit(t.events, id, t.follows[id])
    ensures EventsInv(t)
  {
    hide SentFit;
  }

  /** One follow moves and writes an event. */
  lemma OneSent(s: State, t: State, id: FollowId, e: Event)
    requires EventsInv(s) && t.events == s.events + [e] && e.id == id && OthersKept(s, t, id)
    requires SentFit(t.events, id, t.follows[id])
    ensures EventsInv(t)
  {
    hide SentFit;
    forall i | i in t.follows ensures SentFit(t.events, i, t.follows[i]) {
      if i != id {
        OthersSent(s.events, e, i, s.follows[i]);
      }
    }
  }

  lemma {:induction false} NothingSent(events: seq<Event>, id: FollowId)
    requires forall i | 0 <= i < |events| :: events[i].id != id
    ensures SentLines(events, id) == [] && SentEnds(events, id) == 0
  {
    if events != [] {
      NothingSent(events[..|events| - 1], id);
    }
  }

  lemma CancelKeepsEvents(s: State, c: ContainerId)
    requires EventsInv(s)
    ensures EventsInv(CancelListed(s, c))
  {
    hide SentFit;
    var t := CancelListed(s, c);
    if c in s.table && s.table[c] in s.follows {
      var id := s.table[c];
      QuietFits(s.events, id, s.follows[id], t.follows[id]);
      OneMoved(s, t, id);
    }
  }

  lemma StartKeepsEvents(s: State, id: FollowId, c: ContainerId, client: ClientId)
    requires EventsInv(s) && id !in s.follows
    ensures EventsInv(Next(s, Start(id, c, client)).value)
  {
    hide SentLines, SentEnds;
    CancelKeepsEvents(s, c);
    NothingSent(s.events, id);
    var u := CancelListed(s, c);
    var t := Next(s, Start(id, c, client)).value;
    OneMoved(u, t, id);
  }

  lemma AdvanceKeepsEvents(s: State, id: FollowId)
    requires EventsInv(s) && Next(s, Advance(id)).Some?
    ensures EventsInv(Next(s, Advance(id)).value)
  {
    hide SentFit, SideLines, NewLines, Flushed, Fed;
    var f := s.follows[id];
    var t := Next(s, Advance(id)).value;
    match f.pc
    case Copying => FlushFits(s.events, id, f, Stdout); OneMoved(s, t, id);
    case FlushingOut => FlushFits(s.events, id, f, Stderr); OneMoved(s, t, id);
    case Ending(e) => EndFits(s.events, id, f); OneSent(s, t, id, EndEvent(id, e));
    case FlushingErr => QuietFits(s.events, id, f, t.follows[id]); OneMoved(s, t, id);
    case Closing => QuietFits(s.events, id, f, t.follows[id]); OneMoved(s, t, id);
    case Removing => QuietFits(s.events, id, f, t.follows[id]); OneMoved(s, t, id);
    case Opening =>
    case Done =>
  }

  lemma EventsKept(s: State, step: Step)
    requires EventsInv(s) && Next(s, step).Some?
    ensures EventsInv(Next(s, step).value)
  {
    hide SentFit, TakeFrame, EventsInv;
    var t := Next(s, step).value;
    match step
    case Start(id, c, client) => StartKeepsEvents(s, id, c, client);
    case Stop(c) => CancelKeepsEvents(s, c);
    case Disconnect(client) => SameEvents(s, t);
    case Notice(id) => QuietStep(s, t, id);
    case Dismiss(id) => QuietStep(s, t, id);
    case Opened(id) => QuietStep(s, t, id);
    case OpenFails(id, e) => QuietStep(s, t, id);
    case Frame(id, side, data) => FrameKeepsEvents(s, id, side, data);
    case Send(id) => SendKeepsEvents(s, id);
    case Advance(id) => AdvanceKeepsEvents(s, id);
  }

  lemma SameEvents(s: State, t: State)
    requires EventsInv(s) && t.events == s.events && t.follows == s.follows
    ensures EventsInv(t)
  {
    hide SentFit;
  }

  lemma QuietStep(s: State, t: State, id: FollowId)
    requires EventsInv(s) && t.events == s.events && id in s.follows && OthersKept(s, t, id)
    requires var f, g := s.follows[id], t.follows[id];
             && g.out == f.out && g.err == f.err && g.queue == f.queue
             && (g.pc == f.pc || (f.pc == Opening && !Ended(g.pc)))
    ensures EventsInv(t)
  {
    hide SentLines, SentEnds, Texts, Cut;
    assert SentFit(s.events, id, s.follows[id]);
    QuietFits(s.events, id, s.follows[id], t.follows[id]);
    OneMoved(s, t, id);
  }

  lemma FrameKeepsEvents(s: State, id: FollowId, side: Side, data: string)
    requires EventsInv(s) && Next(s, Frame(id, side, data)).Some?
    ensures EventsInv(Next(s, Frame(id, side, data)).value)
  {
    hide SentFit, TakeFrame;
    FrameFits(s.events, id, s.follows[id], side, data);
    OneMoved(s, Next(s, Frame(id, side, data)).value, id);
  }

  lemma SendKeepsEvents(s: State, id: FollowId)
    requires EventsInv(s) && Next(s, Send(id)).Some?
    ensures EventsInv(Next(s, Send(id)).value)
  {
    hide SentFit;
    var f := s.follows[id];
    SendFits(s.events, id, f);
    OneSent(s, Next(s, Send(id)).value, id, LineEvent(id, f.queue[0]));
  }

  lemma {:induction false} EventsHold(steps: seq<Step>)
    requires Run(steps).Some?
    ensures EventsInv(Run(steps).value)
  {
    hide Next, SentFit;
    if steps != [] {
      EventsHold(steps[..|steps| - 1]);
      EventsKept(Run(steps[..|steps| - 1]).value, steps[|steps| - 1]);
    }
  }

  /** In every interleaving each follow that got to its end has written one end event, and no other follow has. */
  lemma OneEndEvent(steps: seq<Step>, id: FollowId)
    requires Run(steps).Some? && id in Run(steps).value.follows
    ensures var s := Run(steps).value; SentEnds(s.events, id) == if Ended(s.follows[id].pc) then 1 else 0
  {
    EventsHold(steps);
  }

  /** After its end event a follow writes nothing. */
  lemma EndIsLast(steps: seq<Step>, step: Step, id: FollowId)
    requires Run(steps).Some? && Run(steps + [step]).Some? && SentEnds(Run(steps).value.events, id) > 0
    ensures var s, t := Run(steps).value, Run(steps + [step]).value;
            t.events == s.events || (t.events == s.events + [Last(t.events)] && Last(t.events).id != id)
  {
    EventsHold(steps);
    var s := Run(steps).value;
    assert (steps + [step])[..|steps|] == steps;
    WhoSends(s, step);
    if id in s.follows {
      assert SentFit(s.events, id, s.follows[id]);
    } else {
      NothingSent(s.events, id);
    }
  }

  /** Every event of a step comes from the follow that the step moves, which is not at its end yet. */
  lemma WhoSends(s: State, step: Step)
    requires Next(s, step).Some?
    ensures var t := Next(s, step).value;
            || t.events == s.events
            || (t.events == s.events + [Last(t.events)] && Last(t.events).id in s.follows
                && (s.follows[Last(t.events).id].queue != [] || s.follows[Last(t.events).id].pc.Ending?))
  {
    hide TakeFrame, SideLines, NewLines;
  }

  // ---- against what Docker delivered ------------------------------------------------------------------

  /** The frames that a run has delivered for one output of a follow. */
  function Delivered(steps: seq<Step>, id: FollowId, side: Side): seq<string> {
    if steps == [] then []
    else
      var step := steps[|steps| - 1];
      Delivered(steps[..|steps| - 1], id, side) + if step.Frame? && step.id == id && step.side == side then [step.data] else []
  }

  /** The error with which Docker refused to open the logs of a follow, or none. */
  function Refusal(steps: seq<Step>, id: FollowId): string {
    if steps == [] then ""
    else
      var step := steps[|steps| - 1];
      if step.OpenFails? && step.id == id then step.error else Refusal(steps[..|steps| - 1], id)
  }

  /** Only a frame changes the frames read. */
  lemma FramesOf(s: State, step: Step, id: FollowId)
    requires Next(s, step).Some?
    ensures var t := Next(s, step).value;
            && (step.Frame? && step.id == id ==> id in s.follows)
            && (id in s.follows ==> id in t.follows)
            && (id in t.follows ==>
                  var g := t.follows[id];
                  if id !in s.follows then g.out == [] && g.err == []
                  else
                    var f := s.follows[id];
                    && g.out == f.out + (if step.Frame? && step.id == id && step.side == Stdout then [step.data] else [])
                    && g.err == f.err + (if step.Frame? && step.id == id && step.side == Stderr then [step.data] else []))
  {
    hide SideLines, NewLines, Fed, Flushed, Written;
    forall xs: seq<string> ensures xs + [] == xs { }
  }

  lemma {:induction false} FramesDelivered(steps: seq<Step>, id: FollowId, side: Side)
    requires Run(steps).Some?
    ensures Delivered(steps, id, side) == if id in Run(steps).value.follows then Frames(Run(steps).value.follows[id], side) else []
  {
    hide Next;
    if steps != [] {
      FramesDelivered(steps[..|steps| - 1], id, side);
      FramesOf(Run(steps[..|steps| - 1]).value, steps[|steps| - 1], id);
    }
  }

  /** A follow that ended has sent, for each of its two outputs, exactly the lines of what Docker delivered of it,
      whatever the frames it came in and whatever else was sent in between, if no run without a newline is too long. */
  lemma EndedFollowSentAllLines(steps: seq<Step>, id: FollowId, side: Side)
    requires Run(steps).Some? && id in Run(steps).value.follows && Ended(Run(steps).value.follows[id].pc)
    requires ShortRuns(Flatten(Delivered(steps, id, side)))
    ensures Texts(SentLines(Run(steps).value.events, id), side) == Lines(Flatten(Delivered(steps, id, side)))
  {
    hide Texts, SentLines, SentEnds, Next, Written, ShortRuns, Lines;
    EventsHold(steps);
    FramesDelivered(steps, id, side);
    var s := Run(steps).value;
    var f := s.follows[id];
    assert SentFit(s.events, id, f);
    assert SentLines(s.events, id) + f.queue == SentLines(s.events, id);
    ChunkingIrrelevant(Frames(f, side));
  }

  /** The end events of a follow carry its refusal, if it had one; it can only be refused at the start. */
  predicate RefusalFits(events: seq<Event>, id: FollowId, pc: Pc, refusal: string) {
    && (pc == Opening || pc == Copying || pc == FlushingOut || pc == FlushingErr ==> refusal == "")
    && (pc.Ending? ==> pc.error == refusal)
    && (forall k | 0 <= k < |events| && events[k].EndEvent? && events[k].id == id :: events[k].error == refusal && Ended(pc))
  }

  /** The step moves the goroutine of the follow. */
  predicate MovesOn(step: Step, id: FollowId) {
    (step.Opened? || step.OpenFails? || step.Advance?) && step.id == id
  }

  lemma OthersRefusal(s: State, step: Step, id: FollowId, refusal: string)
    requires Next(s, step).Some? && !MovesOn(step, id)
    requires id !in s.follows ==> forall k | 0 <= k < |s.events| :: s.events[k].id != id
    requires if id in s.follows then RefusalFits(s.events, id, s.follows[id].pc, refusal) else refusal == ""
    ensures var t := Next(s, step).value;
            if id in t.follows then RefusalFits(t.events, id, t.follows[id].pc, refusal) else refusal == ""
  {
    hide TakeFrame, SideLines, NewLines;
    if step.Frame? {
      TakeFrameFrame(s.follows[step.id], step.side, step.data);
    }
  }

  lemma OwnRefusal(s: State, step: Step, id: FollowId, refusal: string)
    requires Next(s, step).Some? && MovesOn(step, id)
    requires if id in s.follows then RefusalFits(s.events, id, s.follows[id].pc, refusal) else refusal == ""
    ensures var t := Next(s, step).value;
            id in t.follows && RefusalFits(t.events, id, t.follows[id].pc, if step.OpenFails? then step.error else refusal)
  {
    hide SideLines, NewLines;
  }

  lemma RefusalStep(s: State, step: Step, id: FollowId, refusal: string)
    requires EventsInv(s) && Next(s, step).Some?
    requires if id in s.follows then RefusalFits(s.events, id, s.follows[id].pc, refusal) else refusal == ""
    ensures var t := Next(s, step).value;
            var now := if step.OpenFails? && step.id == id then step.error else refusal;
            if id in t.follows then RefusalFits(t.events, id, t.follows[id].pc, now) else now == ""
  {
    hide Next, RefusalFits, SentFit;
    if MovesOn(step, id) {
      OwnRefusal(s, step, id, refusal);
    } else {
      OthersRefusal(s, step, id, refusal);
    }
  }

  lemma {:induction false} RefusalsFit(steps: seq<Step>, id: FollowId)
    requires Run(steps).Some?
    ensures var s, refusal := Run(steps).value, Refusal(steps, id);
            if id in s.follows then RefusalFits(s.events, id, s.follows[id].pc, refusal) else refusal == ""
  {
    hide Next, EventsInv, RefusalFits;
    if steps != [] {
      RefusalsFit(steps[..|steps| - 1], id);
      EventsHold(steps[..|steps| - 1]);
      RefusalStep(Run(steps[..|steps| - 1]).value, steps[|steps| - 1], id, Refusal(steps[..|steps| - 1], id));
    }
  }

  /** In every interleaving, a follow's end event carries the error with which its logs could not be opened, and none if
      they could. */
  lemma EndCarriesError(steps: seq<Step>, id: FollowId, k: nat)
    requires Run(steps).Some? && k < |Run(steps).value.events|
    requires Run(steps).value.events[k].EndEvent? && Run(steps).value.events[k].id == id
    ensures Run(steps).value.events[k].error == Refusal(steps, id)
  {
    hide Next;
    EventsHold(steps);
    RefusalsFit(steps, id);
  }

  // ---- what the short count costs ---------------------------------------------------------------------

  /** A write returns fewer bytes than it was given exactly when these held a newline: the count is the length of what
      follows the last one. */
  lemma ShortCountExactly(data: string, n: nat)
    requires n <= |data| && Lacks(data[|data| - n..], '\n') && (n < |data| ==> data[|data| - n - 1] == '\n')
    ensures n < |data| <==> !Lacks(data, '\n')
  {
    assert n == |data| ==> data[0..] == data;
  }

  predicate Unbroken(frames: seq<string>) {
    forall i | 0 <= i < |frames| :: Lacks(frames[i], '\n')
  }

  /** The rule that a copier stops at a short count, as a hypothesis on runs: a frame is copied only while no write of
      the follow has been short, that is while no frame of it held a newline. */
  predicate StopsOnShortWrite(steps: seq<Step>)
    requires Run(steps).Some?
  {
    steps == [] ||
    (var before, step := steps[..|steps| - 1], steps[|steps| - 1];
     StopsOnShortWrite(before)
     && (step.Frame? && step.id in Run(before).value.follows ==>
           var f := Run(before).value.follows[step.id]; Unbroken(f.out) && Unbroken(f.err)))
  }

  /** At most the last frame of a follow holds a newline. */
  predicate BrokenOnlyLast(f: Follow) {
    && (f.out != [] ==> Unbroken(f.out[..|f.out| - 1])) && (f.err != [] ==> Unbroken(f.err[..|f.err| - 1]))
    && (Unbroken(f.out) || Unbroken(f.err))
  }

  lemma StepBroken(s: State, step: Step)
    requires forall id | id in s.follows :: BrokenOnlyLast(s.follows[id])
    requires step.Frame? && step.id in s.follows ==> Unbroken(s.follows[step.id].out) && Unbroken(s.follows[step.id].err)
    requires Next(s, step).Some?
    ensures var t := Next(s, step).value; forall id | id in t.follows :: BrokenOnlyLast(t.follows[id])
  {
    hide SideLines, NewLines, BrokenOnlyLast;
    var t := Next(s, step).value;
    forall id | id in t.follows ensures BrokenOnlyLast(t.follows[id]) {
      FramesOf(s, step, id);
      if step.Frame? && step.id == id {
        OneMoreFrame(s.follows[id], t.follows[id]);
      } else if id in s.follows {
        SameFrames(s.follows[id], t.follows[id]);
      } else {
        NoFrames(t.follows[id]);
      }
    }
  }

  lemma OneMoreFrame(f: Follow, g: Follow)
    requires Unbroken(f.out) && Unbroken(f.err)
    requires (exists data :: g.out == f.out + [data] && g.err == f.err) || (exists data :: g.out == f.out && g.err == f.err + [data])
    ensures BrokenOnlyLast(g)
  {
    assert g.out != [] && g.out != f.out ==> g.out[..|g.out| - 1] == f.out;
    assert g.err != [] && g.err != f.err ==> g.err[..|g.err| - 1] == f.err;
  }

  lemma SameFrames(f: Follow, g: Follow)
    requires BrokenOnlyLast(f) && g.out == f.out && g.err == f.err
    ensures BrokenOnlyLast(g)
  {
  }

  lemma NoFrames(g: Follow)
    requires g.out == [] && g.err == []
    ensures BrokenOnlyLast(g)
  {
  }

  lemma {:induction false} RunBroken(steps: seq<Step>)
    requires Run(steps).Some? && StopsOnShortWrite(steps)
    ensures forall id | id in Run(steps).value.follows :: BrokenOnlyLast(Run(steps).value.follows[id])
  {
    hide Next, BrokenOnlyLast, Unbroken;
    if steps != [] {
      RunBroken(steps[..|steps| - 1]);
      StepBroken(Run(steps[..|steps| - 1]).value, steps[|steps| - 1]);
    }
  }

  lemma {:induction false} UnbrokenFlat(frames: seq<string>)
    requires Unbroken(frames)
    ensures Lacks(Flatten(frames), '\n')
  {
    if frames != [] {
      UnbrokenFlat(frames[..|frames| - 1]);
    }
  }

  /** With a copier that stops at a short count, a follow ends at its first frame that holds a newline: on each output only
      the last frame can hold one, on one output at most, and an ended follow has sent no more pieces of an output than
      that last frame has. */
  lemma StoppedAtFirstNewline(steps: seq<Step>, id: FollowId, side: Side)
    requires Run(steps).Some? && StopsOnShortWrite(steps) && id in Run(steps).value.follows
    ensures var f := Run(steps).value.follows[id];
            && BrokenOnlyLast(f)
            && (Frames(f, side) != [] ==> |SplitLines(Flatten(Frames(f, side)))| == |SplitLines(Last(Frames(f, side)))|)
  {
    hide Next, SplitLines, Run;
    RunBroken(steps);
    var frames := Frames(Run(steps).value.follows[id], side);
    if frames != [] {
      UnbrokenFlat(frames[..|frames| - 1]);
      SplitGrowsOpen(Flatten(frames[..|frames| - 1]), Last(frames));
    }
  }
}
