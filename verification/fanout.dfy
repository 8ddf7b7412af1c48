/** Fan-out of a connection's envelopes to its subscribers, and the request that waits among them
    (internal/server/nodemanager/manager.go: Subscribe, Unsubscribe, broadcast, Request;
    internal/protocol/messages.go: WaitForID). */
module Fanout {
  import opened GoLib

  type ChanId = nat

  datatype Envelope = Envelope(id: string, body: string)

  /** A buffered channel: the envelopes queued in it, oldest first. */
  datatype Channel = Channel(queue: seq<Envelope>, capacity: nat)

  /** `select { case ch <- e: default: }` on a buffered channel nobody is waiting at. */
  function Offered(ch: Channel, e: Envelope): Channel {
    if |ch.queue| < ch.capacity then ch.(queue := ch.queue + [e]) else ch
  }

  /** The subscribed channels of a connection; the channels themselves belong to their subscribers. */
  datatype State = State(subs: set<ChanId>, chans: map<ChanId, Channel>)

  /** What `broadcast` does to every channel. */
  function Sent(s: State, e: Envelope): map<ChanId, Channel> {
    map c | c in s.chans :: if c in s.subs then Offered(s.chans[c], e) else s.chans[c]
  }

  class Conn {
    var subs: set<ChanId>
    var chans: map<ChanId, Channel>

    predicate Valid()
      reads this
    {
      subs <= chans.Keys
    }

    function Now(): State
      reads this
    {
      State(subs, chans)
    }

    constructor ()
      ensures Valid() && Now() == State({}, map[])
    {
      subs, chans := {}, map[];
    }

    /** The subscriber has made its channel before. */
    method Subscribe(ch: ChanId)
      requires Valid() && ch in chans
      modifies this
      ensures Valid() && Now() == State(old(subs) + {ch}, old(chans))
    {
      subs := subs + {ch};
    }

    method Unsubscribe(ch: ChanId)
      requires Valid()
      modifies this
      ensures Valid() && Now() == State(old(subs) - {ch}, old(chans))
    {
      subs := subs - {ch};
    }

    /** In whatever order the map is walked, every subscriber with room gets the envelope and no other channel does. */
    method Broadcast(e: Envelope)
      requires Valid()
      modifies this
      ensures Valid() && subs == old(subs) && chans == Sent(old(Now()), e)
    {
      var left := subs;
      while left != {}
        invariant left <= subs == old(subs) && Valid() && chans.Keys == old(chans).Keys
        invariant forall c | c in chans :: chans[c] == if c in subs - left then Offered(old(chans)[c], e) else old(chans)[c]
        decreases |left|
      {
        var ch :| ch in left;
        chans := chans[ch := Offered(chans[ch], e)];
        left := left - {ch};
      }
    }
  }

  // ---- runs ---------------------------------------------------------------------------------------

  datatype Step =
    | Make(ch: ChanId, capacity: nat)
    | Subscribe(ch: ChanId)
    | Unsubscribe(ch: ChanId)
    | Broadcast(e: Envelope)
    | Receive(ch: ChanId)

  function Next(s: State, step: Step): Option<State> {
    match step
    case Make(ch, capacity) => if ch in s.chans then None else Some(s.(chans := s.chans[ch := Channel([], capacity)]))
    case Subscribe(ch) => if ch in s.chans then Some(s.(subs := s.subs + {ch})) else None
    case Unsubscribe(ch) => Some(s.(subs := s.subs - {ch}))
    case Broadcast(e) => Some(s.(chans := Sent(s, e)))
    case Receive(ch) =>
      if ch in s.chans && s.chans[ch].queue != [] then
        Some(s.(chans := s.chans[ch := s.chans[ch].(queue := s.chans[ch].queue[1..])]))
      else None
  }

  const START := State({}, map[])

  function Run(steps: seq<Step>): Option<State> {
    if steps == [] then Some(START)
    else match Run(steps[..|steps| - 1])
      case Some(s) => Next(s, steps[|steps| - 1])
      case None => None
  }

  function Init(steps: seq<Step>): seq<Step>
    requires steps != []
  {
    steps[..|steps| - 1]
  }

  /** What was broadcast while the channel was subscribed. */
  function Broadcasts(steps: seq<Step>, ch: ChanId): seq<Envelope>
    requires Run(steps).Some?
  {
    if steps == [] then []
    else
      var step := steps[|steps| - 1];
      Broadcasts(Init(steps), ch) + if step.Broadcast? && ch in Run(Init(steps)).value.subs then [step.e] else []
  }

  /** What its subscriber has taken out of the channel. */
  function Received(steps: seq<Step>, ch: ChanId): seq<Envelope>
    requires Run(steps).Some?
  {
    if steps == [] then []
    else
      var step := steps[|steps| - 1];
      Received(Init(steps), ch) +
      if step.Receive? && step.ch == ch then [Run(Init(steps)).value.chans[ch].queue[0]] else []
  }

  function Queued(s: State, ch: ChanId): seq<Envelope> {
    if ch in s.chans then s.chans[ch].queue else []
  }

  predicate Full(s: State, ch: ChanId) {
    ch in s.chans && |s.chans[ch].queue| >= s.chans[ch].capacity
  }

  /** The channel had room at every broadcast it was subscribed to. */
  predicate AlwaysRoom(steps: seq<Step>, ch: ChanId)
    requires Run(steps).Some?
  {
    steps == [] ||
    (var s := Run(Init(steps)).value;
     AlwaysRoom(Init(steps), ch) && (steps[|steps| - 1].Broadcast? && ch in s.subs ==> !Full(s, ch)))
  }

  /** `a` is `b` with some elements left out. */
  predicate Subsequence<T(==)>(a: seq<T>, b: seq<T>) {
    if a == [] then true
    else if b == [] then false
    else if a[|a| - 1] == b[|b| - 1] && Subsequence(a[..|a| - 1], b[..|b| - 1]) then true
    else Subsequence(a, b[..|b| - 1])
  }

  lemma SubsequenceKeep<T>(a: seq<T>, b: seq<T>, x: T)
    requires Subsequence(a, b)
    ensures Subsequence(a + [x], b + [x]) && Subsequence(a, b + [x])
  {
    assert (a + [x])[..|a|] == a && (b + [x])[..|b|] == b;
  }

  lemma {:induction false} SubsequenceLength<T>(a: seq<T>, b: seq<T>)
    requires Subsequence(a, b)
    ensures |a| <= |b| && (|a| == |b| ==> a == b)
  {
    if a != [] {
      var c, d := a[..|a| - 1], b[..|b| - 1];
      if a[|a| - 1] == b[|b| - 1] && Subsequence(c, d) {
        SubsequenceLength(c, d);
        assert a == c + [a[|a| - 1]] && b == d + [b[|b| - 1]];
      } else {
        SubsequenceLength(a, d);
      }
    }
  }

  /** Only made channels are subscribed. */
  lemma {:induction false} SubsMade(steps: seq<Step>)
    requires Run(steps).Some?
    ensures Run(steps).value.subs <= Run(steps).value.chans.Keys
  {
    if steps != [] {
      SubsMade(Init(steps));
    }
  }

  /** What one step adds to the envelopes received and queued, taken together. */
  lemma DeliveredStep(steps: seq<Step>, ch: ChanId)
    requires steps != [] && Run(steps).Some?
    ensures var s, t, step := Run(Init(steps)).value, Run(steps).value, steps[|steps| - 1];
            Received(steps, ch) + Queued(t, ch) ==
            Received(Init(steps), ch) + Queued(s, ch) + if step.Broadcast? && ch in s.subs && !Full(s, ch) then [step.e] else []
  {
    hide Received;
    SubsMade(Init(steps));
    var s, t, step := Run(Init(steps)).value, Run(steps).value, steps[|steps| - 1];
    var got := Received(Init(steps), ch);
    ReceivedStep(steps, ch);
    match step
    case Broadcast(e) => assert got + (Queued(s, ch) + [e]) == got + Queued(s, ch) + [e];
    case Receive(c) =>
      if c == ch {
        assert Queued(s, ch) == [Queued(s, ch)[0]] + Queued(t, ch);
      }
    case _ =>
  }

  lemma ReceivedStep(steps: seq<Step>, ch: ChanId)
    requires steps != [] && Run(steps).Some?
    ensures var step := steps[|steps| - 1];
            Received(steps, ch) == Received(Init(steps), ch) +
            if step.Receive? && step.ch == ch then [Queued(Run(Init(steps)).value, ch)[0]] else []
  {
  }

  /** Under any interleaving a subscriber receives, in order, envelopes that were broadcast while it was subscribed,
      and all of them exactly when its buffer was never full at one of those broadcasts. */
  lemma {:induction false} DeliveredInOrder(steps: seq<Step>, ch: ChanId)
    requires Run(steps).Some?
    ensures var got := Received(steps, ch) + Queued(Run(steps).value, ch);
            && Subsequence(got, Broadcasts(steps, ch))
            && (got == Broadcasts(steps, ch) <==> AlwaysRoom(steps, ch))
  {
    hide Next, Received, Queued, Full;
    if steps == [] {
      NothingYet(ch);
    } else {
      DeliveredInOrder(Init(steps), ch);
      DeliveredStep(steps, ch);
      var s, step := Run(Init(steps)).value, steps[|steps| - 1];
      var got := Received(Init(steps), ch) + Queued(s, ch);
      SubsequenceLength(got, Broadcasts(Init(steps), ch));
      if step.Broadcast? && ch in s.subs {
        SubsequenceKeep(got, Broadcasts(Init(steps), ch), step.e);
        SnocEqual(got, Broadcasts(Init(steps), ch), step.e);
      }
      assert got + [] == got && Broadcasts(Init(steps), ch) + [] == Broadcasts(Init(steps), ch);
    }
  }

  lemma SnocEqual<T>(a: seq<T>, b: seq<T>, x: T)
    ensures a + [x] == b + [x] <==> a == b
  {
    assert (a + [x])[..|a|] == a && (b + [x])[..|b|] == b;
  }

  lemma NothingYet(ch: ChanId)
    ensures Received([], ch) == [] && Queued(START, ch) == []
  {
  }

  // ---- requests -----------------------------------------------------------------------------------

  /** The first envelope with an id. */
  function FirstWith(es: seq<Envelope>, id: string): Option<Envelope> {
    if es == [] then None else if es[0].id == id then Some(es[0]) else FirstWith(es[1..], id)
  }

  /** `WaitForID` on a channel that yields `arrivals`; `cut` of them are taken before the timer or a closed channel
      ends the wait. */
  method WaitForID(arrivals: seq<Envelope>, id: string, cut: nat) returns (resp: Option<Envelope>)
    requires cut <= |arrivals|
    ensures resp == FirstWith(arrivals[..cut], id)
  {
    var i := 0;
    while i < cut
      invariant 0 <= i <= cut
      invariant FirstWith(arrivals[..cut], id) == FirstWith(arrivals[i..cut], id)
    {
      var e := arrivals[i];
      if e.id == id {
        return Some(e);
      }
      assert arrivals[i..cut][1..] == arrivals[i + 1..cut];
      i := i + 1;
    }
    return None;
  }

  lemma {:induction false} FirstWithIs(es: seq<Envelope>, e: Envelope)
    requires forall i | 0 <= i < |es| && es[i].id == e.id :: es[i] == e
    ensures FirstWith(es, e.id) == if e in es then Some(e) else None
  {
    if es != [] {
      FirstWithIs(es[1..], e);
      assert es == [es[0]] + es[1..];
    }
  }

  lemma {:induction false} SubsequenceElements<T>(a: seq<T>, b: seq<T>)
    requires Subsequence(a, b)
    ensures forall x | x in a :: x in b
  {
    if a != [] {
      var d := b[..|b| - 1];
      assert b == d + [b[|b| - 1]];
      if a[|a| - 1] == b[|b| - 1] && Subsequence(a[..|a| - 1], d) {
        SubsequenceElements(a[..|a| - 1], d);
        assert a == a[..|a| - 1] + [a[|a| - 1]];
      } else {
        SubsequenceElements(a, d);
      }
    }
  }

  const REQUEST_CAPACITY: nat := 8

  /** A Request after `before`: its channel is made and subscribed, the request is written, and `after` is what
      happens while it waits. */
  function Asking(before: seq<Step>, ch: ChanId, after: seq<Step>): seq<Step> {
    before + [Make(ch, REQUEST_CAPACITY), Subscribe(ch)] + after
  }

  /** The channel stays subscribed, and is the one that was made, as long as the request waits. */
  lemma {:induction false} StillSubscribed(before: seq<Step>, ch: ChanId, after: seq<Step>)
    requires Run(Asking(before, ch, after)).Some? && Unsubscribe(ch) !in after
    ensures var s := Run(Asking(before, ch, after)).value;
            ch in s.subs && ch in s.chans && s.chans[ch].capacity == REQUEST_CAPACITY
    decreases |after|
  {
    var steps := Asking(before, ch, after);
    if after == [] {
      var made := before + [Make(ch, REQUEST_CAPACITY)];
      assert Init(steps) == made && Init(made) == before;
    } else {
      assert Init(steps) == Asking(before, ch, after[..|after| - 1]);
      assert Unsubscribe(ch) !in after[..|after| - 1];
      StillSubscribed(before, ch, after[..|after| - 1]);
      assert steps[|steps| - 1] == after[|after| - 1] && after[|after| - 1] in after;
    }
  }

  /** The response `e` is broadcast at place `k` and is the only envelope with its id; the request's channel stays
      subscribed until then. */
  predicate AnsweredAt(steps: seq<Step>, ch: ChanId, k: nat, e: Envelope)
    requires Run(steps).Some? && k < |steps|
  {
    && steps[k] == Broadcast(e)
    && Run(steps[..k]).Some? && ch in Run(steps[..k]).value.subs
    && (forall i | 0 <= i < |steps| && i != k && steps[i].Broadcast? :: steps[i].e.id != e.id)
  }

  lemma {:induction false} RunPrefix(steps: seq<Step>, k: nat)
    requires Run(steps).Some? && k <= |steps|
    ensures Run(steps[..k]).Some?
  {
    hide Next;
    if k < |steps| {
      RunPrefix(Init(steps), k);
      assert Init(steps)[..k] == steps[..k];
    } else {
      assert steps[..k] == steps;
    }
  }

  /** The response is delivered exactly when it found room. */
  lemma {:induction false} ResponseDelivered(steps: seq<Step>, ch: ChanId, k: nat, e: Envelope)
    requires Run(steps).Some? && k < |steps| && AnsweredAt(steps, ch, k, e)
    ensures e in Received(steps, ch) + Queued(Run(steps).value, ch) <==> !Full(Run(steps[..k]).value, ch)
    decreases |steps|
  {
    hide Next, Received, Queued, Full;
    DeliveredStep(steps, ch);
    var n := |steps| - 1;
    if k == n {
      assert steps[..k] == Init(steps);
      DeliveredInOrder(Init(steps), ch);
      BroadcastsFrom(Init(steps), ch, e);
      SubsequenceElements(Received(Init(steps), ch) + Queued(Run(Init(steps)).value, ch), Broadcasts(Init(steps), ch));
    } else {
      assert Init(steps)[..k] == steps[..k];
      ResponseDelivered(Init(steps), ch, k, e);
      assert steps[n].Broadcast? ==> steps[n].e.id != e.id;
    }
  }

  /** An envelope nobody broadcast is not among the broadcasts. */
  lemma {:induction false} BroadcastsFrom(steps: seq<Step>, ch: ChanId, e: Envelope)
    requires Run(steps).Some? && forall i | 0 <= i < |steps| && steps[i].Broadcast? :: steps[i].e.id != e.id
    ensures forall x | x in Broadcasts(steps, ch) :: x.id != e.id
  {
    hide Next;
    if steps != [] {
      BroadcastsFrom(Init(steps), ch, e);
      assert steps[|steps| - 1].Broadcast? ==> steps[|steps| - 1].e.id != e.id;
    }
  }

  lemma {:induction false} OnlyAnswer(steps: seq<Step>, ch: ChanId, e: Envelope)
    requires Run(steps).Some? && forall i | 0 <= i < |steps| && steps[i].Broadcast? && steps[i].e.id == e.id :: steps[i].e == e
    ensures forall x | x in Broadcasts(steps, ch) && x.id == e.id :: x == e
  {
    hide Next;
    if steps != [] {
      OnlyAnswer(Init(steps), ch, e);
      assert steps[|steps| - 1].Broadcast? && steps[|steps| - 1].e.id == e.id ==> steps[|steps| - 1].e == e;
    }
  }

  /** While a Request waits, with its response the only envelope of that id: a wait that takes everything delivered to
      it finds the response exactly when the response arrived with fewer than eight unread envelopes queued,
      whatever else is broadcast, received, subscribed and unsubscribed. */
  lemma RequestAnsweredExactly(before: seq<Step>, ch: ChanId, after: seq<Step>, k: nat, e: Envelope)
    requires Run(Asking(before, ch, after)).Some? && Unsubscribe(ch) !in after
    requires k < |after| && after[k] == Broadcast(e)
    requires forall i | 0 <= i < |Asking(before, ch, after)| && i != |before| + 2 + k && Asking(before, ch, after)[i].Broadcast? ::
               Asking(before, ch, after)[i].e.id != e.id
    ensures var steps := Asking(before, ch, after);
            && Run(Asking(before, ch, after[..k])).Some?
            && FirstWith(Received(steps, ch) + Queued(Run(steps).value, ch), e.id) ==
               if |Queued(Run(Asking(before, ch, after[..k])).value, ch)| < 8 then Some(e) else None
  {
    hide Run, Received;
    var steps, at := Asking(before, ch, after), |before| + 2 + k;
    assert steps[..at] == Asking(before, ch, after[..k]) && steps[at] == Broadcast(e);
    RunPrefix(steps, at);
    assert Unsubscribe(ch) !in after[..k];
    StillSubscribed(before, ch, after[..k]);
    var got := Received(steps, ch) + Queued(Run(steps).value, ch);
    ResponseDelivered(steps, ch, at, e);
    DeliveredInOrder(steps, ch);
    SubsequenceElements(got, Broadcasts(steps, ch));
    OnlyAnswer(steps, ch, e);
    FirstWithIs(got, e);
  }
}
