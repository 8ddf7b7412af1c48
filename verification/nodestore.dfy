/** The node table and the calls that change it one at a time (internal/server/store/sqlite.go,
    internal/server/api/nodes.go, internal/server/discovery/udp.go). */
module NodeStore {
  import opened GoLib
  import opened L = Lifecycle

  /** What an announcement says about a node. */
  datatype Info = Info(hostname: string, ip: string, port: int, os: string, arch: string, agentVersion: string, tls: bool)

  datatype Row = Row(info: Info, status: Status, firstSeen: string, lastSeen: string, token: string)

  /** The part of the table that the lifecycle is about. */
  function Life(rows: map<NodeId, Row>): (nodes: map<NodeId, Node>)
    ensures nodes.Keys == rows.Keys
  {
    map id | id in rows :: Node(rows[id].status, rows[id].token)
  }

  /** A reply: the announced id and info, and the host part of the packet's source when it has one. */
  datatype Reply = Reply(id: NodeId, info: Info, host: Option<string>)

  /** The stored address is pinned to the packet's source. */
  function Announced(r: Reply): Info {
    if r.host.Some? then r.info.(ip := r.host.value) else r.info
  }

  function AnnouncedRow(r: Reply, now: string): Row {
    Row(Announced(r), Pending, now, now, "")
  }

  class Store {
    var rows: map<NodeId, Row>

    constructor ()
      ensures rows == map[]
    {
      rows := map[];
    }

    /** On conflict the announced columns and last_seen are replaced; status, token and first_seen stay. */
    method UpsertNode(id: NodeId, row: Row)
      modifies this
      ensures rows == old(rows)[id := if id in old(rows) then old(rows)[id].(info := row.info, lastSeen := row.lastSeen) else row]
      ensures row.status == Pending ==> Life(rows) == Upsert(old(Life(rows)), id, row.token)
    {
      if id in rows {
        var was := rows[id];
        rows := rows[id := Row(row.info, was.status, was.firstSeen, row.lastSeen, was.token)];
      } else {
        rows := rows[id := row];
      }
    }

    method SetNodeToken(id: NodeId, token: string) returns (found: bool)
      modifies this
      ensures found <==> id in old(rows)
      ensures rows == if found then old(rows)[id := old(rows)[id].(token := token)] else old(rows)
      ensures Life(rows) == WithToken(old(Life(rows)), id, token)
    {
      if id !in rows {
        return false;
      }
      rows := rows[id := rows[id].(token := token)];
      return true;
    }

    /** Sets last_seen whatever the status. */
    method SetNodeStatus(id: NodeId, status: Status, now: string)
      modifies this
      ensures rows == if id in old(rows) then old(rows)[id := old(rows)[id].(status := status, lastSeen := now)] else old(rows)
      ensures Life(rows) == WithStatus(old(Life(rows)), id, status)
    {
      if id in rows {
        rows := rows[id := rows[id].(status := status, lastSeen := now)];
      }
    }

    method DeleteNode(id: NodeId) returns (found: bool)
      modifies this
      ensures found <==> id in old(rows)
      ensures rows == old(rows) - {id}
    {
      found := id in rows;
      rows := rows - {id};
    }

    method GetNode(id: NodeId) returns (row: Option<Row>)
      ensures row.Some? <==> id in rows
      ensures row.Some? ==> row.value == rows[id]
    {
      return if id in rows then Some(rows[id]) else None;
    }

    /** `UpsertReplies`; `works[k]` says whether the database takes reply `k`. The rows it returns are the announced
        ones, not the stored ones. */
    method UpsertReplies(replies: seq<Reply>, works: seq<bool>, now: string) returns (out: seq<(NodeId, Row)>)
      requires |works| == |replies|
      modifies this
      ensures AnnouncedInto(old(rows), rows, replies, works, now)
      ensures forall k | 0 <= k < |out| :: out[k].0 in Taken(replies, works) && out[k].1.status == Pending && out[k].1.token == ""
    {
      hide AnnouncedInto, LastTaken, Taken, Announced;
      AnnouncedNone(rows, now);
      out := [];
      for k := 0 to |replies|
        invariant AnnouncedInto(old(rows), rows, replies[..k], works[..k], now)
        invariant forall i | 0 <= i < |out| ::
          out[i].0 in Taken(replies[..k], works[..k]) && out[i].1.status == Pending && out[i].1.token == ""
      {
        var r := replies[k];
        var n := AnnouncedRow(r, now);
        ghost var before := rows;
        TakeNext(replies, works, k);
        if works[k] {
          UpsertNode(r.id, n);
          out := out + [(r.id, n)];
          AnnouncedNext(old(rows), before, rows, replies, works, now, k);
        } else {
          AnnouncedSkip(old(rows), before, replies, works, now, k);
        }
      }
      assert replies[..|replies|] == replies && works[..|replies|] == works;
    }
  }

  /** What a round of discovery does to the table: the announced nodes are added, pending and without token, unless
      they are known; known ones keep status, token and first_seen; each announced node carries its last reply. */
  predicate AnnouncedInto(before: map<NodeId, Row>, after: map<NodeId, Row>, replies: seq<Reply>, works: seq<bool>, now: string)
    requires |works| == |replies|
  {
    && after.Keys == before.Keys + Taken(replies, works)
    && (forall id | id in before :: SameLife(before[id], after[id]))
    && (forall id | id in after && id !in before ::
          after[id].status == Pending && after[id].token == "" && after[id].firstSeen == now)
    && (forall id | id in after ::
          if id in Taken(replies, works) then Pinned(after[id].info, LastTaken(replies, works, id)) && after[id].lastSeen == now
          else after[id] == before[id])
  }

  /** The reply's info, except that the address is the host the packet came from, when it has one. */
  predicate Pinned(i: Info, r: Reply) {
    && i.ip == (match r.host case Some(h) => h case None => r.info.ip)
    && i.hostname == r.info.hostname && i.port == r.info.port && i.os == r.info.os && i.arch == r.info.arch
    && i.agentVersion == r.info.agentVersion && i.tls == r.info.tls
  }

  predicate SameLife(a: Row, b: Row) {
    a.status == b.status && a.token == b.token && a.firstSeen == b.firstSeen
  }

  lemma AnnouncedNone(rows: map<NodeId, Row>, now: string)
    ensures AnnouncedInto(rows, rows, [], [], now) && Taken([], []) == {}
  {
  }

  lemma AnnouncedSkip(before: map<NodeId, Row>, rows: map<NodeId, Row>, replies: seq<Reply>, works: seq<bool>, now: string, k: nat)
    requires |works| == |replies| && k < |replies| && !works[k]
    requires AnnouncedInto(before, rows, replies[..k], works[..k], now)
    ensures AnnouncedInto(before, rows, replies[..k + 1], works[..k + 1], now)
  {
    hide LastTaken, Taken, Announced;
    TakeNext(replies, works, k);
  }

  lemma AnnouncedPinned(r: Reply)
    ensures Pinned(Announced(r), r)
  {
  }

  lemma AnnouncedNext(before: map<NodeId, Row>, rows: map<NodeId, Row>, after: map<NodeId, Row>,
                      replies: seq<Reply>, works: seq<bool>, now: string, k: nat)
    requires |works| == |replies| && k < |replies| && works[k]
    requires AnnouncedInto(before, rows, replies[..k], works[..k], now)
    requires var id, n := replies[k].id, AnnouncedRow(replies[k], now);
             after == rows[id := if id in rows then rows[id].(info := n.info, lastSeen := now) else n]
    ensures AnnouncedInto(before, after, replies[..k + 1], works[..k + 1], now)
  {
    hide LastTaken, Taken, Announced, Pinned;
    TakeNext(replies, works, k);
    AnnouncedPinned(replies[k]);
    var id := replies[k].id;
    assert LastTaken(replies[..k + 1], works[..k + 1], id) == replies[k];
    assert Pinned(after[id].info, replies[k]) && after[id].lastSeen == now;
    assert forall x | x in after && x != id :: x in rows && after[x] == rows[x];
  }

  /** The ids of the replies that the database took. */
  function Taken(replies: seq<Reply>, works: seq<bool>): set<NodeId>
    requires |works| == |replies|
  {
    set k | 0 <= k < |replies| && works[k] :: replies[k].id
  }

  /** The last such reply for an id. */
  function LastTaken(replies: seq<Reply>, works: seq<bool>, id: NodeId): Reply
    requires |works| == |replies| && id in Taken(replies, works)
  {
    var n := |replies| - 1;
    if works[n] && replies[n].id == id then replies[n]
    else
      assert id in Taken(replies[..n], works[..n]) by {
        var k :| 0 <= k < |replies| && works[k] && replies[k].id == id;
        assert replies[..n][k] == replies[k] && works[..n][k];
      }
      LastTaken(replies[..n], works[..n], id)
  }

  lemma TakeNext(replies: seq<Reply>, works: seq<bool>, k: nat)
    requires |works| == |replies| && k < |replies|
    ensures Taken(replies[..k + 1], works[..k + 1]) == Taken(replies[..k], works[..k]) + if works[k] then {replies[k].id} else {}
    ensures forall id | id in Taken(replies[..k + 1], works[..k + 1]) ::
              if works[k] && replies[k].id == id then LastTaken(replies[..k + 1], works[..k + 1], id) == replies[k]
              else id in Taken(replies[..k], works[..k])
                   && LastTaken(replies[..k + 1], works[..k + 1], id) == LastTaken(replies[..k], works[..k], id)
  {
    var a, b := replies[..k + 1], works[..k + 1];
    assert a[..k] == replies[..k] && b[..k] == works[..k];
    forall id ensures id in Taken(a, b) <==> id in Taken(replies[..k], works[..k]) || (works[k] && id == replies[k].id) {
      if id in Taken(replies[..k], works[..k]) {
        var i :| 0 <= i < k && works[..k][i] && replies[..k][i].id == id;
        assert b[i] && a[i].id == id;
      }
      if id in Taken(a, b) {
        var i :| 0 <= i < k + 1 && b[i] && a[i].id == id;
        assert i < k ==> works[..k][i] && replies[..k][i].id == id;
      }
      if works[k] && id == replies[k].id {
        assert b[k] && a[k].id == id;
      }
    }
  }

  datatype Answer = OK | NotFound | BadRequest

  /** What an undisturbed Approve leaves of a node: its token, or else the pairing token. */
  function ApprovedToken(token: string, pairToken: string): string {
    if token == "" then pairToken else token
  }

  /** The handler `Approve`, undisturbed and with a working database. */
  method Approve(store: Store, id: NodeId, pairToken: string, now: string) returns (answer: Answer)
    modifies store
    ensures answer == NotFound <==> id !in old(store.rows)
    ensures answer == BadRequest <==> id in old(store.rows) && ApprovedToken(old(store.rows)[id].token, pairToken) == ""
    ensures store.rows ==
            if answer != OK then old(store.rows)
            else
              var was := old(store.rows)[id];
              old(store.rows)[id := was.(status := Approved, lastSeen := now, token := ApprovedToken(was.token, pairToken))]
  {
    var n := store.GetNode(id);
    if n.None? {
      return NotFound;
    }
    if n.value.token == "" {
      if pairToken != "" {
        var found := store.SetNodeToken(id, pairToken);
      } else {
        return BadRequest;
      }
    }
    store.SetNodeStatus(id, L.Approved, now);
    return OK;
  }

  /** The handler's steps in the lifecycle, taken in a row, come to the same. */
  lemma ApproveInARow(s: L.State, pairToken: string, h: HandlerId, n: NodeId)
    requires n in s.nodes && h !in s.approvals
    ensures var first := L.Next(s, pairToken, L.Approve(h, n));
            var token := ApprovedToken(s.nodes[n].token, pairToken);
            && (first == None <==> token == "")
            && (first.Some? ==>
                  var ready := if s.nodes[n].token == "" then L.Next(first.value, pairToken, L.AssignToken(h)) else first;
                  && ready.Some?
                  && L.Next(ready.value, pairToken, L.SetStatus(h)) == Some(s.(nodes := s.nodes[n := Node(L.Approved, token)])))
  {
    if s.nodes[n].token != "" {
      assert L.Next(s, pairToken, L.Approve(h, n)) == Some(s.(approvals := s.approvals[h := L.SettingStatus(n)]));
      StatusInARow(s, pairToken, h, n);
    } else if pairToken != "" {
      assert L.Next(s, pairToken, L.Approve(h, n)) == Some(s.(approvals := s.approvals[h := L.AssigningToken(n)]));
      AssignInARow(s, pairToken, h, n);
      var t := s.(nodes := s.nodes[n := s.nodes[n].(token := pairToken)]);
      StatusInARow(t, pairToken, h, n);
      assert t.nodes[n := Node(L.Approved, pairToken)] == s.nodes[n := Node(L.Approved, pairToken)];
    }
  }

  lemma AssignInARow(s: L.State, pairToken: string, h: HandlerId, n: NodeId)
    requires n in s.nodes && h !in s.approvals
    ensures L.Next(s.(approvals := s.approvals[h := L.AssigningToken(n)]), pairToken, L.AssignToken(h)) ==
            Some(s.(nodes := s.nodes[n := s.nodes[n].(token := pairToken)], approvals := s.approvals[h := L.SettingStatus(n)]))
  {
    assert s.approvals[h := L.AssigningToken(n)][h := L.SettingStatus(n)] == s.approvals[h := L.SettingStatus(n)];
  }

  lemma StatusInARow(s: L.State, pairToken: string, h: HandlerId, n: NodeId)
    requires n in s.nodes && h !in s.approvals
    ensures L.Next(s.(approvals := s.approvals[h := L.SettingStatus(n)]), pairToken, L.SetStatus(h)) ==
            Some(s.(nodes := s.nodes[n := s.nodes[n].(status := L.Approved)]))
  {
    assert s.approvals[h := L.SettingStatus(n)] - {h} == s.approvals;
  }
}
