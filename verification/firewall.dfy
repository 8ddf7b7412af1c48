/** The firewall API over kernel and file state (nftfw.go: Call and the operations behind it). */
module Firewall {
  import opened GoLib
  import opened Rules
  import K = Kernel
  import opened Emit
  import D = Decode
  import B = BootConf
  import L = LoadConf
  import X = Conflict

  // ---- requests and replies -----------------------------------------------------------------

  /** `RuleAddReq` as unmarshalled from the request payload. */
  datatype RuleAddReq = RuleAddReq(protocol: string, port: int, action: string, from: string, iface: string)

  /** One rule on the wire. */
  datatype WireRule = WireRule(number: nat, to: string, action: string, from: string, direction: string, iface: string)

  datatype Status = Status(enabled: bool, defaultIn: string, defaultOut: string, rules: seq<WireRule>)

  datatype Reply = StatusReply(status: Status) | Done | Failed(message: string)

  const BAD_RULE := "protocol (tcp|udp|both), port (1-65535) and action (allow|deny|reject) required"
  const BAD_FROM := "invalid 'from' address"
  const BAD_IFACE := "invalid 'interface' name"
  const BAD_NUMBER := "number required"
  const OUT_OF_RANGE := "rule number out of range"
  const TOGGLE_DISABLED := "toggle disabled by config"
  const UNAVAILABLE := "firewall unavailable"
  const CONFLICT := "cannot manage firewall: existing rules would shadow gopit"
  const UNREADABLE := "boot config unreadable"

  function ProtoNamed(s: string): Option<Proto> {
    if s == "tcp" then Some(Tcp) else if s == "udp" then Some(Udp) else if s == "both" then Some(Both) else None
  }

  function ActionNamed(s: string): Option<Action> {
    if s == "allow" then Some(Allow) else if s == "deny" then Some(Deny) else if s == "reject" then Some(Reject) else None
  }

  function TrimmedFrom(lib: Lib, from: string): string {
    var f := lib.trimSpace(from);
    if f == "any" || f == "Anywhere" then "" else f
  }

  /** The rule a request stands for, or why `Call`, `addRule` and `previewAdd` refuse it. */
  function RequestedRule(lib: Lib, req: RuleAddReq): (res: Result<LRule>)
    ensures res.Ok? ==> ValidRule(lib, res.value)
  {
    var proto, action := ProtoNamed(req.protocol), ActionNamed(req.action);
    var from, iface := TrimmedFrom(lib, req.from), lib.trimSpace(req.iface);
    if !(1 <= req.port <= 65535) || proto.None? || action.None? then Err(BAD_RULE)
    else if from != "" && lib.parseIP(from).None? then Err(BAD_FROM)
    else if !InterfaceAccepted(iface) then Err(BAD_IFACE)
    else Ok(LRule(proto.value, req.port, action.value, from, iface))
  }

  function ActionUpper(a: Action): string {
    match a
    case Allow => "ALLOW"
    case Deny => "DENY"
    case Reject => "REJECT"
  }

  function PortDisplay(p: Proto, port: nat): string {
    match p
    case Both => Itoa(port)
    case Tcp => Itoa(port) + "/tcp"
    case Udp => Itoa(port) + "/udp"
  }

  function RenderOne(r: LRule, i: nat): WireRule {
    WireRule(i + 1, PortDisplay(r.proto, r.port), ActionUpper(r.action),
             if r.from == "" then "Anywhere" else r.from, "IN", r.iface)
  }

  /** The status shown for a logical state. */
  function Rendered(enabled: bool, rs: seq<LRule>): (st: Status)
    ensures |st.rules| == |rs| && forall i | 0 <= i < |rs| :: st.rules[i] == RenderOne(rs[i], i)
  {
    Status(enabled, if enabled then "deny" else "allow", "allow", seq(|rs|, i requires 0 <= i < |rs| => RenderOne(rs[i], i)))
  }

  /** A shown rule in the words of the wire. */
  predicate Spelled(w: WireRule, r: LRule, i: nat) {
    && w.number == i + 1 && w.direction == "IN" && w.iface == r.iface
    && w.to == Itoa(r.port) + (match r.proto case Tcp => "/tcp" case Udp => "/udp" case Both => "")
    && w.action == (match r.action case Allow => "ALLOW" case Deny => "DENY" case Reject => "REJECT")
    && w.from == (if r.from == "" then "Anywhere" else r.from)
  }

  /** `render`. */
  method Render(enabled: bool, rs: seq<LRule>) returns (st: Status)
    ensures st == Rendered(enabled, rs)
    ensures st.enabled == enabled && st.defaultIn == (if enabled then "deny" else "allow") && st.defaultOut == "allow"
    ensures |st.rules| == |rs| && forall i | 0 <= i < |rs| :: Spelled(st.rules[i], rs[i], i)
  {
    var defaultIn := "allow";
    if enabled {
      defaultIn := "deny";
    }
    var wire: seq<WireRule> := [];
    for i := 0 to |rs|
      invariant |wire| == i && forall j | 0 <= j < i :: wire[j] == RenderOne(rs[j], j)
    {
      var from := rs[i].from;
      if from == "" {
        from := "Anywhere";
      }
      wire := wire + [WireRule(i + 1, PortDisplay(rs[i].proto, rs[i].port), ActionUpper(rs[i].action), from, "IN", rs[i].iface)];
    }
    st := Status(enabled, defaultIn, "allow", wire);
    forall j | 0 <= j < |rs| ensures Spelled(wire[j], rs[j], j) {
      OneSpelled(rs[j], j);
    }
  }

  lemma OneSpelled(r: LRule, i: nat)
    ensures Spelled(RenderOne(r, i), r, i)
  {
    assert Itoa(r.port) + "" == Itoa(r.port);
  }

  /** The protocol and port shown are those of one rule only. */
  lemma PortDisplaySame(p: Proto, a: nat, q: Proto, b: nat)
    requires a <= 65535 && b <= 65535 && PortDisplay(p, a) == PortDisplay(q, b)
    ensures p == q && a == b
  {
    DisplayEnd(p, a);
    DisplayEnd(q, b);
    L.ItoaInjective(a, b);
  }

  lemma DisplayEnd(p: Proto, a: nat)
    ensures var s := PortDisplay(p, a);
            && (p == Both <==> IsDigit(s[|s| - 1]))
            && (p != Both ==> |s| > 4 && s[|s| - 3] == (if p == Tcp then 't' else 'u') && s[..|s| - 4] == Itoa(a))
            && (p == Both ==> s == Itoa(a))
  {
    assert "/tcp"[1] == 't' && "/tcp"[3] == 'p' && "/udp"[1] == 'u' && "/udp"[3] == 'p';
    if p != Both {
      var s, end := PortDisplay(p, a), if p == Tcp then "/tcp" else "/udp";
      assert s == Itoa(a) + end && s[|s| - 1] == end[3] && s[|s| - 3] == end[1];
    }
  }

  lemma ActionUpperSame(a: Action, b: Action)
    requires ActionUpper(a) == ActionUpper(b)
    ensures a == b
  {
    assert "ALLOW"[0] == 'A' && "DENY"[0] == 'D' && "REJECT"[0] == 'R';
  }

  lemma NotAnywhere(from: string)
    requires AddressText(from)
    ensures from != "Anywhere"
  {
    assert "Anywhere"[1] == 'n' && !AddressChar('n');
  }

  /** Status shows everything: two logical states with the same status are the same state. */
  lemma StatusDetermines(lib: Lib, on1: bool, rs1: seq<LRule>, on2: bool, rs2: seq<LRule>)
    requires Lawful(lib) && ValidRules(lib, rs1) && ValidRules(lib, rs2)
    requires Rendered(on1, rs1) == Rendered(on2, rs2)
    ensures on1 == on2 && rs1 == rs2
  {
    hide PortDisplay, ActionUpper;
    var st := Rendered(on1, rs1);
    assert |rs1| == |st.rules| == |rs2|;
    forall i | 0 <= i < |rs1| ensures rs1[i] == rs2[i] {
      var a, b := rs1[i], rs2[i];
      assert st.rules[i] == RenderOne(a, i) && st.rules[i] == RenderOne(b, i);
      PortDisplaySame(a.proto, a.port, b.proto, b.port);
      ActionUpperSame(a.action, b.action);
      if a.from != "" {
        NotAnywhere(a.from);
      }
      if b.from != "" {
        NotAnywhere(b.from);
      }
    }
  }

  // ---- state, and one call's luck with the outside world -------------------------------------------

  /** The gopit table in the kernel (if any), the other chains, and the boot file. */
  datatype State = State(kernel: Option<K.Table>, chains: seq<X.Chain>, conf: L.ConfFile)

  /** Whether each system interaction of one call succeeds. A failing one has no effect. The owner of the boot file is
      checked up to three times: by recovery, by recovery's write, and by the write after a change. */
  datatype Io = Io(
    tables: bool, confRead: bool, recoverScan: bool, recoverApply: bool,
    recoverCheck: bool, recoverCheckAgain: bool, recoverWrite: bool,
    scan: bool, read: bool, apply: bool, check: bool, write: bool)

  const LUCKY: Io := Io(true, true, true, true, true, true, true, true, true, true, true, true)

  /** `confForeign` takes a file it cannot read for one it may replace. */
  predicate SeenForeign(lib: Lib, conf: L.ConfFile, readable: bool) {
    readable && L.Foreign(lib, conf)
  }

  function Persisted(lib: Lib, s: State, enabled: bool, rs: seq<LRule>, readable: bool, writes: bool): State {
    if SeenForeign(lib, s.conf, readable) || !writes then s else s.(conf := L.File(B.ConfText(lib, enabled, rs)))
  }

  function ConfState(lib: Lib, conf: L.ConfFile): L.Loaded {
    match conf
    case Missing => L.Loaded(false, [])
    case File(text) => L.LoadText(lib, text)
  }

  /** A step that may fail: the state it leaves and the error, if any. */
  datatype Step = Step(state: State, error: Option<string>)

  /** `ensureInitialized`. */
  function Initialized(lib: Lib, s: State, io: Io): Step {
    if !io.tables then Step(s, Some(UNAVAILABLE))
    else if s.kernel.Some? then Step(s, None)
    else if s.conf.File? && !io.confRead then Step(s, Some(UNREADABLE))
    else if !io.recoverScan then Step(s, Some(UNAVAILABLE))
    else if !X.Clear(s.chains) then Step(s, Some(CONFLICT))
    else if !io.recoverApply then Step(s, Some(UNAVAILABLE))
    else
      var l := ConfState(lib, s.conf);
      var s1 := s.(kernel := Some(Build(lib, l.enabled, l.rules)));
      Step(Persisted(lib, s1, l.enabled, l.rules, io.recoverCheck || io.recoverCheckAgain, io.recoverWrite), None)
  }

  /** `logicalState` of an installed table. */
  function Logical(lib: Lib, t: K.Table): L.Loaded {
    L.Loaded(t.policy == K.PolicyDrop, D.Group(lib, t.rules))
  }

  type Change = L.Loaded -> Result<L.Loaded>

  /** `mutate`. */
  function Mutated(lib: Lib, s: State, change: Change, io: Io): Step {
    var i := Initialized(lib, s, io);
    if i.error.Some? then i
    else if !io.scan || i.state.kernel.None? then Step(i.state, Some(UNAVAILABLE))
    else if !X.Clear(i.state.chains) then Step(i.state, Some(CONFLICT))
    else if !io.read then Step(i.state, Some(UNAVAILABLE))
    else match change(Logical(lib, i.state.kernel.value))
      case Err(e) => Step(i.state, Some(e))
      case Ok(l) =>
        if !io.apply then Step(i.state, Some(UNAVAILABLE))
        else
          var s1 := i.state.(kernel := Some(Build(lib, l.enabled, l.rules)));
          Step(Persisted(lib, s1, l.enabled, l.rules, io.check, io.write), None)
  }

  function KeepChange(): Change {
    (l: L.Loaded) => Ok(l)
  }

  function AddChange(r: LRule): Change {
    (l: L.Loaded) => Ok(l.(rules := l.rules + [r]))
  }

  function DeleteChange(number: int): Change {
    (l: L.Loaded) => if number < 1 || number > |l.rules| then Err(OUT_OF_RANGE)
         else Ok(l.(rules := l.rules[..number - 1] + l.rules[number..]))
  }

  function ToggleChange(on: bool): Change {
    (l: L.Loaded) => Ok(l.(enabled := on))
  }

  /** One call, or one thing that happens between calls. */
  datatype Op =
    | GetStatus
    | Add(req: RuleAddReq)
    | Preview(req: RuleAddReq)
    | Delete(number: int)
    | Toggle(on: bool)
    | TableVanishes
    | ChainsChange(chains: seq<X.Chain>)

  datatype Outcome = Outcome(state: State, reply: Reply)

  function ReplyOf(st: Step): Outcome {
    Outcome(st.state, match st.error case Some(e) => Failed(e) case None => Done)
  }

  /** Status and preview: read, change the reading in memory, show it. */
  function Shown(lib: Lib, s: State, change: Change, io: Io): Outcome {
    var i := Initialized(lib, s, io);
    if i.error.Some? then Outcome(i.state, Failed(i.error.value))
    else if !io.read || i.state.kernel.None? then Outcome(i.state, Failed(UNAVAILABLE))
    else match change(Logical(lib, i.state.kernel.value))
      case Ok(l) => Outcome(i.state, StatusReply(Rendered(l.enabled, l.rules)))
      case Err(e) => Outcome(i.state, Failed(e))
  }

  /** What every operation does to the state and what it answers. */
  function Performed(lib: Lib, allowToggle: bool, s: State, op: Op, io: Io): Outcome {
    match op
    case GetStatus => Shown(lib, s, KeepChange(), io)
    case Add(req) =>
      (match RequestedRule(lib, req)
       case Err(e) => Outcome(s, Failed(e))
       case Ok(r) => ReplyOf(Mutated(lib, s, AddChange(r), io)))
    case Preview(req) =>
      (match RequestedRule(lib, req)
       case Err(e) => Outcome(s, Failed(e))
       case Ok(r) => Shown(lib, s, AddChange(r), io))
    case Delete(n) =>
      if n < 1 then Outcome(s, Failed(BAD_NUMBER)) else ReplyOf(Mutated(lib, s, DeleteChange(n), io))
    case Toggle(on) =>
      if !allowToggle then Outcome(s, Failed(TOGGLE_DISABLED)) else ReplyOf(Mutated(lib, s, ToggleChange(on), io))
    case TableVanishes => Outcome(s.(kernel := None), Done)
    case ChainsChange(chains) => Outcome(s.(chains := chains), Done)
  }

  // ---- the API object ---------------------------------------------------------------------------------

  class API {
    const lib: Lib
    const allowToggle: bool
    var kernel: Option<K.Table>
    var chains: seq<X.Chain>
    var conf: L.ConfFile

    constructor (lib: Lib, allowToggle: bool, start: State)
      ensures this.lib == lib && this.allowToggle == allowToggle && Now() == start
    {
      this.lib, this.allowToggle := lib, allowToggle;
      kernel, chains, conf := start.kernel, start.chains, start.conf;
    }

    function Now(): State
      reads this
    {
      State(kernel, chains, conf)
    }

    /** `apply`: one atomic batch replaces the table. */
    method Apply(enabled: bool, rs: seq<LRule>, flushes: bool) returns (error: Option<string>)
      modifies this`kernel
      ensures error == if flushes then None else Some(UNAVAILABLE)
      ensures kernel == if flushes then Some(Build(lib, enabled, rs)) else old(kernel)
    {
      if !flushes {
        return Some(UNAVAILABLE);
      }
      var t := BuildTable(lib, enabled, rs);
      kernel := Some(t);
      return None;
    }

    /** `confForeign` on the boot file. */
    method CheckForeign(readable: bool) returns (foreign: bool)
      ensures foreign == SeenForeign(lib, conf, readable)
    {
      foreign := false;
      if conf.File? && readable {
        foreign := L.ConfForeign(lib, conf.text);
      }
    }

    /** `persistConf`: replaces the boot file unless it is foreign; a failed write is only logged. */
    method PersistConf(enabled: bool, rs: seq<LRule>, readable: bool, writes: bool)
      modifies this`conf
      ensures Now() == Persisted(lib, old(Now()), enabled, rs, readable, writes)
    {
      var foreign := CheckForeign(readable);
      if foreign {
        return;
      }
      if writes {
        var text := B.RenderConf(lib, enabled, rs);
        conf := L.File(text);
      }
    }

    method EnsureInitialized(io: Io) returns (error: Option<string>)
      modifies this`kernel, this`conf
      ensures Step(Now(), error) == Initialized(lib, old(Now()), io)
    {
      if !io.tables {
        return Some(UNAVAILABLE);
      }
      if kernel.Some? {
        return None;
      }
      var enabled, rules := false, [];
      match conf {
        case Missing =>
        case File(text) =>
          if !io.confRead {
            return Some(UNREADABLE);
          }
          enabled, rules := L.LoadFile(lib, text);
      }
      assert L.Loaded(enabled, rules) == ConfState(lib, conf);
      if !io.recoverScan {
        return Some(UNAVAILABLE);
      }
      var ok, shadowing := X.ConflictScan(chains);
      if !ok {
        return Some(CONFLICT);
      }
      error := Apply(enabled, rules, io.recoverApply);
      if error.Some? {
        return error;
      }
      var foreign := CheckForeign(io.recoverCheck);
      if !foreign {
        PersistConf(enabled, rules, io.recoverCheckAgain, io.recoverWrite);
      }
      return None;
    }

    /** `logicalState`. */
    method LogicalState(io: Io) returns (res: Result<L.Loaded>)
      ensures res == if !io.read || kernel.None? then Err(UNAVAILABLE) else Ok(Logical(lib, kernel.value))
    {
      if !io.read || kernel.None? {
        return Err(UNAVAILABLE);
      }
      var rules := D.KernelRulesToRules(lib, kernel.value.rules);
      return Ok(L.Loaded(kernel.value.policy == K.PolicyDrop, rules));
    }

    method Mutate(change: Change, io: Io) returns (error: Option<string>)
      modifies this`kernel, this`conf
      ensures Step(Now(), error) == Mutated(lib, old(Now()), change, io)
    {
      error := EnsureInitialized(io);
      if error.Some? {
        return;
      }
      if !io.scan || kernel.None? {
        return Some(UNAVAILABLE);
      }
      var ok, foreign := X.ConflictScan(chains);
      if !ok {
        return Some(CONFLICT);
      }
      var state := LogicalState(io);
      if state.Err? {
        return Some(state.message);
      }
      var changed := change(state.value);
      if changed.Err? {
        return Some(changed.message);
      }
      error := Apply(changed.value.enabled, changed.value.rules, io.apply);
      if error.Some? {
        return;
      }
      PersistConf(changed.value.enabled, changed.value.rules, io.check, io.write);
      return None;
    }

    method Show(change: Change, io: Io) returns (reply: Reply)
      modifies this`kernel, this`conf
      ensures Outcome(Now(), reply) == Shown(lib, old(Now()), change, io)
    {
      var error := EnsureInitialized(io);
      if error.Some? {
        return Failed(error.value);
      }
      var state := LogicalState(io);
      if state.Err? {
        return Failed(state.message);
      }
      var changed := change(state.value);
      if changed.Err? {
        return Failed(changed.message);
      }
      var st := Render(changed.value.enabled, changed.value.rules);
      return StatusReply(st);
    }

    /** `Call`, and the two things the outside world does between calls. */
    method Perform(op: Op, io: Io) returns (reply: Reply)
      modifies this
      ensures Outcome(Now(), reply) == Performed(lib, allowToggle, old(Now()), op, io)
    {
      match op {
        case GetStatus =>
          reply := Show(KeepChange(), io);
        case Add(req) =>
          var r := RequestedRule(lib, req);
          if r.Err? {
            return Failed(r.message);
          }
          var error := Mutate(AddChange(r.value), io);
          reply := if error.Some? then Failed(error.value) else Done;
        case Preview(req) =>
          var r := RequestedRule(lib, req);
          if r.Err? {
            return Failed(r.message);
          }
          reply := Show(AddChange(r.value), io);
        case Delete(n) =>
          if n < 1 {
            return Failed(BAD_NUMBER);
          }
          var error := Mutate(DeleteChange(n), io);
          reply := if error.Some? then Failed(error.value) else Done;
        case Toggle(on) =>
          if !allowToggle {
            return Failed(TOGGLE_DISABLED);
          }
          var error := Mutate(ToggleChange(on), io);
          reply := if error.Some? then Failed(error.value) else Done;
        case TableVanishes =>
          kernel := None;
          reply := Done;
        case ChainsChange(others) =>
          chains := others;
          reply := Done;
      }
    }
  }
}
