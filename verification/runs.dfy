/** Whole runs of the firewall API against a machine that only holds two rule lists: the one installed in the kernel and
    the one saved in the boot file. */
module Runs {
  import opened GoLib
  import opened Rules
  import K = Kernel
  import opened Emit
  import M = Meaning
  import D = Decode
  import C = Conf
  import B = BootConf
  import L = LoadConf
  import X = Conflict
  import opened Firewall

  // ---- the machine on lists --------------------------------------------------------------------

  /** `installed`: what the kernel holds, if the table is there. `saved`: what the boot file was rendered from, if it is
      the agent's. `foreign`: the boot file is somebody else's. */
  datatype Held = Held(installed: Option<L.Loaded>, saved: Option<L.Loaded>, foreign: bool)

  const EMPTY: L.Loaded := L.Loaded(false, [])

  /** What reading an installed list back gives: names cut at a NUL, in normal form. */
  function Read(lib: Lib, l: L.Loaded): L.Loaded {
    l.(rules := Norm(lib, D.ReadNames(l.rules)))
  }

  /** What recovery takes from the boot file: names as printed, twins merged. */
  function Reload(lib: Lib, h: Held): L.Loaded {
    match h.saved
    case Some(l) => l.(rules := Merge(C.QuotedAll(lib, l.rules)))
    case None => EMPTY
  }

  /** What Status shows, or will show as soon as the table is back. */
  function View(lib: Lib, h: Held): L.Loaded {
    Read(lib, if h.installed.Some? then h.installed.value else Reload(lib, h))
  }

  /** A list is installed, and saved unless the boot file is seen to be foreign or cannot be written. */
  function Put(h: Held, l: L.Loaded, readable: bool, writes: bool): Held {
    var saves := writes && !(readable && h.foreign);
    Held(Some(l), if saves then Some(l) else h.saved, h.foreign && !saves)
  }

  /** Recovery. */
  function Back(lib: Lib, h: Held, io: Io): Held {
    Put(h, Reload(lib, h), io.recoverCheck || io.recoverCheckAgain, io.recoverWrite)
  }

  predicate Changes(op: Op) {
    op.Add? || op.Delete? || op.Toggle?
  }

  /** The list that a successful change makes of the one shown. */
  function Changed(lib: Lib, l: L.Loaded, op: Op): L.Loaded {
    match op
    case Add(req) =>
      (match RequestedRule(lib, req)
       case Ok(r) => l.(rules := l.rules + [r])
       case Err(_) => l)
    case Delete(n) => if 1 <= n <= |l.rules| then l.(rules := l.rules[..n - 1] + l.rules[n..]) else l
    case Toggle(on) => l.(enabled := on)
    case _ => l
  }

  /** One operation, in which the table came back or did not, and which succeeded or failed. */
  function HStep(lib: Lib, h: Held, op: Op, io: Io, back: bool, ok: bool): Held {
    match op
    case TableVanishes => h.(installed := None)
    case ChainsChange(_) => h
    case _ =>
      var h1 := if back then Back(lib, h, io) else h;
      if ok && Changes(op) then Put(h1, Changed(lib, View(lib, h1), op), io.check, io.write) else h1
  }

  /** The answer when the outside world plays along. */
  function HReply(lib: Lib, allowToggle: bool, view: L.Loaded, op: Op): Reply {
    match op
    case GetStatus => StatusReply(Rendered(view.enabled, view.rules))
    case Add(req) => (match RequestedRule(lib, req) case Ok(_) => Done case Err(e) => Failed(e))
    case Preview(req) =>
      (match RequestedRule(lib, req)
       case Ok(r) => StatusReply(Rendered(view.enabled, view.rules + [r]))
       case Err(e) => Failed(e))
    case Delete(n) => if n < 1 then Failed(BAD_NUMBER) else if n > |view.rules| then Failed(OUT_OF_RANGE) else Done
    case Toggle(_) => if allowToggle then Done else Failed(TOGGLE_DISABLED)
    case _ => Done
  }

  // ---- representation ------------------------------------------------------------------------------

  predicate Unmarked(conf: L.ConfFile) {
    conf.File? ==> !Contains(conf.text, B.MARKER)
  }

  predicate KernelHolds(lib: Lib, kernel: Option<K.Table>, installed: Option<L.Loaded>) {
    match installed
    case Some(l) => StorableRules(lib, l.rules) && kernel == Some(Build(lib, l.enabled, l.rules))
    case None => kernel == None
  }

  predicate ConfHolds(lib: Lib, conf: L.ConfFile, saved: Option<L.Loaded>, foreign: bool) {
    && foreign == L.Foreign(lib, conf)
    && match saved
       case Some(l) => StorableRules(lib, l.rules) && conf == L.File(B.ConfText(lib, l.enabled, l.rules))
       case None => Unmarked(conf)
  }

  /** The kernel is the installed list compiled, and the boot file, if it is the agent's, the saved list rendered. */
  predicate Holds(lib: Lib, s: State, h: Held) {
    KernelHolds(lib, s.kernel, h.installed) && ConfHolds(lib, s.conf, h.saved, h.foreign)
  }

  lemma ReadNamesStorable(lib: Lib, rs: seq<LRule>)
    requires StorableRules(lib, rs)
    ensures StorableRules(lib, D.ReadNames(rs))
  {
    forall i | 0 <= i < |rs| ensures Storable(lib, D.ReadNames(rs)[i]) {
      assert Storable(lib, rs[i]);
      ReadNameLacks(rs[i].iface, '"');
    }
  }

  lemma ReadNameLacks(name: string, c: char)
    requires Lacks(name, c) && c != '\0'
    ensures Lacks(D.ReadName(name), c)
  {
    var data := K.IfnameData(name);
    forall i | 0 <= i < |data| ensures data[i] != c { }
    assert D.ReadName(name) <= data;
  }

  lemma ReadStorable(lib: Lib, l: L.Loaded)
    requires Lawful(lib) && StorableRules(lib, l.rules)
    ensures StorableRules(lib, Read(lib, l).rules)
  {
    ReadNamesStorable(lib, l.rules);
    NormStorable(lib, D.ReadNames(l.rules));
  }

  lemma ReloadStorable(lib: Lib, s: State, h: Held)
    requires Lawful(lib) && Holds(lib, s, h)
    ensures StorableRules(lib, Reload(lib, h).rules)
  {
    if h.saved.Some? {
      var rs := h.saved.value.rules;
      forall i | 0 <= i < |rs| ensures Storable(lib, C.QuotedAll(lib, rs)[i]) {
        C.QuoteBodyText(lib, rs[i].iface);
      }
      MergeStorable(lib, C.QuotedAll(lib, rs));
    }
  }

  lemma ViewStorable(lib: Lib, s: State, h: Held)
    requires Lawful(lib) && Holds(lib, s, h)
    ensures StorableRules(lib, View(lib, h).rules)
  {
    ReloadStorable(lib, s, h);
    ReadStorable(lib, if h.installed.Some? then h.installed.value else Reload(lib, h));
  }

  /** Reading an installed table back gives what the machine reads. */
  lemma LogicalIs(lib: Lib, l: L.Loaded)
    requires Lawful(lib) && StorableRules(lib, l.rules)
    ensures Logical(lib, Build(lib, l.enabled, l.rules)) == Read(lib, l)
  {
    D.ReadBuilt(lib, l.enabled, l.rules);
  }

  /** Loading the boot file gives what the machine reloads. */
  lemma ConfStateIs(lib: Lib, s: State, h: Held)
    requires Lawful(lib) && Holds(lib, s, h)
    ensures ConfState(lib, s.conf) == Reload(lib, h)
  {
    hide B.ConfText, Contains;
    if h.saved.Some? {
      L.LoadRendered(lib, h.saved.value.enabled, h.saved.value.rules);
    }
  }

  /** Installing and persisting a list. */
  lemma PutHolds(lib: Lib, s: State, h: Held, l: L.Loaded, readable: bool, writes: bool)
    requires Lawful(lib) && ConfHolds(lib, s.conf, h.saved, h.foreign) && StorableRules(lib, l.rules)
    requires s.kernel == Some(Build(lib, l.enabled, l.rules))
    ensures Holds(lib, Persisted(lib, s, l.enabled, l.rules, readable, writes), Put(h, l, readable, writes))
    ensures Persisted(lib, s, l.enabled, l.rules, readable, writes).chains == s.chains
  {
    hide B.ConfText, Build, L.ForeignText;
    L.WrittenNeverForeign(lib, l.enabled, l.rules);
  }

  /** Putting back what the view comes from leaves the view. */
  lemma BackView(lib: Lib, h: Held, io: Io)
    requires h.installed.None?
    ensures View(lib, Back(lib, h, io)) == View(lib, h)
  {
  }

  // ---- recovery -------------------------------------------------------------------------------------

  /** The table came back in a call that left this kernel. */
  predicate CameBack(s: State, t: State) {
    s.kernel.None? && t.kernel.Some?
  }

  /** The machine after recovery was tried. */
  function Tried(lib: Lib, h: Held, io: Io, back: bool): Held {
    if back then Back(lib, h, io) else h
  }

  lemma InitializedKeeps(lib: Lib, s: State, h: Held, io: Io)
    requires Lawful(lib) && Holds(lib, s, h)
    ensures var i := Initialized(lib, s, io); var h1 := Tried(lib, h, io, CameBack(s, i.state));
            && Holds(lib, i.state, h1) && View(lib, h1) == View(lib, h) && i.state.chains == s.chains
            && (i.error == None ==> i.state.kernel.Some?)
            && (s.kernel.Some? ==> i.state == s)
            && (i.error.Some? ==> i.state == s)
  {
    hide B.ConfText, Build, L.ForeignText, Reload, ConfState, Persisted, Put;
    ConfStateIs(lib, s, h);
    ReloadStorable(lib, s, h);
    var l := Reload(lib, h);
    var s1 := s.(kernel := Some(Build(lib, l.enabled, l.rules)));
    PutHolds(lib, s1, h, l, io.recoverCheck || io.recoverCheckAgain, io.recoverWrite);
    PersistedKernel(lib, s1, l, io.recoverCheck || io.recoverCheckAgain, io.recoverWrite);
    if s.kernel.None? {
      BackView(lib, h, io);
    }
  }

  lemma PersistedKernel(lib: Lib, s: State, l: L.Loaded, readable: bool, writes: bool)
    ensures Persisted(lib, s, l.enabled, l.rules, readable, writes).kernel == s.kernel
  {
  }

  // ---- operations --------------------------------------------------------------------------------------------

  lemma HeldLogical(lib: Lib, s: State, h: Held)
    requires Lawful(lib) && Holds(lib, s, h) && s.kernel.Some?
    ensures Logical(lib, s.kernel.value) == View(lib, h)
  {
    LogicalIs(lib, h.installed.value);
  }

  /** What one call that changes the list does: a failure leaves the view, a success installs the changed list. */
  lemma MutatedRefines(lib: Lib, s: State, h: Held, change: Change, io: Io)
    requires Lawful(lib) && Holds(lib, s, h)
    requires change(View(lib, h)).Ok? ==> StorableRules(lib, change(View(lib, h)).value.rules)
    ensures var m := Mutated(lib, s, change, io);
            var h1, c := Tried(lib, h, io, CameBack(s, m.state)), change(View(lib, h));
            && View(lib, h1) == View(lib, h)
            && (m.error.Some? ==> Holds(lib, m.state, h1))
            && (m.error.None? ==> c.Ok? && Holds(lib, m.state, Put(h1, c.value, io.check, io.write)))
            && m.state.chains == s.chains
  {
    hide Initialized, Persisted, Build, Logical, Holds, View, Put, Back;
    InitializedKeeps(lib, s, h, io);
    var i := Initialized(lib, s, io);
    var h1 := Tried(lib, h, io, CameBack(s, i.state));
    if i.error == None {
      HeldLogical(lib, i.state, h1);
      var c := change(View(lib, h));
      if c.Ok? {
        var s1 := i.state.(kernel := Some(Build(lib, c.value.enabled, c.value.rules)));
        HoldsConf(lib, i.state, h1);
        PutHolds(lib, s1, h1, c.value, io.check, io.write);
        PersistedKernel(lib, s1, c.value, io.check, io.write);
      }
    }
  }

  lemma HoldsConf(lib: Lib, s: State, h: Held)
    requires Holds(lib, s, h)
    ensures ConfHolds(lib, s.conf, h.saved, h.foreign)
  {
  }

  lemma ShownRefines(lib: Lib, s: State, h: Held, change: Change, io: Io)
    requires Lawful(lib) && Holds(lib, s, h)
    ensures var o, c := Shown(lib, s, change, io), change(View(lib, h));
            var h1 := Tried(lib, h, io, CameBack(s, o.state));
            && Holds(lib, o.state, h1) && View(lib, h1) == View(lib, h) && o.state.chains == s.chains
            && (!o.reply.Failed? ==> c.Ok? && o.reply == StatusReply(Rendered(c.value.enabled, c.value.rules)))
  {
    hide Initialized, Build, Logical, Holds, View, Back, Rendered;
    InitializedKeeps(lib, s, h, io);
    var i := Initialized(lib, s, io);
    if i.error == None {
      HeldLogical(lib, i.state, Tried(lib, h, io, CameBack(s, i.state)));
    }
  }

  /** One step of the API is the machine's step; a failed call leaves the view, any other answers as the machine does. */
  predicate Refines(lib: Lib, allowToggle: bool, s: State, h: Held, op: Op, io: Io) {
    var o := Performed(lib, allowToggle, s, op, io);
    var t := HStep(lib, h, op, io, CameBack(s, o.state), !o.reply.Failed?);
    && Holds(lib, o.state, t)
    && (if o.reply.Failed? then View(lib, t) == View(lib, h) else o.reply == HReply(lib, allowToggle, View(lib, h), op))
  }

  lemma ReadStep(lib: Lib, allowToggle: bool, s: State, h: Held, op: Op, io: Io)
    requires Lawful(lib) && Holds(lib, s, h) && (op.GetStatus? || op.Preview?)
    ensures Refines(lib, allowToggle, s, h, op, io)
  {
    hide Shown, Holds, View, Back, Put, Rendered, RequestedRule;
    if op.GetStatus? {
      ShownRefines(lib, s, h, KeepChange(), io);
    } else if RequestedRule(lib, op.req).Ok? {
      ShownRefines(lib, s, h, AddChange(RequestedRule(lib, op.req).value), io);
    }
  }

  function ChangeOf(lib: Lib, op: Op): Change
    requires Changes(op) && (op.Add? ==> RequestedRule(lib, op.req).Ok?)
  {
    match op
    case Add(req) => AddChange(RequestedRule(lib, req).value)
    case Delete(n) => DeleteChange(n)
    case Toggle(on) => ToggleChange(on)
  }

  lemma ChangeStorable(lib: Lib, s: State, h: Held, op: Op)
    requires Lawful(lib) && Holds(lib, s, h) && Changes(op) && (op.Add? ==> RequestedRule(lib, op.req).Ok?)
    ensures var c := ChangeOf(lib, op)(View(lib, h));
            c.Ok? ==> StorableRules(lib, c.value.rules) && c.value == Changed(lib, View(lib, h), op)
  {
    hide RequestedRule, Holds, View, Storable;
    ViewStorable(lib, s, h);
    if op.Add? {
      RequestStorable(lib, op.req);
    }
  }

  lemma RequestStorable(lib: Lib, req: RuleAddReq)
    requires RequestedRule(lib, req).Ok?
    ensures Storable(lib, RequestedRule(lib, req).value)
  {
    hide RequestedRule;
  }

  lemma ChangeStep(lib: Lib, allowToggle: bool, s: State, h: Held, op: Op, io: Io)
    requires Lawful(lib) && Holds(lib, s, h) && Changes(op)
    ensures Refines(lib, allowToggle, s, h, op, io)
  {
    hide Mutated, Holds, View, Back, Put, RequestedRule, Changed;
    if op.Add? ==> RequestedRule(lib, op.req).Ok? {
      ChangeStorable(lib, s, h, op);
      MutatedRefines(lib, s, h, ChangeOf(lib, op), io);
    }
  }

  lemma WorldStep(lib: Lib, allowToggle: bool, s: State, h: Held, op: Op, io: Io)
    requires Holds(lib, s, h) && (op.TableVanishes? || op.ChainsChange?)
    ensures Refines(lib, allowToggle, s, h, op, io)
  {
    hide ConfHolds, Build, View;
  }

  /** Every call, whatever is asked for and whatever fails, refines the machine on lists. */
  lemma StepRefines(lib: Lib, allowToggle: bool, s: State, h: Held, op: Op, io: Io)
    requires Lawful(lib) && Holds(lib, s, h)
    ensures Refines(lib, allowToggle, s, h, op, io)
  {
    hide Refines, Holds;
    if op.GetStatus? || op.Preview? {
      ReadStep(lib, allowToggle, s, h, op, io);
    } else if Changes(op) {
      ChangeStep(lib, allowToggle, s, h, op, io);
    } else {
      WorldStep(lib, allowToggle, s, h, op, io);
    }
  }

  /** Every interaction works that a call cannot do without; the boot file's checks and writes are not among them. */
  predicate CallsWork(io: Io) {
    io.tables && io.confRead && io.recoverScan && io.recoverApply && io.scan && io.read && io.apply
  }

  /** When those work and no foreign chain shadows, the answer is the machine's, errors included. */
  lemma StepAnswers(lib: Lib, allowToggle: bool, s: State, h: Held, op: Op, io: Io)
    requires Lawful(lib) && Holds(lib, s, h) && X.Clear(s.chains) && CallsWork(io)
    ensures Performed(lib, allowToggle, s, op, io).reply == HReply(lib, allowToggle, View(lib, h), op)
  {
    hide Holds, View, Back, Put, RequestedRule, Rendered, Build, Logical, Initialized, X.Clear;
    InitializedKeeps(lib, s, h, io);
    InitializedOk(lib, s, io);
    var i := Initialized(lib, s, io);
    HeldLogical(lib, i.state, Tried(lib, h, io, CameBack(s, i.state)));
  }

  lemma InitializedOk(lib: Lib, s: State, io: Io)
    requires X.Clear(s.chains) && io.tables && io.confRead && io.recoverScan && io.recoverApply
    ensures Initialized(lib, s, io).error == None
  {
  }

  // ---- runs ------------------------------------------------------------------------------------------------------

  datatype Event = Event(op: Op, io: Io)

  function RunState(lib: Lib, allowToggle: bool, s: State, evs: seq<Event>): State
    decreases |evs|
  {
    if evs == [] then s
    else RunState(lib, allowToggle, Performed(lib, allowToggle, s, evs[0].op, evs[0].io).state, evs[1..])
  }

  /** What the machine observes of a step besides the operation: the table came back, the call did not fail. */
  datatype Seen = Seen(back: bool, ok: bool, reply: Reply)

  function RunSeen(lib: Lib, allowToggle: bool, s: State, evs: seq<Event>): (seen: seq<Seen>)
    ensures |seen| == |evs|
    decreases |evs|
  {
    if evs == [] then []
    else
      var o := Performed(lib, allowToggle, s, evs[0].op, evs[0].io);
      [Seen(CameBack(s, o.state), !o.reply.Failed?, o.reply)] + RunSeen(lib, allowToggle, o.state, evs[1..])
  }

  function HRun(lib: Lib, h: Held, evs: seq<Event>, seen: seq<Seen>): Held
    requires |seen| == |evs|
    decreases |evs|
  {
    if evs == [] then h
    else HRun(lib, HStep(lib, h, evs[0].op, evs[0].io, seen[0].back, seen[0].ok), evs[1..], seen[1..])
  }

  /** Every failure leaves the view, and every other answer is the machine's at that point. */
  predicate Answers(lib: Lib, allowToggle: bool, h: Held, evs: seq<Event>, seen: seq<Seen>)
    requires |seen| == |evs|
    decreases |evs|
  {
    evs == [] ||
    (var t := HStep(lib, h, evs[0].op, evs[0].io, seen[0].back, seen[0].ok);
     (if seen[0].ok then seen[0].reply == HReply(lib, allowToggle, View(lib, h), evs[0].op) else View(lib, t) == View(lib, h))
     && Answers(lib, allowToggle, t, evs[1..], seen[1..]))
  }

  /** Whole-run refinement: every run of calls, with any requests, with the table vanishing and foreign chains changing
      anywhere between them, and with kernel calls, reads and writes failing anywhere, is a run of the machine on lists. */
  lemma {:induction false} RunRefines(lib: Lib, allowToggle: bool, s: State, h: Held, evs: seq<Event>)
    requires Lawful(lib) && Holds(lib, s, h)
    ensures var seen := RunSeen(lib, allowToggle, s, evs);
            && Holds(lib, RunState(lib, allowToggle, s, evs), HRun(lib, h, evs, seen))
            && Answers(lib, allowToggle, h, evs, seen)
    decreases |evs|
  {
    hide Holds, Performed, HStep, HReply, View;
    if evs != [] {
      var o := Performed(lib, allowToggle, s, evs[0].op, evs[0].io);
      var seen := RunSeen(lib, allowToggle, s, evs);
      StepRefines(lib, allowToggle, s, h, evs[0].op, evs[0].io);
      var t := HStep(lib, h, evs[0].op, evs[0].io, seen[0].back, seen[0].ok);
      RunRefines(lib, allowToggle, o.state, t, evs[1..]);
      assert seen[1..] == RunSeen(lib, allowToggle, o.state, evs[1..]);
    }
  }

  /** After any run, an installed table gives every packet the verdict that the installed list intends. */
  lemma RunEnforces(lib: Lib, allowToggle: bool, s: State, h: Held, evs: seq<Event>, pkt: K.Packet)
    requires Lawful(lib) && Holds(lib, s, h) && K.ValidPacket(pkt) && RunState(lib, allowToggle, s, evs).kernel.Some?
    ensures var t := HRun(lib, h, evs, RunSeen(lib, allowToggle, s, evs));
            && t.installed.Some?
            && K.TableVerdict(RunState(lib, allowToggle, s, evs).kernel.value, pkt) ==
               M.Intended(lib, t.installed.value.enabled, t.installed.value.rules, pkt)
  {
    hide Build, K.TableVerdict, M.Intended, RunState, HRun, RunSeen, ConfHolds;
    RunRefines(lib, allowToggle, s, h, evs);
    var t := HRun(lib, h, evs, RunSeen(lib, allowToggle, s, evs));
    M.CompiledMeaning(lib, t.installed.value.enabled, t.installed.value.rules, pkt);
  }

  /** A fresh host, or one with somebody else's file, starts with nothing installed and nothing saved. */
  lemma StartHolds(lib: Lib, s: State)
    requires s.kernel.None? && Unmarked(s.conf)
    ensures Holds(lib, s, Held(None, None, L.Foreign(lib, s.conf))) && View(lib, Held(None, None, L.Foreign(lib, s.conf))) == EMPTY
  {
    assert D.ReadNames([]) == [] && Canon(lib, []) == [];
  }

  // ---- with gopit's table in its place -------------------------------------------------------------------

  /** The base chain that `apply` adds. */
  const OWN_BASE: X.Chain := X.Chain(X.INet, "gopit", "input", Some(1), Some(0), None, [])

  lemma DoneClear(lib: Lib, s: State, change: Change, io: Io)
    requires Mutated(lib, s, change, io).error == None && Initialized(lib, s, io).state.chains == s.chains
    ensures X.Clear(s.chains)
  {
    hide Initialized, Persisted, X.Clear, Build, Logical;
  }

  /** From rules to packets: when a change is answered Done, every packet that comes through the input hook gets the
      verdict intended by the list now installed, wherever gopit's chain stands and whatever the other chains are; only
      what it accepts goes on to chains of later priority. */
  lemma DoneDecides(lib: Lib, allowToggle: bool, s: State, h: Held, op: Op, io: Io,
                    order: seq<X.Chain>, run: X.ChainRunner, pkt: K.Packet)
    requires Lawful(lib) && Holds(lib, s, h) && Changes(op) && K.ValidPacket(pkt) && X.RunsEmptyChains(run)
    requires Performed(lib, allowToggle, s, op, io).reply == Done && X.KernelOrder(order, s.chains) && OWN_BASE in order
    ensures var t, l := Performed(lib, allowToggle, s, op, io).state, Changed(lib, View(lib, h), op);
            var v := M.Intended(lib, l.enabled, l.rules, pkt);
            && t.kernel.Some? && t.chains == s.chains && K.TableVerdict(t.kernel.value, pkt) == v
            && X.Fate(order, run, v, pkt) == if v == K.Accepted then X.Fate(X.Behind(order), run, v, pkt) else v
  {
    hide Mutated, Initialized, Holds, View, Back, RequestedRule, X.Clear, X.KernelOrder, X.Fate, Build, K.TableVerdict, M.Intended;
    ChangeStorable(lib, s, h, op);
    MutatedRefines(lib, s, h, ChangeOf(lib, op), io);
    InitializedKeeps(lib, s, h, io);
    DoneClear(lib, s, ChangeOf(lib, op), io);
    var t, l := Performed(lib, allowToggle, s, op, io).state, Changed(lib, View(lib, h), op);
    var h1 := Tried(lib, h, io, CameBack(s, t));
    PutKernel(lib, t, h1, l, io);
    M.CompiledMeaning(lib, l.enabled, l.rules, pkt);
    OwnHooked(s.chains, order);
    X.ClearFate(s.chains, order, run, M.Intended(lib, l.enabled, l.rules, pkt), pkt);
  }

  lemma OwnHooked(chains: seq<X.Chain>, order: seq<X.Chain>)
    requires X.KernelOrder(order, chains) && OWN_BASE in order
    ensures X.Hooked(order)
  {
    var g :| 0 <= g < |order| && order[g] == OWN_BASE;
    X.HookedAt(order, g);
  }

  lemma PutKernel(lib: Lib, t: State, h: Held, l: L.Loaded, io: Io)
    requires Holds(lib, t, Put(h, l, io.check, io.write))
    ensures t.kernel == Some(Build(lib, l.enabled, l.rules)) && StorableRules(lib, l.rules)
  {
  }

  // ---- preview -------------------------------------------------------------------------------------------------------

  /** The list after adding `r` to a normal list: the udp half of a twin joins the last entry, anything else is appended
      with its address in canonical spelling. */
  function AddedList(lib: Lib, rs: seq<LRule>, r: LRule): seq<LRule> {
    var c := CanonRule(lib, r);
    if rs != [] && Twin(rs[|rs| - 1], c) then rs[..|rs| - 1] + [WithProto(c, Both)] else rs + [c]
  }

  lemma AddedListIsNorm(lib: Lib, rs: seq<LRule>, r: LRule)
    requires Lawful(lib) && Norm(lib, rs) == rs
    ensures Norm(lib, rs + [r]) == AddedList(lib, rs, r)
  {
    var c := CanonRule(lib, r);
    MergeTwinFree(Canon(lib, rs));
    NormCanonical(lib, rs);
    assert Canon(lib, rs + [r]) == Canon(lib, rs) + [c];
    MergeSnoc(rs, c);
  }

  predicate NamesRead(rs: seq<LRule>) {
    forall i | 0 <= i < |rs| :: D.ReadName(rs[i].iface) == rs[i].iface
  }

  lemma ReadNameIdempotent(name: string)
    ensures D.ReadName(D.ReadName(name)) == D.ReadName(name)
  {
    var r := D.ReadName(name);
    assert |r| <= 16 && Lacks(r, '\0');
    assert K.IfnameData(r) == r + K.Zeros(16 - |r|);
    D.TrimZeroPlain(r, K.Zeros(16 - |r|));
  }

  lemma {:induction false} MergeNamesRead(rs: seq<LRule>)
    requires NamesRead(rs)
    ensures NamesRead(Merge(rs))
  {
    hide D.ReadName;
    if rs == [] {
    } else if |rs| > 1 && Twin(rs[0], rs[1]) {
      MergeNamesRead(rs[2..]);
    } else {
      MergeNamesRead(rs[1..]);
    }
  }

  /** What has been read is in normal form and reads the same again. */
  lemma ReadFixed(lib: Lib, l: L.Loaded)
    requires Lawful(lib)
    ensures var rs := Read(lib, l).rules; Norm(lib, rs) == rs && D.ReadNames(rs) == rs
  {
    hide D.ReadName;
    var ts := D.ReadNames(l.rules);
    NormIdempotent(lib, ts);
    forall i | 0 <= i < |ts| ensures D.ReadName(Canon(lib, ts)[i].iface) == Canon(lib, ts)[i].iface {
      ReadNameIdempotent(l.rules[i].iface);
    }
    MergeNamesRead(Canon(lib, ts));
    assert D.ReadNames(Read(lib, l).rules) == Read(lib, l).rules;
  }

  /** The rule with its name as the kernel gives it back. */
  function Cut(r: LRule): LRule {
    r.(iface := D.ReadName(r.iface))
  }

  lemma ReadAdded(lib: Lib, l: L.Loaded, r: LRule)
    requires Lawful(lib)
    ensures var rs := Read(lib, l).rules; Norm(lib, D.ReadNames(rs + [r])) == AddedList(lib, rs, Cut(r))
  {
    hide D.ReadName;
    var rs := Read(lib, l).rules;
    ReadFixed(lib, l);
    assert D.ReadNames(rs + [r]) == D.ReadNames(rs) + [Cut(r)];
    AddedListIsNorm(lib, rs, Cut(r));
  }

  /** Preview agrees with the effect, whatever fails on the way and whatever the rule: what Status shows after the add is
      what preview showed, up to joining the last entry's twin, the spelling of the new address and a name cut at NUL. */
  lemma PreviewAgrees(lib: Lib, allowToggle: bool, s: State, h: Held, req: RuleAddReq, io1: Io, io2: Io, io3: Io)
    requires Lawful(lib) && Holds(lib, s, h)
    ensures var p := Performed(lib, allowToggle, s, Preview(req), io1);
            var d := Performed(lib, allowToggle, p.state, Add(req), io2);
            var q := Performed(lib, allowToggle, d.state, GetStatus, io3);
            var v := View(lib, h);
            !p.reply.Failed? && !d.reply.Failed? && !q.reply.Failed? ==>
              && RequestedRule(lib, req).Ok?
              && var r := RequestedRule(lib, req).value;
              && p.reply == StatusReply(Rendered(v.enabled, v.rules + [r]))
              && q.reply == StatusReply(Rendered(v.enabled, AddedList(lib, v.rules, Cut(r))))
  {
    hide Holds, Performed, Rendered, RequestedRule, Reload, Read, Norm, AddedList, Back;
    StepRefines(lib, allowToggle, s, h, Preview(req), io1);
    var p := Performed(lib, allowToggle, s, Preview(req), io1);
    var h1 := HStep(lib, h, Preview(req), io1, CameBack(s, p.state), !p.reply.Failed?);
    if !p.reply.Failed? && RequestedRule(lib, req).Ok? {
      var r := RequestedRule(lib, req).value;
      SameView(lib, s, h, Preview(req), io1, p.state);
      StepRefines(lib, allowToggle, p.state, h1, Add(req), io2);
      var d := Performed(lib, allowToggle, p.state, Add(req), io2);
      var h2 := HStep(lib, h1, Add(req), io2, CameBack(p.state, d.state), !d.reply.Failed?);
      if !d.reply.Failed? {
        AddedView(lib, p.state, h1, req, io2, d.state);
        StepRefines(lib, allowToggle, d.state, h2, GetStatus, io3);
      }
    }
  }

  lemma NoBackWithTable(lib: Lib, s: State, h: Held)
    requires Holds(lib, s, h)
    ensures h.installed.None? <==> s.kernel.None?
  {
  }

  /** A reading call leaves the view. */
  lemma SameView(lib: Lib, s: State, h: Held, op: Op, io: Io, t: State)
    requires Holds(lib, s, h) && (op.GetStatus? || op.Preview?)
    ensures View(lib, HStep(lib, h, op, io, CameBack(s, t), true)) == View(lib, h)
  {
    hide Holds;
    NoBackWithTable(lib, s, h);
    if CameBack(s, t) {
      BackView(lib, h, io);
    }
  }

  /** After a change Status shows the reading of the changed list. */
  lemma ChangedView(lib: Lib, s: State, h: Held, op: Op, io: Io, t: State)
    requires Holds(lib, s, h) && Changes(op)
    ensures View(lib, HStep(lib, h, op, io, CameBack(s, t), true)) == Read(lib, Changed(lib, View(lib, h), op))
  {
    hide Holds, Reload, Read, Changed;
    NoBackWithTable(lib, s, h);
    if CameBack(s, t) {
      BackView(lib, h, io);
    }
  }

  lemma AddedView(lib: Lib, s: State, h: Held, req: RuleAddReq, io: Io, t: State)
    requires Lawful(lib) && Holds(lib, s, h) && RequestedRule(lib, req).Ok?
    ensures var v, r := View(lib, h), RequestedRule(lib, req).value;
            View(lib, HStep(lib, h, Add(req), io, CameBack(s, t), true)) == L.Loaded(v.enabled, AddedList(lib, v.rules, Cut(r)))
  {
    ChangedView(lib, s, h, Add(req), io, t);
    ReadAdded(lib, if h.installed.Some? then h.installed.value else Reload(lib, h), RequestedRule(lib, req).value);
    hide Holds, RequestedRule, Reload, AddedList, HStep, Norm, D.ReadNames;
  }
}
