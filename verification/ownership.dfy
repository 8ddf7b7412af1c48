/** Who owns the boot file over runs of the firewall API (conf.go: confForeign; nftfw.go: persistConf). */
module Ownership {
  import opened GoLib
  import opened Rules
  import opened Emit
  import D = Decode
  import B = BootConf
  import L = LoadConf
  import X = Conflict
  import opened Firewall
  import opened Runs

  predicate Marked(conf: L.ConfFile) {
    conf.File? && Contains(conf.text, B.MARKER)
  }

  lemma PersistedMarked(lib: Lib, s: State, enabled: bool, rs: seq<LRule>, readable: bool, writes: bool)
    ensures var p := Persisted(lib, s, enabled, rs, readable, writes); p.conf == s.conf || Marked(p.conf)
  {
    B.MarkerWritten(lib, enabled, rs);
  }

  lemma InitializedMarked(lib: Lib, s: State, io: Io)
    ensures var i := Initialized(lib, s, io); i.state.conf == s.conf || Marked(i.state.conf)
  {
    hide Persisted, Build, Marked, ConfState;
    var l := ConfState(lib, s.conf);
    PersistedMarked(lib, s.(kernel := Some(Build(lib, l.enabled, l.rules))), l.enabled, l.rules,
                    io.recoverCheck || io.recoverCheckAgain, io.recoverWrite);
  }

  lemma MutatedMarked(lib: Lib, s: State, change: Change, io: Io)
    ensures var m := Mutated(lib, s, change, io); m.state.conf == s.conf || Marked(m.state.conf)
  {
    hide Persisted, Build, Marked, Initialized, Logical, X.Clear;
    InitializedMarked(lib, s, io);
    var i := Initialized(lib, s, io);
    if i.error == None && i.state.kernel.Some? {
      var c := change(Logical(lib, i.state.kernel.value));
      if c.Ok? {
        PersistedMarked(lib, i.state.(kernel := Some(Build(lib, c.value.enabled, c.value.rules))), c.value.enabled, c.value.rules,
                        io.check, io.write);
      }
    }
  }

  lemma StepMarked(lib: Lib, allowToggle: bool, s: State, op: Op, io: Io)
    ensures var c := Performed(lib, allowToggle, s, op, io).state.conf; c == s.conf || Marked(c)
  {
    hide Mutated, Marked, Initialized, Logical, RequestedRule, Rendered;
    InitializedMarked(lib, s, io);
    match op
    case Add(req) =>
      if RequestedRule(lib, req).Ok? {
        MutatedMarked(lib, s, AddChange(RequestedRule(lib, req).value), io);
      }
    case Delete(n) => MutatedMarked(lib, s, DeleteChange(n), io);
    case Toggle(on) => MutatedMarked(lib, s, ToggleChange(on), io);
    case _ =>
  }

  /** Whatever fails along the way, a run leaves the file as it was or with the agent's marker, which is never foreign;
      so once the file is the agent's it stays so. */
  lemma {:induction false} WrittenFilesMarked(lib: Lib, allowToggle: bool, s: State, evs: seq<Event>)
    ensures var c := RunState(lib, allowToggle, s, evs).conf;
            (c == s.conf || Marked(c)) && (Marked(c) ==> !L.Foreign(lib, c))
    decreases |evs|
  {
    hide Performed, Marked;
    if evs != [] {
      StepMarked(lib, allowToggle, s, evs[0].op, evs[0].io);
      WrittenFilesMarked(lib, allowToggle, Performed(lib, allowToggle, s, evs[0].op, evs[0].io).state, evs[1..]);
    } else {
      MarkedNotForeign(lib, s.conf);
    }
  }

  lemma MarkedNotForeign(lib: Lib, c: L.ConfFile)
    ensures Marked(c) ==> !L.Foreign(lib, c)
  {
  }

  /** Recovery comes to the point where it writes the boot file. */
  predicate RecoveryPersists(s: State, io: Io) {
    && io.tables && s.kernel.None? && (s.conf.File? ==> io.confRead) && io.recoverScan && X.Clear(s.chains)
    && io.recoverApply
  }

  /** The request is one that the API acts on. */
  predicate Accepted(lib: Lib, allowToggle: bool, op: Op) {
    match op
    case Add(req) => RequestedRule(lib, req).Ok?
    case Preview(req) => RequestedRule(lib, req).Ok?
    case Delete(n) => n >= 1
    case Toggle(_) => allowToggle
    case _ => true
  }

  /** The rules a call finds when the boot file is foreign: recovery installs none. */
  function Found(lib: Lib, s: State): nat {
    if s.kernel.Some? then |Logical(lib, s.kernel.value).rules| else 0
  }

  /** A change comes to the point where it writes the boot file. */
  predicate ChangePersists(lib: Lib, s: State, op: Op, io: Io) {
    && Changes(op) && io.tables && (s.kernel.Some? || RecoveryPersists(s, io))
    && io.scan && X.Clear(s.chains) && io.read && (op.Delete? ==> op.number <= Found(lib, s)) && io.apply
  }

  /** A step that writes over a foreign boot file: it comes to a write, the checks before it cannot read the file, and
      the write succeeds. */
  predicate Overwrites(lib: Lib, allowToggle: bool, s: State, op: Op, io: Io) {
    && !op.TableVanishes? && !op.ChainsChange? && Accepted(lib, allowToggle, op)
    && ((RecoveryPersists(s, io) && !io.recoverCheck && !io.recoverCheckAgain && io.recoverWrite)
        || (ChangePersists(lib, s, op, io) && !io.check && io.write))
  }

  lemma NoRulesFound(lib: Lib)
    requires Lawful(lib)
    ensures Logical(lib, Build(lib, false, [])).rules == []
  {
    D.ReadBuilt(lib, false, []);
    assert D.ReadNames([]) == [] && Canon(lib, []) == [];
  }

  /** What is written differs from a foreign file. */
  lemma PersistedForeign(lib: Lib, s: State, enabled: bool, rs: seq<LRule>, readable: bool, writes: bool)
    ensures var p := Persisted(lib, s, enabled, rs, readable, writes);
            && p.kernel == s.kernel && p.chains == s.chains
            && (L.Foreign(lib, s.conf) ==> (p.conf == s.conf <==> readable || !writes))
            && (p.conf != s.conf ==> Marked(p.conf))
  {
    hide B.ConfText, L.ForeignText;
    B.MarkerWritten(lib, enabled, rs);
    L.WrittenNeverForeign(lib, enabled, rs);
  }

  lemma InitializedForeign(lib: Lib, s: State, io: Io)
    requires Lawful(lib) && L.Foreign(lib, s.conf)
    ensures var i := Initialized(lib, s, io);
            && (i.state.conf != s.conf <==>
                  RecoveryPersists(s, io) && !io.recoverCheck && !io.recoverCheckAgain && io.recoverWrite)
            && (i.state.conf != s.conf ==> Marked(i.state.conf))
            && (i.error == None <==> io.tables && (s.kernel.Some? || RecoveryPersists(s, io)))
            && i.state.chains == s.chains && (i.error == None ==> i.state.kernel.Some?)
            && (i.error == None ==> |Logical(lib, i.state.kernel.value).rules| == Found(lib, s))
  {
    hide Persisted, Build, Marked, L.ForeignText, Logical;
    ForeignUnmarked(lib, s.conf.text);
    NoRulesFound(lib);
    PersistedForeign(lib, s.(kernel := Some(Build(lib, false, []))), false, [], io.recoverCheck || io.recoverCheckAgain, io.recoverWrite);
  }

  lemma ForeignUnmarked(lib: Lib, text: string)
    ensures L.ForeignText(lib, text) ==> !Contains(text, B.MARKER) && L.LoadText(lib, text) == EMPTY
  {
  }

  lemma MutatedForeign(lib: Lib, s: State, op: Op, io: Io)
    requires Lawful(lib) && L.Foreign(lib, s.conf) && Changes(op) && (op.Add? ==> RequestedRule(lib, op.req).Ok?)
    requires op.Delete? ==> op.number >= 1
    ensures var m := Mutated(lib, s, ChangeOf(lib, op), io);
            && (m.state.conf != s.conf <==>
                  (RecoveryPersists(s, io) && !io.recoverCheck && !io.recoverCheckAgain && io.recoverWrite)
                  || (ChangePersists(lib, s, op, io) && !io.check && io.write))
            && (m.state.conf != s.conf ==> Marked(m.state.conf))
  {
    hide Initialized, Persisted, Build, Marked, L.ForeignText, Logical, RequestedRule, X.Clear, RecoveryPersists;
    InitializedForeign(lib, s, io);
    var i := Initialized(lib, s, io);
    if i.error == None {
      var c := ChangeOf(lib, op)(Logical(lib, i.state.kernel.value));
      if c.Ok? {
        var s1 := i.state.(kernel := Some(Build(lib, c.value.enabled, c.value.rules)));
        PersistedForeign(lib, s1, c.value.enabled, c.value.rules, io.check, io.write);
        MarkedNotForeign(lib, s.conf);
      }
    }
  }

  /** A step changes a foreign boot file exactly when it comes to a write with the file unreadable to the checks before
      it, and the write succeeds. */
  lemma ForeignStepExactly(lib: Lib, allowToggle: bool, s: State, op: Op, io: Io)
    requires Lawful(lib) && L.Foreign(lib, s.conf)
    ensures var t := Performed(lib, allowToggle, s, op, io).state;
            (t.conf != s.conf <==> Overwrites(lib, allowToggle, s, op, io)) && (t.conf != s.conf ==> Marked(t.conf))
  {
    hide Initialized, Mutated, Marked, L.Foreign, Logical, RequestedRule, Rendered, RecoveryPersists, ChangePersists;
    InitializedForeign(lib, s, io);
    if Changes(op) && Accepted(lib, allowToggle, op) {
      MutatedForeign(lib, s, op, io);
    } else if !Changes(op) {
      assert !ChangePersists(lib, s, op, io) by { NoChange(lib, s, op, io); }
    }
  }

  lemma NoChange(lib: Lib, s: State, op: Op, io: Io)
    requires !Changes(op)
    ensures !ChangePersists(lib, s, op, io)
  {
  }

  /** No step of the run writes over the foreign file. */
  predicate NeverOverwrites(lib: Lib, allowToggle: bool, s: State, evs: seq<Event>)
    decreases |evs|
  {
    evs == [] ||
    (!Overwrites(lib, allowToggle, s, evs[0].op, evs[0].io)
     && NeverOverwrites(lib, allowToggle, Performed(lib, allowToggle, s, evs[0].op, evs[0].io).state, evs[1..]))
  }

  /** A foreign file keeps its bytes through a run exactly when no step writes over it unread; once written over it
      never comes back. */
  lemma {:induction false} ForeignFileKeptExactly(lib: Lib, allowToggle: bool, s: State, evs: seq<Event>)
    requires Lawful(lib) && L.Foreign(lib, s.conf)
    ensures RunState(lib, allowToggle, s, evs).conf == s.conf <==> NeverOverwrites(lib, allowToggle, s, evs)
    decreases |evs|
  {
    hide Performed, Overwrites, L.Foreign, Marked;
    if evs != [] {
      ForeignStepExactly(lib, allowToggle, s, evs[0].op, evs[0].io);
      var t := Performed(lib, allowToggle, s, evs[0].op, evs[0].io).state;
      if t.conf == s.conf {
        ForeignFileKeptExactly(lib, allowToggle, t, evs[1..]);
      } else {
        WrittenFilesMarked(lib, allowToggle, t, evs[1..]);
        MarkedNotForeign(lib, t.conf);
        MarkedNotForeign(lib, s.conf);
      }
    }
  }

  /** The check that fails once is enough: a toggle with everything else working replaces a foreign file. */
  lemma UnreadableForeignReplaced(lib: Lib, s: State)
    requires Lawful(lib) && L.Foreign(lib, s.conf) && s.kernel.Some? && X.Clear(s.chains)
    ensures Performed(lib, true, s, Toggle(true), LUCKY.(check := false)).state.conf != s.conf
    ensures Performed(lib, true, s, Toggle(true), LUCKY).state.conf == s.conf
  {
    hide Performed, X.Clear, L.Foreign, Logical;
    ForeignStepExactly(lib, true, s, Toggle(true), LUCKY.(check := false));
    ForeignStepExactly(lib, true, s, Toggle(true), LUCKY);
  }
}
