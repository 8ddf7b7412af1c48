/** With plain interface names and working files the firewall API holds one list (nftfw.go: Call and behind it). */
module PlainRuns {
  import opened GoLib
  import opened Rules
  import K = Kernel
  import opened Emit
  import D = Decode
  import C = Conf
  import L = LoadConf
  import opened Firewall
  import opened Runs

  /** The effect of an operation that does not fail; `managed` says whether the boot file is the agent's. */
  function AStep(lib: Lib, a: L.Loaded, op: Op, managed: bool): L.Loaded {
    if op.TableVanishes? then (if managed then a else EMPTY)
    else if Changes(op) then
      var l := Changed(lib, a, op);
      l.(rules := Norm(lib, l.rules))
    else a
  }

  /** Names that both encodings give back. */
  predicate Plain(lib: Lib, rs: seq<LRule>) {
    forall i | 0 <= i < |rs| :: C.PlainName(lib, rs[i].iface) && K.KernelName(rs[i].iface)
  }

  predicate PlainHeld(lib: Lib, h: Held) {
    && (h.installed.Some? ==> Plain(lib, h.installed.value.rules))
    && (h.saved.Some? ==> Plain(lib, h.saved.value.rules))
  }

  /** The boot file is written when asked, and can be read when its owner is checked. */
  predicate FilesWork(io: Io) {
    io.write && io.recoverWrite && io.check && (io.recoverCheck || io.recoverCheckAgain)
  }

  predicate PlainRequest(lib: Lib, op: Op) {
    op.Add? && RequestedRule(lib, op.req).Ok? ==> C.PlainName(lib, RequestedRule(lib, op.req).value.iface)
  }

  /** The machine shows one list, and would show it again after losing the table, unless the file is foreign. */
  predicate OneList(lib: Lib, h: Held, a: L.Loaded) {
    && PlainHeld(lib, h) && View(lib, h) == a
    && Read(lib, Reload(lib, h)) == (if h.foreign then EMPTY else a) && (h.foreign ==> h.saved == None)
  }

  /** A host without the table and without a file of the agent's starts with the empty list. */
  lemma StartOneList(lib: Lib, foreign: bool)
    ensures OneList(lib, Held(None, None, foreign), EMPTY)
  {
    assert D.ReadNames([]) == [] && Canon(lib, []) == [];
  }

  lemma {:induction false} PlainQuoted(lib: Lib, name: string)
    requires C.PlainName(lib, name)
    ensures C.QuoteBody(lib, name) == name
    decreases |name|
  {
    if name != "" {
      var n := C.RuneWidth(lib, name);
      PlainQuoted(lib, name[n..]);
      assert name == name[..n] + name[n..];
    }
  }

  lemma {:induction false} MergePlain(lib: Lib, rs: seq<LRule>)
    requires Plain(lib, rs)
    ensures Plain(lib, Merge(rs))
  {
    hide C.PlainName, K.KernelName;
    if rs == [] {
    } else if |rs| > 1 && Twin(rs[0], rs[1]) {
      MergePlain(lib, rs[2..]);
    } else {
      MergePlain(lib, rs[1..]);
    }
  }

  lemma PlainRead(lib: Lib, l: L.Loaded)
    requires Plain(lib, l.rules)
    ensures Read(lib, l) == l.(rules := Norm(lib, l.rules)) && Plain(lib, Read(lib, l).rules)
  {
    hide C.PlainName, Norm;
    forall i | 0 <= i < |l.rules| ensures D.ReadNames(l.rules)[i] == l.rules[i] {
      D.ReadNameExactly(l.rules[i].iface);
    }
    assert D.ReadNames(l.rules) == l.rules;
    NormPlain(lib, l.rules);
  }

  lemma NormPlain(lib: Lib, rs: seq<LRule>)
    requires Plain(lib, rs)
    ensures Plain(lib, Norm(lib, rs))
  {
    hide C.PlainName, K.KernelName;
    MergePlain(lib, Canon(lib, rs));
  }

  lemma PlainReload(lib: Lib, h: Held, l: L.Loaded)
    requires h.saved == Some(l) && Plain(lib, l.rules)
    ensures Reload(lib, h) == l.(rules := Merge(l.rules)) && Plain(lib, Reload(lib, h).rules)
    ensures Read(lib, Reload(lib, h)) == Read(lib, l)
  {
    hide C.PlainName, Norm;
    forall i | 0 <= i < |l.rules| ensures C.QuotedAll(lib, l.rules)[i] == l.rules[i] {
      PlainQuoted(lib, l.rules[i].iface);
    }
    assert C.QuotedAll(lib, l.rules) == l.rules;
    MergePlain(lib, l.rules);
    PlainRead(lib, l);
    PlainRead(lib, Reload(lib, h));
    ExpandMerge(l.rules);
    NormOfSameExpansion(lib, Merge(l.rules), l.rules);
  }

  /** A plain list put into a machine whose files work. */
  lemma PutOneList(lib: Lib, h: Held, a: L.Loaded, l: L.Loaded, readable: bool)
    requires OneList(lib, h, a) && Plain(lib, l.rules) && readable
    ensures OneList(lib, Put(h, l, readable, true), l.(rules := Norm(lib, l.rules)))
    ensures Put(h, l, readable, true).foreign == h.foreign
  {
    hide C.PlainName, Norm, K.KernelName, Plain;
    PlainRead(lib, l);
    var t := Put(h, l, readable, true);
    if h.foreign {
      assert t.saved == None && Reload(lib, t) == EMPTY;
    } else {
      PlainReload(lib, t, l);
    }
  }

  lemma ReloadPlain(lib: Lib, h: Held)
    requires PlainHeld(lib, h)
    ensures Plain(lib, Reload(lib, h).rules) && Reload(lib, h).(rules := Norm(lib, Reload(lib, h).rules)) == Read(lib, Reload(lib, h))
  {
    hide C.PlainName, Norm, K.KernelName;
    if h.saved.Some? {
      PlainReload(lib, h, h.saved.value);
    }
    PlainRead(lib, Reload(lib, h));
  }

  lemma ChangedPlain(lib: Lib, a: L.Loaded, op: Op)
    requires Lawful(lib) && Plain(lib, a.rules) && PlainRequest(lib, op)
    ensures Plain(lib, Changed(lib, a, op).rules)
  {
    hide C.PlainName, RequestedRule;
    if op.Add? && RequestedRule(lib, op.req).Ok? {
      C.PlainNoNul(lib, RequestedRule(lib, op.req).value.iface);
    }
  }

  lemma ViewPlain(lib: Lib, h: Held)
    requires PlainHeld(lib, h)
    ensures Plain(lib, View(lib, h).rules)
  {
    hide C.PlainName, K.KernelName, Norm;
    ReloadPlain(lib, h);
    PlainRead(lib, if h.installed.Some? then h.installed.value else Reload(lib, h));
  }

  lemma SameSaved(lib: Lib, h: Held, t: Held)
    requires t.saved == h.saved
    ensures Reload(lib, t) == Reload(lib, h)
  {
  }

  /** One step keeps one list. */
  lemma OneListStep(lib: Lib, h: Held, a: L.Loaded, op: Op, io: Io, back: bool, ok: bool)
    requires Lawful(lib) && OneList(lib, h, a) && FilesWork(io) && PlainRequest(lib, op)
    requires (back ==> h.installed.None?) && (op.TableVanishes? ==> ok)
    ensures var t := HStep(lib, h, op, io, back, ok);
            OneList(lib, t, if ok then AStep(lib, a, op, !h.foreign) else a) && t.foreign == h.foreign
  {
    hide C.PlainName, Norm, K.KernelName, Changed, Plain, Put, Reload, RequestedRule;
    ReloadPlain(lib, h);
    if op.TableVanishes? || op.ChainsChange? {
      SameSaved(lib, h, h.(installed := None));
      return;
    }
    if back {
      PutOneList(lib, h, a, Reload(lib, h), io.recoverCheck || io.recoverCheckAgain);
    }
    var h1 := Tried(lib, h, io, back);
    assert OneList(lib, h1, a) && h1.foreign == h.foreign;
    if ok && Changes(op) {
      ViewPlain(lib, h1);
      ChangedPlain(lib, a, op);
      PutOneList(lib, h1, a, Changed(lib, a, op), io.check);
    }
  }

  predicate GoodEvents(lib: Lib, evs: seq<Event>) {
    forall i | 0 <= i < |evs| :: FilesWork(evs[i].io) && PlainRequest(lib, evs[i].op)
  }

  function ARun(lib: Lib, a: L.Loaded, evs: seq<Event>, seen: seq<Seen>, managed: bool): L.Loaded
    requires |seen| == |evs|
    decreases |evs|
  {
    if evs == [] then a
    else ARun(lib, if seen[0].ok then AStep(lib, a, evs[0].op, managed) else a, evs[1..], seen[1..], managed)
  }

  /** Every answer that is not a failure is the one list's at that point. */
  predicate AAnswers(lib: Lib, allowToggle: bool, a: L.Loaded, evs: seq<Event>, seen: seq<Seen>, managed: bool)
    requires |seen| == |evs|
    decreases |evs|
  {
    evs == [] ||
    ((seen[0].ok ==> seen[0].reply == HReply(lib, allowToggle, a, evs[0].op))
     && AAnswers(lib, allowToggle, if seen[0].ok then AStep(lib, a, evs[0].op, managed) else a, evs[1..], seen[1..], managed))
  }

  /** With plain names and working files the API is a machine that holds one flag and one normal-form list, and that the
      vanishing of the table does not touch. */
  lemma {:induction false} PlainRunRefines(lib: Lib, allowToggle: bool, s: State, h: Held, a: L.Loaded, evs: seq<Event>)
    requires Lawful(lib) && Holds(lib, s, h) && OneList(lib, h, a) && GoodEvents(lib, evs)
    ensures var seen := RunSeen(lib, allowToggle, s, evs);
            && View(lib, HRun(lib, h, evs, seen)) == ARun(lib, a, evs, seen, !h.foreign)
            && AAnswers(lib, allowToggle, a, evs, seen, !h.foreign)
    decreases |evs|
  {
    hide Holds, Performed, HStep, HReply, View, AStep, FilesWork, PlainRequest, Read, Reload;
    if evs != [] {
      var o := Performed(lib, allowToggle, s, evs[0].op, evs[0].io);
      var seen := RunSeen(lib, allowToggle, s, evs);
      assert FilesWork(evs[0].io) && PlainRequest(lib, evs[0].op);
      StepRefines(lib, allowToggle, s, h, evs[0].op, evs[0].io);
      NoBackWithTable(lib, s, h);
      VanishingSucceeds(lib, allowToggle, s, evs[0].op, evs[0].io);
      OneListStep(lib, h, a, evs[0].op, evs[0].io, seen[0].back, seen[0].ok);
      var t := HStep(lib, h, evs[0].op, evs[0].io, seen[0].back, seen[0].ok);
      assert GoodEvents(lib, evs[1..]);
      PlainRunRefines(lib, allowToggle, o.state, t, if seen[0].ok then AStep(lib, a, evs[0].op, !h.foreign) else a, evs[1..]);
      assert seen[1..] == RunSeen(lib, allowToggle, o.state, evs[1..]);
    }
  }

  lemma VanishingSucceeds(lib: Lib, allowToggle: bool, s: State, op: Op, io: Io)
    ensures op.TableVanishes? ==> !Performed(lib, allowToggle, s, op, io).reply.Failed?
  {
  }
}
