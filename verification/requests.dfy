/** What the calls of the API mean in the words of the wire: which requests are refused, what an accepted one does to
    packets, and what Status shows after a change (nftfw.go: Call and the operations behind it). */
module Requests {
  import opened GoLib
  import opened Rules
  import K = Kernel
  import opened Emit
  import M = Meaning
  import D = Decode
  import L = LoadConf
  import X = Conflict
  import opened Firewall
  import opened Runs
  import O = Ownership

  // ---- what a request asks for ---------------------------------------------------------------------------

  predicate NameText(s: string) {
    |s| <= 15 && forall i | 0 <= i < |s| :: s[i] != '"' && s[i] != '\\' && s[i] != ' ' && s[i] != '\t'
  }

  predicate Anywhere(from: string) {
    from == "" || from == "any" || from == "Anywhere"
  }

  /** A request is accepted exactly when its words, its port, its trimmed address and its trimmed interface name are in
      order, and the rule it stands for says what they say. */
  lemma RequestExactly(lib: Lib, req: RuleAddReq, r: LRule)
    ensures RequestedRule(lib, req) == Ok(r) <==>
            && 1 <= req.port <= 65535 && r.port == req.port
            && (match r.proto case Tcp => req.protocol == "tcp" case Udp => req.protocol == "udp" case Both => req.protocol == "both")
            && (match r.action case Allow => req.action == "allow" case Deny => req.action == "deny" case Reject => req.action == "reject")
            && (var from := lib.trimSpace(req.from);
                if Anywhere(from) then r.from == "" else r.from == from && lib.parseIP(from).Some?)
            && r.iface == lib.trimSpace(req.iface) && NameText(r.iface)
  {
    DifferentWords();
  }

  lemma DifferentWords()
    ensures "tcp" != "udp" && "tcp" != "both" && "udp" != "both"
    ensures "allow" != "deny" && "allow" != "reject" && "deny" != "reject"
  {
    assert "tcp"[0] == 't' && "udp"[0] == 'u' && "both"[0] == 'b';
    assert "allow"[0] == 'a' && "deny"[0] == 'd' && "reject"[0] == 'r';
  }

  predicate WordsOk(req: RuleAddReq) {
    && 1 <= req.port <= 65535 && (req.protocol == "tcp" || req.protocol == "udp" || req.protocol == "both")
    && (req.action == "allow" || req.action == "deny" || req.action == "reject")
  }

  /** The first thing wrong with a request. */
  function Complaint(lib: Lib, req: RuleAddReq): Option<string> {
    var from := lib.trimSpace(req.from);
    if !WordsOk(req) then Some("protocol (tcp|udp|both), port (1-65535) and action (allow|deny|reject) required")
    else if !Anywhere(from) && lib.parseIP(from).None? then Some("invalid 'from' address")
    else if !NameText(lib.trimSpace(req.iface)) then Some("invalid 'interface' name")
    else None
  }

  /** An add or preview with something wrong is answered with that, and changes nothing; nothing else is refused so. */
  lemma RefusedExactly(lib: Lib, allowToggle: bool, s: State, req: RuleAddReq, io: Io)
    ensures RequestedRule(lib, req).Ok? <==> Complaint(lib, req).None?
    ensures Complaint(lib, req).Some? ==>
              var o := Outcome(s, Failed(Complaint(lib, req).value));
              Performed(lib, allowToggle, s, Add(req), io) == o && Performed(lib, allowToggle, s, Preview(req), io) == o
  {
  }

  /** Numbers below one and toggles against the configuration are refused outright, whatever the state. */
  lemma RefusedOutright(lib: Lib, allowToggle: bool, s: State, n: int, on: bool, io: Io)
    ensures n < 1 ==> Performed(lib, allowToggle, s, Delete(n), io) == Outcome(s, Failed("number required"))
    ensures !allowToggle ==> Performed(lib, allowToggle, s, Toggle(on), io) == Outcome(s, Failed("toggle disabled by config"))
  {
  }

  /** With everything working and no shadowing chain, a delete is refused exactly when Status shows no rule of that
      number. */
  lemma RangeRefusedExactly(lib: Lib, allowToggle: bool, s: State, h: Held, n: int, io: Io, shown: Status)
    requires Lawful(lib) && Holds(lib, s, h) && X.Clear(s.chains) && CallsWork(io) && n >= 1
    requires Performed(lib, allowToggle, s, GetStatus, io).reply == StatusReply(shown)
    ensures Performed(lib, allowToggle, s, Delete(n), io).reply ==
            if exists i :: 0 <= i < |shown.rules| && shown.rules[i].number == n then Done else Failed("rule number out of range")
  {
    hide Performed, Holds, View, X.Clear, Rendered;
    StepAnswers(lib, allowToggle, s, h, GetStatus, io);
    StepAnswers(lib, allowToggle, s, h, Delete(n), io);
    var v := View(lib, h);
    assert forall i | 0 <= i < |v.rules| :: shown.rules[i].number == i + 1;
    if n <= |v.rules| {
      assert shown.rules[n - 1].number == n;
    }
  }

  /** What goes wrong before a call comes to its own work: no kernel, or a boot file that is needed and cannot be read. */
  lemma OutsideFailures(lib: Lib, allowToggle: bool, s: State, op: Op, io: Io)
    requires O.Accepted(lib, allowToggle, op) && !op.TableVanishes? && !op.ChainsChange?
    ensures !io.tables ==> Performed(lib, allowToggle, s, op, io) == Outcome(s, Failed("firewall unavailable"))
    ensures io.tables ==>
              (Performed(lib, allowToggle, s, op, io) == Outcome(s, Failed("boot config unreadable"))
               <==> s.kernel.None? && s.conf.File? && !io.confRead)
  {
    hide Rendered, Build, Logical, Persisted, ConfState, X.Clear, RequestedRule;
    DifferentReplies();
  }

  // ---- what an accepted add does to packets ------------------------------------------------------------------

  /** The packet is one that the request speaks of. */
  predicate Asks(lib: Lib, req: RuleAddReq, pkt: K.Packet) {
    var from := lib.trimSpace(req.from);
    && M.NameMatches(lib.trimSpace(req.iface), pkt.iif)
    && (Anywhere(from) || (lib.parseIP(from).Some? && M.SourceBytes(lib.parseIP(from).value, pkt.nh + pkt.th)))
    && (if req.protocol == "tcp" then pkt.l4proto == 6 else if req.protocol == "udp" then pkt.l4proto == 17
        else pkt.l4proto == 6 || pkt.l4proto == 17)
    && |pkt.th| >= 4 && pkt.th[2] as int < 256 && pkt.th[3] as int < 256
    && pkt.th[2] as int * 256 + pkt.th[3] as int == req.port
  }

  function Granted(req: RuleAddReq, l4proto: nat): K.Outcome {
    if req.action == "allow" then K.Accepted
    else if req.action == "deny" then K.Dropped
    else if l4proto == 6 then K.Rejected(1, 0)
    else K.Rejected(2, 1)
  }

  lemma AsksMatches(lib: Lib, req: RuleAddReq, pkt: K.Packet)
    requires RequestedRule(lib, req).Ok?
    ensures var r := RequestedRule(lib, req).value;
            (M.RuleMatches(lib, r, pkt) <==> Asks(lib, req, pkt)) && M.ActionOutcome(r.action, pkt.l4proto) == Granted(req, pkt.l4proto)
  {
    var r := RequestedRule(lib, req).value;
    RequestExactly(lib, req, r);
    DifferentWords();
    hide RequestedRule, M.NameMatches, M.SourceBytes;
    if !Anywhere(lib.trimSpace(req.from)) {
      assert r.from != "";
    }
  }

  predicate SomeMatch(lib: Lib, rs: seq<LRule>, pkt: K.Packet) {
    exists i :: 0 <= i < |rs| && M.RuleMatches(lib, rs[i], pkt)
  }

  lemma {:induction false} FirstMatchSnoc(lib: Lib, rs: seq<LRule>, r: LRule, pkt: K.Packet)
    ensures M.FirstMatch(lib, rs + [r], pkt) ==
            if SomeMatch(lib, rs, pkt) then M.FirstMatch(lib, rs, pkt)
            else if M.RuleMatches(lib, r, pkt) then M.ActionOutcome(r.action, pkt.l4proto)
            else K.Dropped
  {
    hide M.RuleMatches;
    var all := rs + [r];
    if rs == [] {
      assert all[0] == r && all[1..] == [];
    } else {
      assert all[0] == rs[0] && all[1..] == rs[1..] + [r];
      FirstMatchSnoc(lib, rs[1..], r, pkt);
      SomeMatchCons(lib, rs, pkt);
    }
  }

  lemma SomeMatchCons(lib: Lib, rs: seq<LRule>, pkt: K.Packet)
    requires rs != []
    ensures SomeMatch(lib, rs, pkt) <==> M.RuleMatches(lib, rs[0], pkt) || SomeMatch(lib, rs[1..], pkt)
  {
    hide M.RuleMatches;
    if SomeMatch(lib, rs, pkt) {
      var i :| 0 <= i < |rs| && M.RuleMatches(lib, rs[i], pkt);
      assert i > 0 ==> rs[1..][i - 1] == rs[i];
    }
    if SomeMatch(lib, rs[1..], pkt) {
      var i :| 0 <= i < |rs[1..]| && M.RuleMatches(lib, rs[1..][i], pkt);
      assert rs[i + 1] == rs[1..][i];
    }
  }

  /** Neither the kernel's connection tracking nor the loopback guard lets the packet through. */
  predicate PastGuards(pkt: K.Packet) {
    pkt.ct != K.CtEstablished && pkt.ct != K.CtRelated && pkt.iif != "lo"
  }

  /** Once an add is answered Done, the packets it speaks of get what it asks for, unless a rule shown before it decides
      them, and every other packet what it got before. */
  lemma AddDecides(lib: Lib, allowToggle: bool, s: State, h: Held, req: RuleAddReq, io: Io, pkt: K.Packet)
    requires Lawful(lib) && Holds(lib, s, h) && K.ValidPacket(pkt) && PastGuards(pkt)
    requires Performed(lib, allowToggle, s, Add(req), io).reply == Done
    ensures var t, v := Performed(lib, allowToggle, s, Add(req), io).state, View(lib, h);
            && t.kernel.Some?
            && K.TableVerdict(t.kernel.value, pkt) ==
               if !v.enabled then K.Accepted
               else if SomeMatch(lib, v.rules, pkt) then M.FirstMatch(lib, v.rules, pkt)
               else if Asks(lib, req, pkt) then Granted(req, pkt.l4proto)
               else K.Dropped
  {
    hide Performed, Holds, View, RequestedRule, K.TableVerdict, M.FirstMatch, M.RuleMatches, Asks;
    AddInstalls(lib, allowToggle, s, h, req, io, pkt);
    var v, r := View(lib, h), RequestedRule(lib, req).value;
    FirstMatchSnoc(lib, v.rules, r, pkt);
    AsksMatches(lib, req, pkt);
  }

  lemma AddInstalls(lib: Lib, allowToggle: bool, s: State, h: Held, req: RuleAddReq, io: Io, pkt: K.Packet)
    requires Lawful(lib) && Holds(lib, s, h) && K.ValidPacket(pkt)
    requires Performed(lib, allowToggle, s, Add(req), io).reply == Done
    ensures RequestedRule(lib, req).Ok?
    ensures var t, v := Performed(lib, allowToggle, s, Add(req), io).state, View(lib, h);
            && t.kernel.Some?
            && K.TableVerdict(t.kernel.value, pkt) == M.Intended(lib, v.enabled, v.rules + [RequestedRule(lib, req).value], pkt)
  {
    hide Mutated, Holds, View, RequestedRule, K.TableVerdict, M.Intended, Build;
    assert RequestedRule(lib, req).Ok?;
    var op := Add(req);
    ChangeStorable(lib, s, h, op);
    MutatedRefines(lib, s, h, ChangeOf(lib, op), io);
    var t, l := Performed(lib, allowToggle, s, op, io).state, Changed(lib, View(lib, h), op);
    PutKernel(lib, t, Tried(lib, h, io, CameBack(s, t)), l, io);
    M.CompiledMeaning(lib, l.enabled, l.rules, pkt);
  }

  /** With no rules before and the firewall on, an allow request opens its port to the packets it speaks of and to no
      others: one with a source only to packets with that address in their source bytes. */
  lemma OpensOnlyWhatIsAsked(lib: Lib, allowToggle: bool, s: State, h: Held, req: RuleAddReq, io: Io, pkt: K.Packet)
    requires Lawful(lib) && Holds(lib, s, h) && K.ValidPacket(pkt) && PastGuards(pkt)
    requires View(lib, h) == L.Loaded(true, []) && req.action == "allow"
    requires Performed(lib, allowToggle, s, Add(req), io).reply == Done
    ensures var t := Performed(lib, allowToggle, s, Add(req), io).state;
            t.kernel.Some? && (K.TableVerdict(t.kernel.value, pkt) == K.Accepted <==> Asks(lib, req, pkt))
  {
    hide Performed, Holds, View, K.TableVerdict, Asks;
    AddDecides(lib, allowToggle, s, h, req, io, pkt);
  }

  // ---- what Status shows after a change ------------------------------------------------------------------------

  /** Status, a change, Status again; `before` and `after` are what was shown. */
  predicate Around(lib: Lib, allowToggle: bool, s: State, op: Op, io0: Io, io1: Io, io2: Io, before: Status, after: Status) {
    var p := Performed(lib, allowToggle, s, GetStatus, io0);
    var d := Performed(lib, allowToggle, p.state, op, io1);
    var q := Performed(lib, allowToggle, d.state, GetStatus, io2);
    p.reply == StatusReply(before) && d.reply == Done && q.reply == StatusReply(after)
  }

  lemma ShownAround(lib: Lib, allowToggle: bool, s: State, h: Held, op: Op, io0: Io, io1: Io, io2: Io, before: Status, after: Status)
    requires Lawful(lib) && Holds(lib, s, h) && (op.Delete? || op.Toggle?)
    requires Around(lib, allowToggle, s, op, io0, io1, io2, before, after)
    ensures var v := View(lib, h);
            && before == Rendered(v.enabled, v.rules)
            && (op.Delete? ==> 1 <= op.number <= |v.rules|)
            && (var w := Read(lib, Changed(lib, v, op)); after == Rendered(w.enabled, w.rules))
  {
    hide Holds, Performed, Rendered, Reload, Read, Back;
    StepRefines(lib, allowToggle, s, h, GetStatus, io0);
    var p := Performed(lib, allowToggle, s, GetStatus, io0);
    var h1 := HStep(lib, h, GetStatus, io0, CameBack(s, p.state), true);
    SameView(lib, s, h, GetStatus, io0, p.state);
    StepRefines(lib, allowToggle, p.state, h1, op, io1);
    var d := Performed(lib, allowToggle, p.state, op, io1);
    var h2 := HStep(lib, h1, op, io1, CameBack(p.state, d.state), true);
    ChangedView(lib, p.state, h1, op, io1, d.state);
    StepRefines(lib, allowToggle, d.state, h2, GetStatus, io2);
  }

  /** A toggle shows as asked, and touches no rule. */
  lemma ToggleShows(lib: Lib, allowToggle: bool, s: State, h: Held, on: bool, io0: Io, io1: Io, io2: Io, before: Status, after: Status)
    requires Lawful(lib) && Holds(lib, s, h) && Around(lib, allowToggle, s, Toggle(on), io0, io1, io2, before, after)
    ensures allowToggle && after == before.(enabled := on, defaultIn := if on then "deny" else "allow")
  {
    hide Holds, Around, Read, View;
    ShownAround(lib, allowToggle, s, h, Toggle(on), io0, io1, io2, before, after);
    ToggleAllowed(lib, allowToggle, s, on, io0, io1, io2, before, after);
    var v := View(lib, h);
    ReadAgain(lib, h);
    SameRules(lib, v, on);
    assert after.rules == before.rules;
  }

  lemma ToggleAllowed(lib: Lib, allowToggle: bool, s: State, on: bool, io0: Io, io1: Io, io2: Io, before: Status, after: Status)
    requires Around(lib, allowToggle, s, Toggle(on), io0, io1, io2, before, after)
    ensures allowToggle
  {
    hide Mutated, Shown;
  }

  lemma SameRules(lib: Lib, v: L.Loaded, on: bool)
    requires Norm(lib, D.ReadNames(v.rules)) == v.rules
    ensures Read(lib, v.(enabled := on)) == v.(enabled := on)
  {
  }

  lemma ReadAgain(lib: Lib, h: Held)
    requires Lawful(lib)
    ensures var rs := View(lib, h).rules; Norm(lib, rs) == rs && D.ReadNames(rs) == rs && Norm(lib, D.ReadNames(rs)) == rs
  {
    ReadFixed(lib, if h.installed.Some? then h.installed.value else Reload(lib, h));
  }

  /** Two shown rules that differ in nothing but a tcp and a udp in front of each other. */
  predicate WireTwins(a: WireRule, b: WireRule) {
    && |a.to| > 4 && |b.to| > 4 && a.to[|a.to| - 4..] == "/tcp" && b.to[|b.to| - 4..] == "/udp"
    && a.to[..|a.to| - 4] == b.to[..|b.to| - 4] && a.action == b.action && a.from == b.from && a.iface == b.iface
  }

  /** The rules shown, without the one numbered `n`, numbered anew. */
  predicate Without(before: seq<WireRule>, n: int, after: seq<WireRule>) {
    && 1 <= n <= |before| && |after| == |before| - 1
    && (forall i | 0 <= i < n - 1 :: after[i] == before[i])
    && (forall i | n - 1 <= i < |after| :: MovedUp(before, after, i, 1))
  }

  predicate MovedUp(before: seq<WireRule>, after: seq<WireRule>, i: nat, places: nat) {
    i < |after| && i + places < |before| && after[i] == before[i + places].(number := i + 1)
  }

  /** The same, where the rules on both sides of it were twins and now show as one. */
  predicate WithoutJoined(before: seq<WireRule>, n: int, after: seq<WireRule>) {
    && 2 <= n < |before| && |after| == |before| - 2
    && after[n - 2] == before[n - 2].(to := before[n - 2].to[..AtLeast(|before[n - 2].to| - 4)])
    && (forall i | 0 <= i < n - 2 :: after[i] == before[i])
    && (forall i | n - 1 <= i < |after| :: MovedUp(before, after, i, 2))
  }

  function AtLeast(n: int): nat {
    if n < 0 then 0 else n
  }

  lemma {:induction false} MergeJunction(a: seq<LRule>, b: seq<LRule>)
    requires NoTwins(a) && NoTwins(b)
    ensures Merge(a + b) ==
            if a != [] && b != [] && Twin(a[|a| - 1], b[0]) then a[..|a| - 1] + [WithProto(b[0], Both)] + b[1..] else a + b
  {
    hide Twin;
    var all := a + b;
    if a == [] {
      assert all == b;
      MergeFixesTwinFree(b);
    } else if |a| == 1 {
      assert all == [a[0]] + b;
      MergeBefore(a[0], b);
    } else {
      assert all[1] == a[0 + 1] && all[1..] == a[1..] + b;
      TailTwinFree(a);
      MergeJunction(a[1..], b);
      assert !Twin(a[0], a[0 + 1]);
      assert Merge(all) == [a[0]] + Merge(all[1..]);
      hide Merge;
      assert [a[0]] + a[1..][..|a| - 2] == a[..|a| - 1];
    }
  }

  lemma MergeBefore(r: LRule, b: seq<LRule>)
    requires NoTwins(b)
    ensures Merge([r] + b) == if b != [] && Twin(r, b[0]) then [WithProto(b[0], Both)] + b[1..] else [r] + b
  {
    hide Twin, NoTwins;
    var all := [r] + b;
    TailTwinFree(b);
    MergeFixesTwinFree(b);
    assert all[1..] == b;
    if b != [] {
      assert all[2..] == b[1..] && all[1] == b[0];
      MergeFixesTwinFree(b[1..]);
      BothAlike(r, b[0]);
    }
  }

  lemma BothAlike(a: LRule, b: LRule)
    ensures Twin(a, b) ==> WithProto(a, Both) == WithProto(b, Both)
  {
  }

  lemma TailTwinFree(rs: seq<LRule>)
    requires NoTwins(rs)
    ensures rs != [] ==> NoTwins(rs[1..])
  {
    if rs != [] {
      forall i | 0 <= i < |rs[1..]| - 1 ensures !Twin(rs[1..][i], rs[1..][i + 1]) {
        assert rs[1..][i] == rs[i + 1] && rs[1..][i + 1] == rs[i + 2];
      }
    }
  }

  /** Twins look like twins, and only they do. */
  lemma TwinsShow(lib: Lib, a: LRule, b: LRule, i: nat, j: nat)
    requires Lawful(lib) && Storable(lib, a) && Storable(lib, b)
    ensures Twin(a, b) <==> WireTwins(RenderOne(a, i), RenderOne(b, j))
    ensures Twin(a, b) ==>
              RenderOne(WithProto(b, Both), i) == RenderOne(a, i).(to := RenderOne(a, i).to[..|RenderOne(a, i).to| - 4])
  {
    hide WireTwins, RenderOne;
    if Twin(a, b) {
      TwinsLookAlike(a, b, i, j);
    }
    if WireTwins(RenderOne(a, i), RenderOne(b, j)) {
      LookAlikesTwin(lib, a, b, i, j);
    }
  }

  lemma TwinsLookAlike(a: LRule, b: LRule, i: nat, j: nat)
    requires Twin(a, b)
    ensures WireTwins(RenderOne(a, i), RenderOne(b, j))
    ensures RenderOne(WithProto(b, Both), i) == RenderOne(a, i).(to := RenderOne(a, i).to[..|RenderOne(a, i).to| - 4])
  {
    hide PortDisplay, ActionUpper, Itoa;
    ShownEnd(a);
    ShownEnd(b);
  }

  lemma LookAlikesTwin(lib: Lib, a: LRule, b: LRule, i: nat, j: nat)
    requires Lawful(lib) && Storable(lib, a) && Storable(lib, b) && WireTwins(RenderOne(a, i), RenderOne(b, j))
    ensures Twin(a, b)
  {
    hide PortDisplay, ActionUpper, Itoa;
    ShownEnd(a);
    ShownEnd(b);
    L.ItoaInjective(a.port, b.port);
    ActionUpperSame(a.action, b.action);
    SourceSame(lib, a.from, b.from);
  }

  lemma SourceSame(lib: Lib, a: string, b: string)
    requires Lawful(lib) && (a == "" || lib.parseIP(a).Some?) && (b == "" || lib.parseIP(b).Some?)
    requires (if a == "" then "Anywhere" else a) == (if b == "" then "Anywhere" else b)
    ensures a == b
  {
    if a != "" {
      NotAnywhere(a);
    }
    if b != "" {
      NotAnywhere(b);
    }
  }

  lemma ShownEnd(r: LRule)
    ensures var to := PortDisplay(r.proto, r.port);
            && (r.proto == Tcp <==> |to| > 4 && to[|to| - 4..] == "/tcp")
            && (r.proto == Udp <==> |to| > 4 && to[|to| - 4..] == "/udp")
            && (r.proto != Both ==> to[..|to| - 4] == Itoa(r.port))
            && PortDisplay(Both, r.port) == Itoa(r.port)
  {
    var to := PortDisplay(r.proto, r.port);
    assert "/tcp"[1] == 't' && "/udp"[1] == 'u' && "/tcp"[3] == 'p' && "/udp"[3] == 'p';
    if r.proto == Both {
      assert IsDigit(to[|to| - 1]);
      assert |to| > 4 ==> to[|to| - 4..][3] == to[|to| - 1];
    } else {
      var end := if r.proto == Tcp then "/tcp" else "/udp";
      assert to == Itoa(r.port) + end && |end| == 4;
      assert to[|to| - 4..] == end;
    }
  }

  /** Deleting rule `n` takes out exactly the rule that Status showed under that number; the rules after it move up, and
      if those beside it are twins they show as one from then on. */
  lemma DeleteShows(lib: Lib, allowToggle: bool, s: State, h: Held, n: int, io0: Io, io1: Io, io2: Io, before: Status, after: Status)
    requires Lawful(lib) && Holds(lib, s, h) && Around(lib, allowToggle, s, Delete(n), io0, io1, io2, before, after)
    ensures 1 <= n <= |before.rules|
    ensures after == before.(rules := after.rules)
    ensures if 2 <= n < |before.rules| && WireTwins(before.rules[n - 2], before.rules[n])
            then WithoutJoined(before.rules, n, after.rules) else Without(before.rules, n, after.rules)
  {
    hide Holds, Around, View, Read, WireTwins, Without, WithoutJoined, RenderOne, Rendered;
    ShownAround(lib, allowToggle, s, h, Delete(n), io0, io1, io2, before, after);
    ViewStorable(lib, s, h);
    ReadAgain(lib, h);
    DeletedShown(lib, View(lib, h), n);
  }

  lemma DeletedShown(lib: Lib, v: L.Loaded, n: int)
    requires Lawful(lib) && StorableRules(lib, v.rules) && 1 <= n <= |v.rules|
    requires Norm(lib, v.rules) == v.rules && D.ReadNames(v.rules) == v.rules
    ensures var before, w := Rendered(v.enabled, v.rules), Read(lib, v.(rules := v.rules[..n - 1] + v.rules[n..]));
            var after := Rendered(w.enabled, w.rules);
            && after == before.(rules := after.rules)
            && if 2 <= n < |before.rules| && WireTwins(before.rules[n - 2], before.rules[n])
               then WithoutJoined(before.rules, n, after.rules) else Without(before.rules, n, after.rules)
  {
    hide Read, Norm, D.ReadNames, WireTwins, Without, WithoutJoined, RenderOne, Twin, Storable;
    var rs := v.rules;
    DeletedRead(lib, v, n);
    if 2 <= n < |rs| {
      TwinsShow(lib, rs[n - 2], rs[n], n - 2, n);
    }
    if 2 <= n < |rs| && Twin(rs[n - 2], rs[n]) {
      LongShown(rs[n - 2], n - 2);
      TwinTcp(rs[n - 2], rs[n]);
      JoinedShown(v.enabled, rs, n);
    } else {
      RestShown(v.enabled, rs, n);
    }
  }

  lemma TwinTcp(a: LRule, b: LRule)
    requires Twin(a, b)
    ensures a.proto == Tcp
  {
  }

  lemma LongShown(r: LRule, i: nat)
    ensures r.proto == Tcp ==> |RenderOne(r, i).to| > 4
  {
    ShownEnd(r);
  }

  /** The reading of a list as shown, without one rule. */
  lemma DeletedRead(lib: Lib, v: L.Loaded, n: int)
    requires Lawful(lib) && 1 <= n <= |v.rules| && Norm(lib, v.rules) == v.rules && D.ReadNames(v.rules) == v.rules
    ensures var rs := v.rules; var rest := rs[..n - 1] + rs[n..];
            Read(lib, v.(rules := rest)) == v.(rules :=
              if 2 <= n < |rs| && Twin(rs[n - 2], rs[n]) then rs[..n - 2] + [WithProto(rs[n], Both)] + rs[n + 1..] else rest)
  {
    hide Merge, Norm, D.ReadNames, Twin, NoTwins;
    DeletedNorm(lib, v.rules, n);
    DeletedMerge(v.rules, n);
  }

  lemma DeletedNorm(lib: Lib, rs: seq<LRule>, n: int)
    requires Lawful(lib) && 1 <= n <= |rs| && Norm(lib, rs) == rs && D.ReadNames(rs) == rs
    ensures Norm(lib, D.ReadNames(rs[..n - 1] + rs[n..])) == Merge(rs[..n - 1] + rs[n..]) && NoTwins(rs)
  {
    hide Merge, D.ReadNames, Canon, NoTwins;
    NormCanonical(lib, rs);
    MergeTwinFree(Canon(lib, rs));
    FixedPart(lib, rs, rs[..n - 1] + rs[n..]);
  }

  lemma DeletedMerge(rs: seq<LRule>, n: int)
    requires NoTwins(rs) && 1 <= n <= |rs|
    ensures Merge(rs[..n - 1] + rs[n..]) ==
            if 2 <= n < |rs| && Twin(rs[n - 2], rs[n]) then rs[..n - 2] + [WithProto(rs[n], Both)] + rs[n + 1..]
            else rs[..n - 1] + rs[n..]
  {
    hide Merge, Twin, NoTwins;
    var a, b := rs[..n - 1], rs[n..];
    PartsTwinFree(rs, n);
    MergeJunction(a, b);
    if 2 <= n < |rs| {
      assert a[|a| - 1] == rs[n - 2] && b[0] == rs[n] && a[..|a| - 1] == rs[..n - 2] && b[1..] == rs[n + 1..];
    }
  }

  /** Some of the rules of a list that reads back as itself do so too. */
  lemma FixedPart(lib: Lib, rs: seq<LRule>, part: seq<LRule>)
    requires Canon(lib, rs) == rs && D.ReadNames(rs) == rs && forall r | r in part :: r in rs
    ensures Canon(lib, part) == part && D.ReadNames(part) == part
  {
    hide D.ReadName, CanonRule;
    forall i | 0 <= i < |part| ensures CanonRule(lib, part[i]) == part[i] && D.ReadName(part[i].iface) == part[i].iface {
      assert part[i] in rs;
      var k :| 0 <= k < |rs| && rs[k] == part[i];
      assert Canon(lib, rs)[k] == CanonRule(lib, rs[k]) && D.ReadNames(rs)[k] == rs[k];
    }
  }

  lemma PartsTwinFree(rs: seq<LRule>, n: int)
    requires NoTwins(rs) && 1 <= n <= |rs|
    ensures NoTwins(rs[..n - 1]) && NoTwins(rs[n..])
  {
    var a, b := rs[..n - 1], rs[n..];
    forall i | 0 <= i < |b| - 1 ensures !Twin(b[i], b[i + 1]) {
      assert b[i] == rs[n + i] && b[i + 1] == rs[n + i + 1];
    }
    forall i | 0 <= i < |a| - 1 ensures !Twin(a[i], a[i + 1]) {
      assert a[i] == rs[i] && a[i + 1] == rs[i + 1];
    }
  }

  lemma Renumbered(r: LRule, i: nat, j: nat)
    ensures RenderOne(r, j) == RenderOne(r, i).(number := j + 1)
  {
  }

  lemma RestShown(enabled: bool, rs: seq<LRule>, n: int)
    requires 1 <= n <= |rs|
    ensures Without(Rendered(enabled, rs).rules, n, Rendered(enabled, rs[..n - 1] + rs[n..]).rules)
  {
    var before, after := Rendered(enabled, rs).rules, Rendered(enabled, rs[..n - 1] + rs[n..]).rules;
    hide RenderOne;
    forall i | n - 1 <= i < |after| ensures MovedUp(before, after, i, 1) {
      Renumbered(rs[i + 1], i + 1, i);
    }
  }

  lemma JoinedShown(enabled: bool, rs: seq<LRule>, n: int)
    requires 2 <= n < |rs| && Twin(rs[n - 2], rs[n])
    requires var to := RenderOne(rs[n - 2], n - 2).to;
             |to| >= 4 && RenderOne(WithProto(rs[n], Both), n - 2) == RenderOne(rs[n - 2], n - 2).(to := to[..|to| - 4])
    ensures WithoutJoined(Rendered(enabled, rs).rules, n, Rendered(enabled, rs[..n - 2] + [WithProto(rs[n], Both)] + rs[n + 1..]).rules)
  {
    var joined := rs[..n - 2] + [WithProto(rs[n], Both)] + rs[n + 1..];
    var before, after := Rendered(enabled, rs).rules, Rendered(enabled, joined).rules;
    hide RenderOne, Twin;
    assert joined[n - 2] == WithProto(rs[n], Both);
    forall i | n - 1 <= i < |after| ensures MovedUp(before, after, i, 2) {
      assert joined[i] == rs[i + 2];
      Renumbered(rs[i + 2], i + 2, i);
    }
  }

  // ---- shadowing chains ------------------------------------------------------------------------------------------

  /** With every call into the kernel working, a change is refused for a conflict exactly when some chain that is not
      gopit's runs at the input hook at filter priority or before and has rules or a drop policy; it then changes
      nothing. Status of an installed table is shown all the same. */
  lemma ConflictRefusesExactly(lib: Lib, allowToggle: bool, s: State, h: Held, op: Op, io: Io)
    requires Lawful(lib) && Holds(lib, s, h) && CallsWork(io) && Changes(op) && O.Accepted(lib, allowToggle, op)
    ensures var o := Performed(lib, allowToggle, s, op, io);
            && (o.reply == Failed("cannot manage firewall: existing rules would shadow gopit") <==>
                  exists ch :: ch in s.chains && X.Ahead(ch) && (ch.rules != [] || ch.policy == Some(K.PolicyDrop)))
            && (o.reply == Failed(CONFLICT) ==> o.state == s)
    ensures s.kernel.Some? ==> Performed(lib, allowToggle, s, GetStatus, io).reply.StatusReply?
  {
    hide Holds, View, Back, Put, Rendered, Build, Logical, Persisted, ConfState, X.Clear;
    ClearMeans(s.chains);
    InitializedKeeps(lib, s, h, io);
    DifferentReplies();
    hide RequestedRule;
  }

  lemma ClearMeans(chains: seq<X.Chain>)
    ensures X.Clear(chains) <==> !exists ch :: ch in chains && X.Ahead(ch) && (ch.rules != [] || ch.policy == Some(K.PolicyDrop))
  {
    if !X.Clear(chains) {
      var i :| 0 <= i < |chains| && X.Shadows(chains[i]);
      assert chains[i] in chains;
    }
  }

  lemma DifferentReplies()
    ensures CONFLICT == "cannot manage firewall: existing rules would shadow gopit"
    ensures CONFLICT != OUT_OF_RANGE && CONFLICT != UNAVAILABLE && CONFLICT != UNREADABLE
    ensures UNREADABLE != UNAVAILABLE && UNREADABLE != OUT_OF_RANGE
  {
    assert |CONFLICT| > |UNAVAILABLE| && |CONFLICT| > |UNREADABLE| && |CONFLICT| > |OUT_OF_RANGE|;
    assert |UNREADABLE| > |UNAVAILABLE| && UNREADABLE[0] == 'b' && OUT_OF_RANGE[0] == 'r';
  }
}
