/** What a rule list means for a packet, and that the compiled table does exactly that. */
module Meaning {
  import opened GoLib
  import opened Rules
  import K = Kernel
  import opened Emit

  // ---- the logical reading -------------------------------------------------------

  /** Source match on the raw bytes from the network header on: offset 12 for a 4-byte address, 8 for a 16-byte one. */
  predicate SourceBytes(ip: IP, bytes: string) {
    match ip
    case V4(b) => |bytes| >= 16 && bytes[12..16] == b
    case V6(b) => |bytes| >= 24 && bytes[8..24] == b
  }

  predicate SourceMatches(lib: Lib, from: string, bytes: string) {
    from == "" || (lib.parseIP(from).Some? && SourceBytes(lib.parseIP(from).value, bytes))
  }

  /** In IANA's protocol numbers: TCP is 6, UDP is 17. */
  predicate ProtoMatches(p: Proto, l4proto: nat) {
    match p
    case Tcp => l4proto == 6
    case Udp => l4proto == 17
    case Both => l4proto == 6 || l4proto == 17
  }

  predicate PortMatches(port: nat, th: string) {
    |th| >= 4 && th[2] as int < 256 && th[3] as int < 256 && th[2] as int * 256 + th[3] as int == port
  }

  /** The kernel compares names in 16 bytes, padded with NULs or cut. */
  predicate NameMatches(iface: string, iif: string) {
    iface == "" || K.IfnameData(iif) == K.IfnameData(iface)
  }

  /** For a name without NUL this is equality, and no device has a name of 16 bytes or more. */
  lemma NameMatchesExactly(iface: string, pkt: K.Packet)
    requires K.ValidPacket(pkt)
    ensures K.KernelName(iface) ==> (NameMatches(iface, pkt.iif) <==> iface == "" || pkt.iif == iface)
    ensures |iface| >= 16 && Lacks(iface, '\0') ==> !NameMatches(iface, pkt.iif)
  {
    if K.KernelName(iface) {
      K.IfnameDataInjective(pkt.iif, iface);
    } else if |iface| >= 16 && Lacks(iface, '\0') {
      assert K.IfnameData(pkt.iif)[15] == '\0' && K.IfnameData(iface)[15] == iface[15];
    }
  }

  predicate RuleMatches(lib: Lib, r: LRule, pkt: K.Packet) {
    && NameMatches(r.iface, pkt.iif)
    && SourceMatches(lib, r.from, pkt.nh + pkt.th)
    && ProtoMatches(r.proto, pkt.l4proto)
    && PortMatches(r.port, pkt.th)
  }

  /** A refused TCP packet is answered with a reset (reject type 1), any other with port unreachable (type 2, code 1). */
  function ActionOutcome(a: Action, l4proto: nat): K.Outcome {
    match a
    case Allow => K.Accepted
    case Deny => K.Dropped
    case Reject => if l4proto == 6 then K.Rejected(1, 0) else K.Rejected(2, 1)
  }

  /** First matching rule decides; nothing matching means the default policy of an enabled firewall. */
  function FirstMatch(lib: Lib, rs: seq<LRule>, pkt: K.Packet): K.Outcome {
    if rs == [] then K.Dropped
    else if RuleMatches(lib, rs[0], pkt) then ActionOutcome(rs[0].action, pkt.l4proto)
    else FirstMatch(lib, rs[1..], pkt)
  }

  /** The intended verdict of the firewall. */
  function Intended(lib: Lib, enabled: bool, rs: seq<LRule>, pkt: K.Packet): K.Outcome {
    if !enabled then K.Accepted
    else if pkt.ct == K.CtEstablished || pkt.ct == K.CtRelated then K.Accepted
    else if pkt.iif == "lo" then K.Accepted
    else FirstMatch(lib, rs, pkt)
  }

  // ---- single programs -------------------------------------------------------------

  lemma RunIface(iface: string, rest: K.Program, pkt: K.Packet, regs: K.Registers) returns (regs': K.Registers)
    ensures K.Run(IfaceMatch(iface) + rest, pkt, regs) == if NameMatches(iface, pkt.iif) then K.Run(rest, pkt, regs') else K.Continue
  {
    regs' := regs;
    if iface == "" {
      assert IfaceMatch(iface) + rest == rest;
    } else {
      regs' := regs[1 := K.IfnameData(pkt.iif)];
      RunPair(K.Meta(K.MetaIifname, 1), K.Cmp(K.CmpEq, 1, K.IfnameData(iface)), rest);
    }
  }

  lemma RunPair(a: K.Expr, b: K.Expr, rest: K.Program)
    ensures ([a, b] + rest)[0] == a && ([a, b] + rest)[1..] == [b] + rest
    ensures ([b] + rest)[0] == b && ([b] + rest)[1..] == rest
  {
  }

  lemma RunFrom(lib: Lib, from: string, rest: K.Program, pkt: K.Packet, regs: K.Registers) returns (regs': K.Registers)
    requires Lawful(lib)
    requires from == "" || lib.parseIP(from).Some?
    ensures K.Run(FromMatch(lib, from) + rest, pkt, regs) ==
            if SourceMatches(lib, from, pkt.nh + pkt.th) then K.Run(rest, pkt, regs') else K.Continue
  {
    regs' := regs;
    if from == "" {
      assert FromMatch(lib, from) + rest == rest;
      return;
    }
    var ip := lib.parseIP(from).value;
    var offset, len := if ip.V4? then 12 else 8, if ip.V4? then 4 else 16;
    var load := K.Payload(1, K.NetworkHeader, offset, len);
    RunPair(load, K.Cmp(K.CmpEq, 1, ip.octets), rest);
    assert FromMatch(lib, from) == [load, K.Cmp(K.CmpEq, 1, ip.octets)];
    match K.HeaderBytes(pkt, K.NetworkHeader, offset, len)
    case None =>
    case Some(v) =>
      regs' := regs[1 := v];
      assert K.Run([K.Cmp(K.CmpEq, 1, ip.octets)] + rest, pkt, regs') == if v == ip.octets then K.Run(rest, pkt, regs') else K.Continue;
  }

  lemma PortDataMatches(port: nat, th: string)
    requires port <= 65535 && |th| >= 4
    ensures th[2..4] == PortData(port) <==> PortMatches(port, th)
  {
    assert th[2..4] == [th[2], th[3]];
    var hi, lo := K.Byte(port / 256), K.Byte(port);
    assert hi as int == port / 256 && lo as int == port % 256;
    if PortMatches(port, th) {
      var a, b := th[2] as int, th[3] as int;
      assert port / 256 == a && port % 256 == b;
    }
  }

  lemma RunPort(p: Proto, port: nat, d: K.Expr, pkt: K.Packet, regs: K.Registers) returns (regs': K.Registers)
    requires p != Both && port <= 65535 && K.ValidPacket(pkt)
    ensures K.Run(PortMatch(p, port) + [d], pkt, regs) ==
            if ProtoMatches(p, pkt.l4proto) && PortMatches(port, pkt.th) then K.Run([d], pkt, regs') else K.Continue
  {
    var meta, cmp := K.Meta(K.MetaL4proto, 1), K.Cmp(K.CmpEq, 1, [K.Byte(ProtoNumber(p))]);
    var load, portCmp := K.Payload(1, K.TransportHeader, 2, 2), K.Cmp(K.CmpEq, 1, PortData(port));
    assert PortMatch(p, port) + [d] == [meta, cmp] + ([load, portCmp] + [d]);
    RunPair(meta, cmp, [load, portCmp] + [d]);
    RunPair(load, portCmp, [d]);
    var regs1 := regs[1 := [K.Byte(pkt.l4proto)]];
    assert [K.Byte(pkt.l4proto)] == [K.Byte(ProtoNumber(p))] <==> ProtoMatches(p, pkt.l4proto) by {
      assert [K.Byte(pkt.l4proto)][0] as int == pkt.l4proto;
      assert [K.Byte(ProtoNumber(p))][0] as int == ProtoNumber(p);
    }
    assert K.Run(PortMatch(p, port) + [d], pkt, regs) ==
      if ProtoMatches(p, pkt.l4proto) then K.Run([load, portCmp] + [d], pkt, regs1) else K.Continue;
    regs' := regs1;
    if |pkt.th| >= 4 {
      regs' := regs1[1 := pkt.th[2..4]];
      PortDataMatches(port, pkt.th);
      assert K.Run([load, portCmp] + [d], pkt, regs1) == K.Run([portCmp] + [d], pkt, regs');
    } else {
      assert K.HeaderBytes(pkt, K.TransportHeader, 2, 2) == None;
    }
  }

  lemma RunDecision(p: Proto, action: Action, pkt: K.Packet, regs: K.Registers)
    requires p != Both
    ensures ProtoMatches(p, pkt.l4proto) ==> K.Run([Decision(p, action)], pkt, regs) == ActionOutcome(action, pkt.l4proto)
  {
  }

  /** One compiled rule decides a packet exactly when the logical rule matches, and as the action says. */
  lemma RunOne(lib: Lib, r: LRule, pkt: K.Packet)
    requires Lawful(lib) && Storable(lib, r) && r.proto != Both && K.ValidPacket(pkt)
    ensures K.Run(EmitOne(lib, r), pkt, map[]) ==
            if RuleMatches(lib, r, pkt) then ActionOutcome(r.action, pkt.l4proto) else K.Continue
  {
    hide IfaceMatch, NameMatches, FromMatch, PortMatch, SourceMatches, PortMatches, K.Run, Decision;
    var d := Decision(r.proto, r.action);
    var tail := PortMatch(r.proto, r.port) + [d];
    var regs1 := RunIface(r.iface, FromMatch(lib, r.from) + tail, pkt, map[]);
    var regs2 := RunFrom(lib, r.from, tail, pkt, regs1);
    var regs3 := RunPort(r.proto, r.port, d, pkt, regs2);
    RunDecision(r.proto, r.action, pkt, regs3);
  }

  lemma {:induction false} RunAll(lib: Lib, singles: seq<LRule>, pkt: K.Packet)
    requires Lawful(lib) && StorableRules(lib, singles) && K.ValidPacket(pkt)
    requires forall i | 0 <= i < |singles| :: singles[i].proto != Both
    ensures FirstMatch(lib, singles, pkt) ==
            match K.RunChain(EmitAll(lib, singles), pkt) case Continue => K.Dropped case o => o
  {
    if singles != [] {
      RunOne(lib, singles[0], pkt);
      assert EmitAll(lib, singles)[1..] == EmitAll(lib, singles[1..]);
      RunAll(lib, singles[1..], pkt);
    }
  }

  /** A "both" rule and its two halves decide alike. */
  lemma {:induction false} FirstMatchExpand(lib: Lib, rs: seq<LRule>, pkt: K.Packet)
    ensures FirstMatch(lib, Expand(rs), pkt) == FirstMatch(lib, rs, pkt)
  {
    if rs != [] {
      FirstMatchExpand(lib, rs[1..], pkt);
      var e, rest := Expand(rs), Expand(rs[1..]);
      if rs[0].proto == Both {
        assert e[1..] == [WithProto(rs[0], Udp)] + rest;
        assert e[1..][1..] == rest;
      } else {
        assert e[1..] == rest;
      }
    }
  }

  // ---- the guards -------------------------------------------------------------------

  function FirstByte(n: nat): string {
    [K.Byte(n), '\0', '\0', '\0']
  }

  lemma MaskLow()
    ensures K.MaskNat(1, 6, 0) == 0 && K.MaskNat(2, 6, 0) == 2 && K.MaskNat(4, 6, 0) == 4
  {
  }

  lemma MaskHigh()
    ensures K.MaskNat(8, 6, 0) == 0 && K.MaskNat(64, 6, 0) == 0
  {
  }

  lemma MaskNatSix(c: K.ConnState)
    ensures K.MaskNat(K.CtBit(c), 6, 0) == if c == K.CtEstablished || c == K.CtRelated then K.CtBit(c) else 0
  {
    MaskLow();
    MaskHigh();
  }

  lemma MaskedByte(c: K.ConnState)
    ensures K.MaskByte(K.Byte(K.CtBit(c)), K.Byte(6), '\0') == '\0' <==> !(c == K.CtEstablished || c == K.CtRelated)
    ensures K.MaskByte('\0', '\0', '\0') == '\0'
  {
    MaskNatSix(c);
    hide K.MaskNat;
    assert K.MaskByte(K.Byte(K.CtBit(c)), K.Byte(6), '\0') == K.Byte(K.MaskNat(K.CtBit(c), 6, 0));
    assert K.MaskNat(0, 0, 0) == 0 by { MaskNothing(); }
  }

  lemma MaskNothing()
    ensures K.MaskNat(0, 0, 0) == 0
  {
  }

  lemma CtMasked(c: K.ConnState)
    ensures K.Masked(FirstByte(K.CtBit(c)), FirstByte(6), K.Zeros(4)) == K.Zeros(4)
            <==> !(c == K.CtEstablished || c == K.CtRelated)
  {
    hide K.MaskByte, K.MaskNat, K.Masked, K.Byte;
    MaskedByte(c);
    var r := K.MaskByte(K.Byte(K.CtBit(c)), K.Byte(6), '\0');
    MaskedPointwise(K.Byte(K.CtBit(c)), K.Byte(6), r);
    assert [r, '\0', '\0', '\0'] == K.Zeros(4) <==> r == '\0' by {
      assert [r, '\0', '\0', '\0'][0] == r && K.Zeros(4)[0] == '\0';
    }
  }

  lemma MaskedPointwise(v: char, m: char, r: char)
    requires K.MaskByte(v, m, '\0') == r && K.MaskByte('\0', '\0', '\0') == '\0'
    ensures K.Masked([v, '\0', '\0', '\0'], [m, '\0', '\0', '\0'], K.Zeros(4)) == [r, '\0', '\0', '\0']
  {
  }

  lemma RunCtGuard(pkt: K.Packet)
    ensures K.Run(CtEstablishedAccept(), pkt, map[]) ==
            if pkt.ct == K.CtEstablished || pkt.ct == K.CtRelated then K.Accepted else K.Continue
  {
    CtMasked(pkt.ct);
    var v, mask := FirstByte(K.CtBit(pkt.ct)), FirstByte(6);
    var masked := K.Masked(v, mask, K.Zeros(4));
    var mangle, cmp := K.Bitwise(1, 1, mask, K.Zeros(4)), K.Cmp(K.CmpNeq, 1, K.Zeros(4));
    var accept := [K.Verdict(K.VerdictAccept, "")];
    var regs1: K.Registers := map[][1 := v];
    var regs2 := regs1[1 := masked];
    assert CtEstablishedAccept() == [K.CtState(1), mangle] + ([cmp] + accept);
    RunPair(K.CtState(1), mangle, [cmp] + accept);
    assert K.Run(CtEstablishedAccept(), pkt, map[]) == K.Run([mangle] + ([cmp] + accept), pkt, regs1);
    assert K.Fit(K.Load(regs1, 1), 4) == v;
    assert K.Run([mangle] + ([cmp] + accept), pkt, regs1) == K.Run([cmp] + accept, pkt, regs2);
    assert ([cmp] + accept)[1..] == accept;
    assert K.Fit(K.Load(regs2, 1), 4) == masked;
  }

  lemma RunLoGuard(pkt: K.Packet)
    requires K.ValidPacket(pkt)
    ensures K.Run(LoAccept(), pkt, map[]) == if pkt.iif == "lo" then K.Accepted else K.Continue
  {
    NameMatchesExactly("lo", pkt);
    var regs := RunIface("lo", [K.Verdict(K.VerdictAccept, "")], pkt, map[]);
    assert LoAccept() == IfaceMatch("lo") + [K.Verdict(K.VerdictAccept, "")];
  }

  // ---- the compiled table -------------------------------------------------------------

  lemma RunGuards(rest: seq<K.Program>, pkt: K.Packet)
    requires K.ValidPacket(pkt)
    ensures K.RunChain(Guards() + rest, pkt) ==
            if pkt.ct == K.CtEstablished || pkt.ct == K.CtRelated || pkt.iif == "lo" then K.Accepted
            else K.RunChain(rest, pkt)
  {
    RunCtGuard(pkt);
    RunLoGuard(pkt);
    var chain := Guards() + rest;
    assert chain[1..][1..] == rest;
  }

  lemma RunJump(managed: seq<K.Program>, pkt: K.Packet)
    ensures K.RunBase([JUMP], managed, pkt) == K.RunChain(managed, pkt)
  {
    assert [JUMP][1..] == [];
    assert K.RunBase([], managed, pkt) == K.Continue;
    assert K.Run(JUMP, pkt, map[]) == K.Jumped(K.RULES_CHAIN);
  }

  /** Compilation preserves meaning: the installed table gives every packet the intended verdict. */
  lemma CompiledMeaning(lib: Lib, enabled: bool, rs: seq<LRule>, pkt: K.Packet)
    requires Lawful(lib) && StorableRules(lib, rs) && K.ValidPacket(pkt)
    ensures K.TableVerdict(Build(lib, enabled, rs), pkt) == Intended(lib, enabled, rs, pkt)
  {
    if enabled {
      var e := Expand(rs);
      ExpandStorable(lib, rs);
      ExpandSingles(rs);
      RunAll(lib, e, pkt);
      FirstMatchExpand(lib, rs, pkt);
      RunGuards(EmitAll(lib, e), pkt);
      RunJump(Build(lib, true, rs).rules, pkt);
    }
  }

  // ---- packets of a definite address family ---------------------------------------------

  /** Section 3.1 of RFC 791: version 4, 20 to 60 header bytes, source at byte 12. */
  predicate IPv4Header(nh: string) {
    20 <= |nh| <= 60 && nh[0] as int / 16 == 4
  }

  /** Section 3 of RFC 8200: version 6, 40 header bytes before any extension headers, source at byte 8. */
  predicate IPv6Header(nh: string) {
    |nh| >= 40 && nh[0] as int / 16 == 6
  }

  predicate FamilyIs(ip: IP, nh: string) {
    if ip.V4? then IPv4Header(nh) else IPv6Header(nh)
  }

  /** The packet's family is the address's family and its source is that address. */
  predicate SourceIs(ip: IP, nh: string) {
    FamilyIs(ip, nh) &&
    match ip
    case V4(b) => nh[12..16] == b
    case V6(b) => nh[8..24] == b
  }

  /** What the comment on `emitRule` promises: a source restricts the rule to that address's family. */
  predicate FamilyRuleMatches(lib: Lib, r: LRule, pkt: K.Packet) {
    && RuleMatches(lib, r, pkt)
    && (r.from == "" || (lib.parseIP(r.from).Some? && SourceIs(lib.parseIP(r.from).value, pkt.nh)))
  }

  function FamilyFirstMatch(lib: Lib, rs: seq<LRule>, pkt: K.Packet): K.Outcome {
    if rs == [] then K.Dropped
    else if FamilyRuleMatches(lib, rs[0], pkt) then ActionOutcome(rs[0].action, pkt.l4proto)
    else FamilyFirstMatch(lib, rs[1..], pkt)
  }

  function FamilyIntended(lib: Lib, enabled: bool, rs: seq<LRule>, pkt: K.Packet): K.Outcome {
    if !enabled then K.Accepted
    else if pkt.ct == K.CtEstablished || pkt.ct == K.CtRelated then K.Accepted
    else if pkt.iif == "lo" then K.Accepted
    else FamilyFirstMatch(lib, rs, pkt)
  }

  /** The rule names no source, or one of the packet's own family. */
  predicate OwnFamily(lib: Lib, r: LRule, nh: string) {
    r.from == "" || (lib.parseIP(r.from).Some? && FamilyIs(lib.parseIP(r.from).value, nh))
  }

  function OwnRules(lib: Lib, rs: seq<LRule>, nh: string): seq<LRule> {
    if rs == [] then [] else (if OwnFamily(lib, rs[0], nh) then [rs[0]] else []) + OwnRules(lib, rs[1..], nh)
  }

  /** In a packet of the address's family the compared bytes are its source. */
  lemma SourceAt(ip: IP, pkt: K.Packet)
    requires FamilyIs(ip, pkt.nh)
    ensures SourceBytes(ip, pkt.nh + pkt.th) <==> SourceIs(ip, pkt.nh)
  {
    var bytes := pkt.nh + pkt.th;
    assert bytes[12..16] == pkt.nh[12..16];
    if ip.V6? {
      assert bytes[8..24] == pkt.nh[8..24];
    }
  }

  /** A rule's bytes decide by family and source exactly when its source, if any, is of the packet's family. */
  lemma OwnFamilyMatches(lib: Lib, r: LRule, pkt: K.Packet)
    requires Lawful(lib) && Storable(lib, r)
    ensures FamilyRuleMatches(lib, r, pkt) <==> OwnFamily(lib, r, pkt.nh) && RuleMatches(lib, r, pkt)
  {
    if r.from != "" && FamilyIs(lib.parseIP(r.from).value, pkt.nh) {
      SourceAt(lib.parseIP(r.from).value, pkt);
    }
  }

  lemma {:induction false} FamilyFirstMatchOwn(lib: Lib, rs: seq<LRule>, pkt: K.Packet)
    requires Lawful(lib) && StorableRules(lib, rs)
    ensures FamilyFirstMatch(lib, rs, pkt) == FirstMatch(lib, OwnRules(lib, rs, pkt.nh), pkt)
  {
    hide FamilyRuleMatches, RuleMatches, OwnFamily;
    if rs != [] {
      FamilyFirstMatchOwn(lib, rs[1..], pkt);
      OwnFamilyMatches(lib, rs[0], pkt);
      var own, rest := OwnRules(lib, rs, pkt.nh), OwnRules(lib, rs[1..], pkt.nh);
      assert own == rest || (own[0] == rs[0] && own[1..] == rest);
    }
  }

  lemma {:induction false} OwnRulesStorable(lib: Lib, rs: seq<LRule>, nh: string)
    requires StorableRules(lib, rs)
    ensures StorableRules(lib, OwnRules(lib, rs, nh))
  {
    hide OwnFamily, Storable;
    if rs != [] {
      OwnRulesStorable(lib, rs[1..], nh);
    }
  }

  /** Decision by address and family is what the table does that is compiled from the rules of the packet's family
      alone, for every rule list and packet. */
  lemma CompiledFamilyMeaning(lib: Lib, enabled: bool, rs: seq<LRule>, pkt: K.Packet)
    requires Lawful(lib) && StorableRules(lib, rs) && K.ValidPacket(pkt)
    ensures K.TableVerdict(Build(lib, enabled, OwnRules(lib, rs, pkt.nh)), pkt) == FamilyIntended(lib, enabled, rs, pkt)
  {
    OwnRulesStorable(lib, rs, pkt.nh);
    CompiledMeaning(lib, enabled, OwnRules(lib, rs, pkt.nh), pkt);
    FamilyFirstMatchOwn(lib, rs, pkt);
  }

  lemma {:induction false} OwnRulesAll(lib: Lib, rs: seq<LRule>, nh: string)
    requires forall i | 0 <= i < |rs| :: OwnFamily(lib, rs[i], nh)
    ensures OwnRules(lib, rs, nh) == rs
  {
    hide OwnFamily;
    if rs != [] {
      assert OwnFamily(lib, rs[0], nh);
      forall i | 0 <= i < |rs[1..]| ensures OwnFamily(lib, rs[1..][i], nh) { assert rs[1..][i] == rs[i + 1]; }
      OwnRulesAll(lib, rs[1..], nh);
    }
  }

  /** So a list decides the packets of its sources' family by address and family. */
  lemma OneFamilyMeaning(lib: Lib, enabled: bool, rs: seq<LRule>, pkt: K.Packet)
    requires Lawful(lib) && StorableRules(lib, rs) && K.ValidPacket(pkt)
    requires forall i | 0 <= i < |rs| :: OwnFamily(lib, rs[i], pkt.nh)
    ensures K.TableVerdict(Build(lib, enabled, rs), pkt) == FamilyIntended(lib, enabled, rs, pkt)
  {
    OwnRulesAll(lib, rs, pkt.nh);
    CompiledFamilyMeaning(lib, enabled, rs, pkt);
  }
}
