/** Reading kernel programs back into logical rules (nftfw.go: decodeKernelRule, kernelRulesToLrules). */
module Decode {
  import opened GoLib
  import opened Rules
  import K = Kernel
  import opened Emit

  datatype VerdictName = NoVerdict | AcceptVerdict | DropVerdict | RejectVerdict

  /** `kernelRule`: what one program of the managed chain matches and decides; proto 0 means no protocol match. */
  datatype KernelRule = KernelRule(
    iface: string, from: Option<IP>, proto: nat, port: nat, verdict: VerdictName, tcpReset: bool)

  const BLANK := KernelRule("", None, 0, 0, NoVerdict, false)

  datatype Decoded = Decoded(rule: KernelRule, ctGuard: bool, ok: bool)

  /** `trimZero`: the bytes before the first NUL. */
  function TrimZeroValue(b: string): (s: string)
    ensures s <= b && Lacks(s, '\0')
  {
    if b == "" || b[0] == '\0' then "" else [b[0]] + TrimZeroValue(b[1..])
  }

  method TrimZero(b: string) returns (s: string)
    ensures s == TrimZeroValue(b)
  {
    var i := 0;
    while i < |b|
      invariant 0 <= i <= |b|
      invariant TrimZeroValue(b) == b[..i] + TrimZeroValue(b[i..])
    {
      if b[i] == '\0' {
        return b[..i];
      }
      assert b[i..][1..] == b[i + 1..];
      assert b[..i] + [b[i]] == b[..i + 1];
      i := i + 1;
    }
    return b;
  }

  function Uint16(d: string): (n: nat)
    requires |d| == 2
    ensures n <= 65535
  {
    d[0] as int % 256 * 256 + d[1] as int % 256
  }

  function Failed(kr: KernelRule): Decoded {
    Decoded(kr, false, false)
  }

  /** The compare that must follow a load, if it carries `len` bytes. */
  function CmpData(exs: K.Program, len: nat): Option<string>
    requires exs != []
  {
    if |exs| > 1 && exs[1].Cmp? && |exs[1].data| == len then Some(exs[1].data) else None
  }

  /** The decoder from a partly decoded rule. */
  function DecodeFrom(exs: K.Program, kr: KernelRule): Decoded
    decreases |exs|
  {
    if exs == [] then Decoded(kr, false, kr.verdict != NoVerdict)
    else match exs[0]
      case Meta(MetaIifname, _) =>
        if |exs| > 1 && exs[1].Cmp? && exs[1].op == K.CmpEq
        then DecodeFrom(exs[2..], kr.(iface := TrimZeroValue(exs[1].data))) else Failed(kr)
      case Meta(MetaL4proto, _) =>
        (match CmpData(exs, 1)
         case Some(d) => DecodeFrom(exs[2..], kr.(proto := d[0] as int))
         case None => Failed(kr))
      case Meta(MetaOther, _) => Failed(kr)
      case Payload(_, base, offset, len) =>
        if base == K.NetworkHeader && offset == 12 && len == 4 then
          (match CmpData(exs, 4)
           case Some(d) => DecodeFrom(exs[2..], kr.(from := Some(IPFromBytes(d))))
           case None => Failed(kr))
        else if base == K.NetworkHeader && offset == 8 && len == 16 then
          (match CmpData(exs, 16)
           case Some(d) => DecodeFrom(exs[2..], kr.(from := Some(IPFromBytes(d))))
           case None => Failed(kr))
        else if base == K.TransportHeader && offset == 2 && len == 2 then
          (match CmpData(exs, 2)
           case Some(d) => DecodeFrom(exs[2..], kr.(port := Uint16(d)))
           case None => Failed(kr))
        else Failed(kr)
      case CtState(_) => Decoded(kr, true, true)
      case Verdict(VerdictAccept, _) => DecodeFrom(exs[1..], kr.(verdict := AcceptVerdict))
      case Verdict(VerdictDrop, _) => DecodeFrom(exs[1..], kr.(verdict := DropVerdict))
      case Verdict(_, _) => Failed(kr)
      case Reject(t, _) => DecodeFrom(exs[1..], kr.(verdict := RejectVerdict, tcpReset := t == K.REJECT_TCP_RESET))
      case _ => Failed(kr)
  }

  function DecodeProgram(exs: K.Program): Decoded {
    DecodeFrom(exs, BLANK)
  }

  /** `decodeKernelRule`: one pass with a moving index; `next()` is the element after it. */
  method DecodeKernelRule(exs: K.Program) returns (kr: KernelRule, ctGuard: bool, ok: bool)
    ensures Decoded(kr, ctGuard, ok) == DecodeProgram(exs)
  {
    kr, ctGuard, ok := BLANK, false, false;
    var i := 0;
    while i < |exs|
      invariant 0 <= i <= |exs|
      invariant DecodeFrom(exs[i..], kr) == DecodeProgram(exs)
      invariant !ctGuard && !ok
    {
      ghost var rest := exs[i..];
      assert rest[1..] == exs[i + 1..];
      assert |rest| > 1 ==> rest[1] == exs[i + 1] && rest[2..] == exs[i + 2..];
      match exs[i] {
        case Meta(key, _) =>
          i := i + 1;
          match key {
            case MetaIifname =>
              if i >= |exs| || !exs[i].Cmp? || exs[i].op != K.CmpEq {
                return kr, false, false;
              }
              var name := TrimZero(exs[i].data);
              kr := kr.(iface := name);
            case MetaL4proto =>
              if i >= |exs| || !exs[i].Cmp? || |exs[i].data| != 1 {
                return kr, false, false;
              }
              kr := kr.(proto := exs[i].data[0] as int);
            case MetaOther =>
              return kr, false, false;
          }
        case Payload(_, base, offset, len) =>
          i := i + 1;
          if base == K.NetworkHeader && offset == 12 && len == 4 {
            if i >= |exs| || !exs[i].Cmp? || |exs[i].data| != 4 {
              return kr, false, false;
            }
            kr := kr.(from := Some(IPFromBytes(exs[i].data)));
          } else if base == K.NetworkHeader && offset == 8 && len == 16 {
            if i >= |exs| || !exs[i].Cmp? || |exs[i].data| != 16 {
              return kr, false, false;
            }
            kr := kr.(from := Some(IPFromBytes(exs[i].data)));
          } else if base == K.TransportHeader && offset == 2 && len == 2 {
            if i >= |exs| || !exs[i].Cmp? || |exs[i].data| != 2 {
              return kr, false, false;
            }
            kr := kr.(port := Uint16(exs[i].data));
          } else {
            return kr, false, false;
          }
        case CtState(_) =>
          return kr, true, true;
        case Verdict(kind, _) =>
          match kind {
            case VerdictAccept => kr := kr.(verdict := AcceptVerdict);
            case VerdictDrop => kr := kr.(verdict := DropVerdict);
            case _ => return kr, false, false;
          }
        case Reject(t, _) =>
          kr := kr.(verdict := RejectVerdict, tcpReset := t == K.REJECT_TCP_RESET);
        case _ =>
          return kr, false, false;
      }
      i := i + 1;
    }
    ok := kr.verdict != NoVerdict;
  }

  // ---- grouping ---------------------------------------------------------------------

  /** `sameKey`. */
  predicate SameKey(a: KernelRule, b: KernelRule) {
    a.iface == b.iface && a.from == b.from && a.port == b.port && a.verdict == b.verdict
  }

  /** The loopback guard: nothing a user can add, since user ports are at least 1. */
  predicate LoGuard(kr: KernelRule) {
    kr.iface == "lo" && kr.port == 0 && kr.verdict == AcceptVerdict
  }

  predicate Skipped(d: Decoded) {
    !d.ok || d.ctGuard || LoGuard(d.rule)
  }

  predicate KernelTwin(kr: KernelRule, d: Decoded) {
    && d.ok && !d.ctGuard && !(d.rule.iface == "lo" && d.rule.port == 0)
    && kr.proto == K.PROTO_TCP && d.rule.proto == K.PROTO_UDP && SameKey(kr, d.rule)
  }

  function SingleProto(kr: KernelRule): Proto {
    if kr.proto == K.PROTO_UDP then Udp else Tcp
  }

  function ActionOf(v: VerdictName): Action {
    match v
    case AcceptVerdict => Allow
    case DropVerdict => Deny
    case _ => Reject
  }

  function ToRule(lib: Lib, kr: KernelRule, p: Proto): LRule {
    LRule(p, kr.port, ActionOf(kr.verdict), if kr.from.Some? then lib.showIP(kr.from.value) else "", kr.iface)
  }

  function Group(lib: Lib, ps: seq<K.Program>): seq<LRule> {
    if ps == [] then []
    else
      var d := DecodeProgram(ps[0]);
      if Skipped(d) then Group(lib, ps[1..])
      else if |ps| > 1 && KernelTwin(d.rule, DecodeProgram(ps[1])) then [ToRule(lib, d.rule, Both)] + Group(lib, ps[2..])
      else [ToRule(lib, d.rule, SingleProto(d.rule))] + Group(lib, ps[1..])
  }

  /** Whether the program at `i`, if there is one, is the udp twin of `kr`. */
  method TwinFollows(kr: KernelRule, ps: seq<K.Program>, i: nat) returns (twin: bool)
    ensures twin <==> i < |ps| && KernelTwin(kr, DecodeProgram(ps[i]))
  {
    hide DecodeProgram;
    twin := false;
    if i < |ps| {
      var nx, nxGuard, nxok := DecodeKernelRule(ps[i]);
      twin := nxok && !nxGuard && !(nx.iface == "lo" && nx.port == 0) &&
      kr.proto == K.PROTO_TCP && nx.proto == K.PROTO_UDP && SameKey(kr, nx);
    }
  }

  lemma GroupStep(lib: Lib, ps: seq<K.Program>, i: nat)
    requires i < |ps|
    ensures var d := DecodeProgram(ps[i]);
            if Skipped(d) then Group(lib, ps[i..]) == Group(lib, ps[i + 1..])
            else if i + 1 < |ps| && KernelTwin(d.rule, DecodeProgram(ps[i + 1]))
            then Group(lib, ps[i..]) == [ToRule(lib, d.rule, Both)] + Group(lib, ps[i + 2..])
            else Group(lib, ps[i..]) == [ToRule(lib, d.rule, SingleProto(d.rule))] + Group(lib, ps[i + 1..])
  {
    hide DecodeProgram, ToRule, KernelTwin, Skipped, SingleProto;
    var rest := ps[i..];
    assert rest[0] == ps[i] && rest[1..] == ps[i + 1..];
    if i + 1 < |ps| {
      assert rest[1] == ps[i + 1] && rest[2..] == ps[i + 2..];
    }
  }

  /** `kernelRulesToLrules`. */
  method KernelRulesToRules(lib: Lib, ps: seq<K.Program>) returns (out: seq<LRule>)
    ensures out == Group(lib, ps)
  {
    hide DecodeProgram, ToRule, KernelTwin, Group;
    out := [];
    var i := 0;
    assert ps[0..] == ps;
    while i < |ps|
      invariant 0 <= i <= |ps|
      invariant Group(lib, ps) == out + Group(lib, ps[i..])
    {
      GroupStep(lib, ps, i);
      var kr, ctGuard, ok := DecodeKernelRule(ps[i]);
      if !ok || ctGuard {
        i := i + 1;
        continue;
      }
      if kr.iface == "lo" && kr.port == 0 && kr.verdict == AcceptVerdict {
        i := i + 1;
        continue;
      }
      var proto := Tcp;
      if kr.proto == K.PROTO_UDP {
        proto := Udp;
      }
      var twin := TwinFollows(kr, ps, i + 1);
      if twin {
        proto := Both;
        i := i + 1;
      }
      out := out + [ToRule(lib, kr, proto)];
      i := i + 1;
    }
    assert ps[i..] == [];
    GroupNothing(lib);
  }

  lemma GroupNothing(lib: Lib)
    ensures Group(lib, []) == []
  {
  }

  // ---- reading back what was emitted ----------------------------------------------------

  function VerdictOf(a: Action): VerdictName {
    match a
    case Allow => AcceptVerdict
    case Deny => DropVerdict
    case Reject => RejectVerdict
  }

  /** The interface name as it comes back from the kernel. */
  function ReadName(iface: string): string {
    TrimZeroValue(K.IfnameData(iface))
  }

  function ReadFrom(lib: Lib, from: string): Option<IP> {
    if from == "" then None else lib.parseIP(from)
  }

  /** What the decoder makes of one emitted single-protocol rule. */
  function ReadBack(lib: Lib, r: LRule): KernelRule {
    KernelRule(ReadName(r.iface), ReadFrom(lib, r.from), ProtoNumber(r.proto), r.port,
               VerdictOf(r.action), r.action == Reject && r.proto != Udp)
  }

  lemma {:induction false} TrimZeroPlain(s: string, pad: string)
    requires Lacks(s, '\0') && (pad == "" || pad[0] == '\0')
    ensures TrimZeroValue(s + pad) == s
  {
    if s == "" {
      assert s + pad == pad;
    } else {
      assert (s + pad)[1..] == s[1..] + pad;
      TrimZeroPlain(s[1..], pad);
    }
  }

  /** A name of at most 15 bytes comes back unchanged exactly when it holds no NUL. */
  lemma ReadNameExactly(iface: string)
    requires |iface| <= 15
    ensures ReadName(iface) == iface <==> Lacks(iface, '\0')
  {
    if Lacks(iface, '\0') {
      TrimZeroPlain(iface, K.Zeros(16 - |iface|));
    }
  }

  lemma DecodeIface(iface: string, rest: K.Program)
    ensures DecodeFrom(IfaceMatch(iface) + rest, BLANK) == DecodeFrom(rest, BLANK.(iface := ReadName(iface)))
  {
    if iface == "" {
      assert IfaceMatch(iface) + rest == rest;
      assert ReadName("") == "" by { TrimZeroPlain("", K.Zeros(16)); }
    } else {
      assert (IfaceMatch(iface) + rest)[2..] == rest;
    }
  }

  lemma DecodeSource(lib: Lib, from: string, rest: K.Program, kr: KernelRule)
    requires Lawful(lib) && kr.from == None
    requires from == "" || lib.parseIP(from).Some?
    ensures DecodeFrom(FromMatch(lib, from) + rest, kr) == DecodeFrom(rest, kr.(from := ReadFrom(lib, from)))
  {
    if from == "" {
      assert FromMatch(lib, from) + rest == rest;
    } else {
      var m := FromMatch(lib, from);
      assert (m + rest)[0] == m[0] && (m + rest)[1] == m[1] && (m + rest)[2..] == rest;
      assert IPFromBytes(m[1].data) == lib.parseIP(from).value;
    }
  }

  lemma DecodePort(p: Proto, port: nat, rest: K.Program, kr: KernelRule)
    requires port <= 65535
    ensures DecodeFrom(PortMatch(p, port) + rest, kr) == DecodeFrom(rest, kr.(proto := ProtoNumber(p), port := port))
  {
    var m := PortMatch(p, port) + rest;
    var k1 := kr.(proto := ProtoNumber(p));
    assert K.Byte(ProtoNumber(p)) as int == ProtoNumber(p);
    assert DecodeFrom(m, kr) == DecodeFrom(m[2..], k1);
    assert m[2..][2..] == rest;
    assert Uint16(PortData(port)) == port;
    assert CmpData(m[2..], 2) == Some(PortData(port));
  }

  lemma DecodeDecision(p: Proto, action: Action, kr: KernelRule)
    requires kr.tcpReset == false && p != Both
    ensures DecodeFrom([Decision(p, action)], kr) ==
            Decoded(kr.(verdict := VerdictOf(action), tcpReset := action == Reject && p != Udp), false, true)
  {
    assert [Decision(p, action)][1..] == [];
  }

  lemma DecodeOne(lib: Lib, r: LRule)
    requires Lawful(lib) && Storable(lib, r) && r.proto != Both
    ensures DecodeProgram(EmitOne(lib, r)) == Decoded(ReadBack(lib, r), false, true)
    ensures !Skipped(DecodeProgram(EmitOne(lib, r)))
  {
    var d := [Decision(r.proto, r.action)];
    DecodeIface(r.iface, FromMatch(lib, r.from) + (PortMatch(r.proto, r.port) + d));
    var k1 := BLANK.(iface := ReadName(r.iface));
    DecodeSource(lib, r.from, PortMatch(r.proto, r.port) + d, k1);
    var k2 := k1.(from := ReadFrom(lib, r.from));
    DecodePort(r.proto, r.port, d, k2);
    DecodeDecision(r.proto, r.action, k2.(proto := ProtoNumber(r.proto), port := r.port));
  }

  /** Rules with their interface names as the kernel gives them back. */
  function ReadNames(rs: seq<LRule>): (ts: seq<LRule>)
    ensures |ts| == |rs| && forall i | 0 <= i < |rs| :: ts[i] == rs[i].(iface := ReadName(rs[i].iface))
  {
    seq(|rs|, i requires 0 <= i < |rs| => rs[i].(iface := ReadName(rs[i].iface)))
  }

  /** How a single-protocol rule shows once decoded. */
  function Shown(lib: Lib, r: LRule): LRule {
    CanonRule(lib, r.(iface := ReadName(r.iface)))
  }

  lemma ShownAt(lib: Lib, singles: seq<LRule>, i: nat)
    requires i < |singles|
    ensures Canon(lib, ReadNames(singles))[i] == Shown(lib, singles[i])
  {
  }

  lemma ToRuleShown(lib: Lib, r: LRule)
    requires Storable(lib, r) && r.proto != Both
    ensures ToRule(lib, ReadBack(lib, r), r.proto) == Shown(lib, r)
    ensures ToRule(lib, ReadBack(lib, r), Both) == WithProto(Shown(lib, r), Both)
    ensures SingleProto(ReadBack(lib, r)) == r.proto
  {
  }

  lemma KernelTwinShown(lib: Lib, a: LRule, b: LRule)
    requires Lawful(lib) && Storable(lib, a) && Storable(lib, b) && a.proto != Both && b.proto != Both
    ensures KernelTwin(ReadBack(lib, a), Decoded(ReadBack(lib, b), false, true)) <==> Twin(Shown(lib, a), Shown(lib, b))
  {
    var x, y := ReadFrom(lib, a.from), ReadFrom(lib, b.from);
    if x.Some? {
      ShowIPText(lib, x.value);
    }
    if y.Some? {
      ShowIPText(lib, y.value);
    }
    assert CanonFrom(lib, a.from) == CanonFrom(lib, b.from) <==> x == y;
  }

  lemma {:induction false} GroupEmitted(lib: Lib, singles: seq<LRule>)
    requires Lawful(lib) && StorableRules(lib, singles)
    requires forall i | 0 <= i < |singles| :: singles[i].proto != Both
    ensures Group(lib, EmitAll(lib, singles)) == Norm(lib, ReadNames(singles))
    decreases |singles|
  {
    hide EmitOne, DecodeProgram, ReadBack, KernelTwin, ToRule, Skipped, Shown, CanonRule, Twin;
    var shown := Canon(lib, ReadNames(singles));
    if singles == [] {
      assert shown == [];
      return;
    }
    var ps := EmitAll(lib, singles);
    DecodeOne(lib, singles[0]);
    ToRuleShown(lib, singles[0]);
    ShownAt(lib, singles, 0);
    if |singles| > 1 {
      DecodeOne(lib, singles[1]);
      ShownAt(lib, singles, 1);
      KernelTwinShown(lib, singles[0], singles[1]);
    }
    if |singles| > 1 && Twin(shown[0], shown[1]) {
      assert ps[2..] == EmitAll(lib, singles[2..]);
      assert shown[2..] == Canon(lib, ReadNames(singles[2..]));
      GroupEmitted(lib, singles[2..]);
    } else {
      assert ps[1..] == EmitAll(lib, singles[1..]);
      assert shown[1..] == Canon(lib, ReadNames(singles[1..]));
      GroupEmitted(lib, singles[1..]);
    }
  }

  lemma GroupSkipsGuards(lib: Lib, ps: seq<K.Program>)
    ensures Group(lib, Guards() + ps) == Group(lib, ps)
  {
    var all := Guards() + ps;
    assert all[0] == CtEstablishedAccept() && DecodeProgram(all[0]).ctGuard;
    var lo := LoAccept();
    assert ReadName("lo") == "lo" by { ReadNameExactly("lo"); }
    assert lo[2..] == [K.Verdict(K.VerdictAccept, "")] && lo[2..][1..] == [];
    var named := BLANK.(iface := "lo");
    assert DecodeProgram(lo) == DecodeFrom(lo[2..], named);
    assert DecodeFrom([K.Verdict(K.VerdictAccept, "")], named) == DecodeFrom([], named.(verdict := AcceptVerdict));
    assert LoGuard(DecodeProgram(lo).rule);
    assert all[1..][0] == lo && all[1..][1..] == ps;
  }

  lemma {:induction false} ExpandReadNames(rs: seq<LRule>)
    ensures ReadNames(Expand(rs)) == Expand(ReadNames(rs))
  {
    if rs == [] {
      assert ReadNames(rs) == [];
    } else {
      var ts := ReadNames(rs);
      ExpandReadNames(rs[1..]);
      assert ts[1..] == ReadNames(rs[1..]);
      var a, b := ExpandRule(rs[0]), Expand(rs[1..]);
      assert ReadNames(a + b) == ReadNames(a) + ReadNames(b);
      assert ReadNames(a) == ExpandRule(ts[0]);
    }
  }

  /** Reading the managed chain back gives the normal form of the list, with names cut at a NUL. */
  lemma ReadBuilt(lib: Lib, enabled: bool, rs: seq<LRule>)
    requires Lawful(lib) && StorableRules(lib, rs)
    ensures Group(lib, Build(lib, enabled, rs).rules) == Norm(lib, ReadNames(rs))
  {
    var e := Expand(rs);
    ExpandStorable(lib, rs);
    ExpandSingles(rs);
    GroupSkipsGuards(lib, EmitAll(lib, e));
    GroupEmitted(lib, e);
    ExpandReadNames(rs);
    CanonExpand(lib, ReadNames(rs));
    MergeExpand(Canon(lib, ReadNames(rs)));
  }

  /** Kernel round trip: a valid list comes back as its normal form exactly when every interface name is free of NUL. */
  lemma KernelRoundTrip(lib: Lib, enabled: bool, rs: seq<LRule>)
    requires Lawful(lib) && ValidRules(lib, rs)
    ensures Group(lib, Build(lib, enabled, rs).rules) == Norm(lib, rs)
            <==> (forall i | 0 <= i < |rs| :: Lacks(rs[i].iface, '\0'))
  {
    ValidStorable(lib, rs);
    ReadBuilt(lib, enabled, rs);
    var ts := ReadNames(rs);
    forall i | 0 <= i < |rs| ensures ts[i] == rs[i] <==> Lacks(rs[i].iface, '\0') {
      ReadNameExactly(rs[i].iface);
    }
    if Norm(lib, ts) == Norm(lib, rs) {
      ExpandMerge(Canon(lib, ts));
      ExpandMerge(Canon(lib, rs));
      SameShapeExpansion(Canon(lib, ts), Canon(lib, rs));
      forall i | 0 <= i < |rs| ensures ts[i] == rs[i] {
        assert CanonRule(lib, ts[i]) == CanonRule(lib, rs[i]);
      }
    } else {
      assert ts != rs;
    }
  }

  /** A list with canonical addresses, whole names and no adjacent twin comes back as it is. */
  lemma KernelRoundTripIdentity(lib: Lib, enabled: bool, rs: seq<LRule>)
    requires Lawful(lib) && ValidRules(lib, rs) && CanonicalRules(lib, rs)
    requires forall i | 0 <= i < |rs| :: Lacks(rs[i].iface, '\0')
    ensures Group(lib, Build(lib, enabled, rs).rules) == rs <==> NoTwins(rs)
  {
    KernelRoundTrip(lib, enabled, rs);
    assert Canon(lib, rs) == rs;
    MergeIdentityExactly(rs);
  }
}
