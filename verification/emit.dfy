/** Compiling logical rules to kernel programs, and what the compiled table does with a packet
    (nftfw.go: emitRule, ctEstablishedAccept, loAccept, apply). */
module Emit {
  import opened GoLib
  import opened Rules
  import K = Kernel

  function ProtoNumber(p: Proto): nat {
    if p == Udp then K.PROTO_UDP else K.PROTO_TCP
  }

  function IfaceMatch(iface: string): K.Program {
    if iface == "" then []
    else [K.Meta(K.MetaIifname, 1), K.Cmp(K.CmpEq, 1, K.IfnameData(iface))]
  }

  /** An unparsable source compares against no data, as `(net.IP)(nil).To16()` gives. */
  function SourceMatch(source: Option<IP>): K.Program {
    match source
    case Some(V4(b)) => [K.Payload(1, K.NetworkHeader, 12, 4), K.Cmp(K.CmpEq, 1, b)]
    case Some(V6(b)) => [K.Payload(1, K.NetworkHeader, 8, 16), K.Cmp(K.CmpEq, 1, b)]
    case None => [K.Payload(1, K.NetworkHeader, 8, 16), K.Cmp(K.CmpEq, 1, "")]
  }

  function FromMatch(lib: Lib, from: string): K.Program {
    if from == "" then [] else SourceMatch(lib.parseIP(from))
  }

  function PortData(port: nat): string {
    [K.Byte(port / 256), K.Byte(port)]
  }

  function PortMatch(p: Proto, port: nat): K.Program {
    [K.Meta(K.MetaL4proto, 1), K.Cmp(K.CmpEq, 1, [K.Byte(ProtoNumber(p))]),
     K.Payload(1, K.TransportHeader, 2, 2), K.Cmp(K.CmpEq, 1, PortData(port))]
  }

  function Decision(p: Proto, action: Action): K.Expr {
    match action
    case Allow => K.Verdict(K.VerdictAccept, "")
    case Deny => K.Verdict(K.VerdictDrop, "")
    case Reject =>
      if ProtoNumber(p) == K.PROTO_TCP then K.Reject(K.REJECT_TCP_RESET, 0)
      else K.Reject(K.REJECT_ICMPX_UNREACH, K.REJECT_ICMPX_PORT_UNREACH)
  }

  /** The program of one single-protocol rule. */
  function EmitOne(lib: Lib, r: LRule): K.Program {
    IfaceMatch(r.iface) + (FromMatch(lib, r.from) + (PortMatch(r.proto, r.port) + [Decision(r.proto, r.action)]))
  }

  /** The programs of a list of single-protocol rules. */
  function EmitAll(lib: Lib, singles: seq<LRule>): (ps: seq<K.Program>)
    ensures |ps| == |singles|
    ensures forall i | 0 <= i < |ps| :: ps[i] == EmitOne(lib, singles[i])
  {
    seq(|singles|, i requires 0 <= i < |singles| => EmitOne(lib, singles[i]))
  }

  /** The body of `emitRule`'s loop: the matches the rule asks for, then the verdict. */
  method EmitProgram(lib: Lib, r: LRule, p: Proto) returns (exs: K.Program)
    requires p != Both
    ensures exs == EmitOne(lib, WithProto(r, p))
  {
    exs := [];
    if r.iface != "" {
      exs := exs + [K.Meta(K.MetaIifname, 1), K.Cmp(K.CmpEq, 1, K.IfnameData(r.iface))];
    }
    if r.from != "" {
      exs := exs + SourceMatch(lib.parseIP(r.from));
    }
    assert exs == IfaceMatch(r.iface) + FromMatch(lib, r.from);
    exs := exs + PortMatch(p, r.port);
    var decision: K.Expr;
    match r.action {
      case Allow => decision := K.Verdict(K.VerdictAccept, "");
      case Deny => decision := K.Verdict(K.VerdictDrop, "");
      case Reject =>
        if p == Tcp {
          decision := K.Reject(K.REJECT_TCP_RESET, 0);
        } else {
          decision := K.Reject(K.REJECT_ICMPX_UNREACH, K.REJECT_ICMPX_PORT_UNREACH);
        }
    }
    assert decision == Decision(p, r.action);
    exs := exs + [decision];
  }

  /** `emitRule`: one program per protocol. */
  method EmitRule(lib: Lib, r: LRule) returns (out: seq<K.Program>)
    ensures out == EmitAll(lib, ExpandRule(r))
  {
    out := [];
    var ps := Protos(r.proto);
    var i := 0;
    while i < |ps|
      invariant 0 <= i <= |ps|
      invariant |out| == i && forall j | 0 <= j < i :: out[j] == EmitOne(lib, WithProto(r, ps[j]))
    {
      var exs := EmitProgram(lib, r, ps[i]);
      out := out + [exs];
      i := i + 1;
    }
    assert r.proto != Both ==> WithProto(r, r.proto) == r;
  }

  function CtEstablishedAccept(): K.Program {
    [K.CtState(1),
     K.Bitwise(1, 1, [K.Byte(6), '\0', '\0', '\0'], K.Zeros(4)),
     K.Cmp(K.CmpNeq, 1, K.Zeros(4)),
     K.Verdict(K.VerdictAccept, "")]
  }

  function LoAccept(): K.Program {
    [K.Meta(K.MetaIifname, 1), K.Cmp(K.CmpEq, 1, K.IfnameData("lo")), K.Verdict(K.VerdictAccept, "")]
  }

  function Guards(): seq<K.Program> {
    [CtEstablishedAccept(), LoAccept()]
  }

  const JUMP: K.Program := [K.Verdict(K.VerdictJump, K.RULES_CHAIN)]

  /** The table `apply` installs. */
  function Build(lib: Lib, enabled: bool, rs: seq<LRule>): K.Table {
    K.Table(if enabled then K.PolicyDrop else K.PolicyAccept,
            if enabled then [JUMP] else [],
            Guards() + EmitAll(lib, Expand(rs)))
  }

  /** `apply`: the netlink batch as the table it leaves behind. */
  method BuildTable(lib: Lib, enabled: bool, rs: seq<LRule>) returns (t: K.Table)
    ensures t == Build(lib, enabled, rs)
  {
    hide EmitOne, Guards, Expand;
    var policy := K.PolicyAccept;
    if enabled {
      policy := K.PolicyDrop;
    }
    var input: seq<K.Program> := [];
    if enabled {
      input := [JUMP];
    }
    var chain := Guards();
    EmitNothing(lib);
    var i := 0;
    while i < |rs|
      invariant 0 <= i <= |rs|
      invariant chain == Guards() + EmitAll(lib, Expand(rs[..i]))
    {
      var ps := EmitRule(lib, rs[i]);
      chain := chain + ps;
      EmitSnoc(lib, rs[..i], rs[i]);
      assert rs[..i + 1] == rs[..i] + [rs[i]];
      i := i + 1;
    }
    assert rs[..|rs|] == rs;
    t := K.Table(policy, input, chain);
  }

  lemma EmitNothing(lib: Lib)
    ensures EmitAll(lib, Expand([])) == []
  {
  }

  lemma EmitSnoc(lib: Lib, rs: seq<LRule>, r: LRule)
    ensures EmitAll(lib, Expand(rs + [r])) == EmitAll(lib, Expand(rs)) + EmitAll(lib, ExpandRule(r))
  {
    ExpandAppend(rs, [r]);
    assert Expand([r]) == ExpandRule(r) + Expand([]);
    assert EmitAll(lib, Expand(rs) + ExpandRule(r)) == EmitAll(lib, Expand(rs)) + EmitAll(lib, ExpandRule(r));
  }

  /** Canonical spelling of addresses does not change the compiled programs. */
  lemma EmitCanon(lib: Lib, rs: seq<LRule>)
    requires Lawful(lib)
    ensures EmitAll(lib, Canon(lib, rs)) == EmitAll(lib, rs)
  {
    forall i | 0 <= i < |rs| ensures EmitOne(lib, CanonRule(lib, rs[i])) == EmitOne(lib, rs[i]) {
      var r := rs[i];
      CanonFromIdempotent(lib, r.from);
      if r.from != "" && lib.parseIP(r.from).Some? {
        ShowIPText(lib, lib.parseIP(r.from).value);
      }
    }
  }

  /** Re-applying the normal form of a list rebuilds exactly the table of the list itself. */
  lemma BuildNorm(lib: Lib, enabled: bool, rs: seq<LRule>)
    requires Lawful(lib)
    ensures Build(lib, enabled, Norm(lib, rs)) == Build(lib, enabled, rs)
    ensures Build(lib, enabled, Merge(rs)) == Build(lib, enabled, rs)
  {
    ExpandMerge(Canon(lib, rs));
    CanonExpand(lib, rs);
    EmitCanon(lib, Expand(rs));
    ExpandMerge(rs);
  }
}
