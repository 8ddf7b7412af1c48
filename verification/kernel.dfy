/** The part of the kernel's nftables virtual machine that the backend programs: expressions
    over registers, rules that are abandoned at the first failed comparison, chains and a
    base-chain policy. */
module Kernel {
  import opened GoLib

  datatype MetaKey = MetaIifname | MetaL4proto | MetaOther

  datatype CmpOp = CmpEq | CmpNeq | CmpOther

  datatype PayloadBase = LinkHeader | NetworkHeader | TransportHeader

  datatype VerdictKind = VerdictAccept | VerdictDrop | VerdictJump | VerdictOther

  datatype Expr =
    | Meta(key: MetaKey, register: nat)
    | CtState(register: nat)
    | Bitwise(source: nat, dest: nat, mask: string, xor: string)
    | Cmp(op: CmpOp, register: nat, data: string)
    | Payload(dest: nat, base: PayloadBase, offset: nat, len: nat)
    | Verdict(kind: VerdictKind, chain: string)
    | Reject(rejectType: nat, code: nat)
    | OtherExpr

  type Program = seq<Expr>

  datatype Policy = PolicyAccept | PolicyDrop

  /** The table inet gopit: the base chain's policy and rules, and the managed chain's rules. */
  datatype Table = Table(policy: Policy, input: seq<Program>, rules: seq<Program>)

  const RULES_CHAIN := "gopit-input"
  const PROTO_TCP: nat := 6
  const PROTO_UDP: nat := 17
  const REJECT_TCP_RESET: nat := 1
  const REJECT_ICMPX_UNREACH: nat := 2
  const REJECT_ICMPX_PORT_UNREACH: nat := 1

  // ---- packets ----------------------------------------------------------------

  /** Connection-tracking state; each is one bit of the value the ct expression loads. */
  datatype ConnState = CtInvalid | CtEstablished | CtRelated | CtNew | CtUntracked

  function CtBit(c: ConnState): nat {
    match c
    case CtInvalid => 1
    case CtEstablished => 2
    case CtRelated => 4
    case CtNew => 8
    case CtUntracked => 64
  }

  /** `nh` is the packet from its network header up to its transport header, `th` from there on. */
  datatype Packet = Packet(iif: string, ct: ConnState, l4proto: nat, nh: string, th: string)

  /** Interface names as the kernel has them: at most 15 bytes, no NUL. */
  predicate KernelName(name: string) {
    |name| <= 15 && Lacks(name, '\0')
  }

  /** What the kernel takes for white space in a name. */
  predicate KernelSpace(c: char) {
    '\t' <= c <= '\r' || c == ' ' || c == '\U{A0}'
  }

  /** Names that a network device can have. */
  predicate DeviceName(name: string) {
    && KernelName(name) && name != "" && name != "." && name != ".."
    && forall i | 0 <= i < |name| :: name[i] != '/' && name[i] != ':' && !KernelSpace(name[i])
  }

  predicate ValidPacket(pkt: Packet) {
    DeviceName(pkt.iif) && pkt.l4proto < 256
  }

  // ---- evaluation ---------------------------------------------------------------

  function Zeros(n: nat): (z: string)
    ensures |z| == n && forall i | 0 <= i < n :: z[i] == '\0'
  {
    seq(n, _ => '\0')
  }

  /** `v` cut or zero-padded to `n` bytes. */
  function Fit(v: string, n: nat): (f: string)
    ensures |f| == n
    ensures |v| == n ==> f == v
  {
    if |v| >= n then v[..n] else v + Zeros(n - |v|)
  }

  /** `ifnameData`: the name in 16 NUL-padded bytes. */
  function IfnameData(name: string): (d: string)
    ensures |d| == 16
  {
    Fit(name, 16)
  }

  function Byte(n: nat): (c: char)
    ensures c as int == n % 256
  {
    (n % 256) as char
  }

  /** `(v & mask) ^ xor`, bit by bit. */
  function MaskNat(v: nat, mask: nat, xor: nat): nat
    decreases v + mask + xor
  {
    if v == 0 && mask == 0 && xor == 0 then 0
    else (if (v % 2 == 1 && mask % 2 == 1) != (xor % 2 == 1) then 1 else 0) + 2 * MaskNat(v / 2, mask / 2, xor / 2)
  }

  function MaskByte(v: char, mask: char, xor: char): char {
    Byte(MaskNat(v as int, mask as int, xor as int))
  }

  function Masked(v: string, mask: string, xor: string): (m: string)
    requires |v| == |mask| == |xor|
    ensures |m| == |v|
    ensures forall i | 0 <= i < |v| :: m[i] == MaskByte(v[i], mask[i], xor[i])
  {
    seq(|v|, i requires 0 <= i < |v| => MaskByte(v[i], mask[i], xor[i]))
  }

  type Registers = map<nat, string>

  function Load(regs: Registers, r: nat): string {
    if r in regs then regs[r] else ""
  }

  datatype Outcome = Continue | Accepted | Dropped | Rejected(rejectType: nat, code: nat) | Jumped(chain: string)

  /** The packet's bytes from a header on: a load that starts in one header may run into what follows it. */
  function BytesFrom(pkt: Packet, base: PayloadBase): string {
    match base
    case NetworkHeader => pkt.nh + pkt.th
    case TransportHeader => pkt.th
    case LinkHeader => ""
  }

  /** The bytes a payload expression asks for, if the packet has them. */
  function HeaderBytes(pkt: Packet, base: PayloadBase, offset: nat, len: nat): Option<string> {
    var h := BytesFrom(pkt, base);
    if offset + len <= |h| then Some(h[offset..offset + len]) else None
  }

  /** Runs one rule's expressions; `Continue` means the rule did not decide. */
  function Run(exs: Program, pkt: Packet, regs: Registers): Outcome {
    if exs == [] then Continue
    else
      var rest := exs[1..];
      match exs[0]
      case Meta(MetaIifname, r) => Run(rest, pkt, regs[r := IfnameData(pkt.iif)])
      case Meta(MetaL4proto, r) => Run(rest, pkt, regs[r := [Byte(pkt.l4proto)]])
      case Meta(MetaOther, _) => Continue
      case CtState(r) => Run(rest, pkt, regs[r := [Byte(CtBit(pkt.ct)), '\0', '\0', '\0']])
      case Bitwise(s, d, mask, xor) =>
        if |mask| == |xor| then Run(rest, pkt, regs[d := Masked(Fit(Load(regs, s), |mask|), mask, xor)]) else Continue
      case Cmp(CmpEq, r, data) => if Fit(Load(regs, r), |data|) == data then Run(rest, pkt, regs) else Continue
      case Cmp(CmpNeq, r, data) => if Fit(Load(regs, r), |data|) != data then Run(rest, pkt, regs) else Continue
      case Cmp(CmpOther, _, _) => Continue
      case Payload(d, base, offset, len) =>
        (match HeaderBytes(pkt, base, offset, len)
         case Some(v) => Run(rest, pkt, regs[d := v])
         case None => Continue)
      case Verdict(VerdictAccept, _) => Accepted
      case Verdict(VerdictDrop, _) => Dropped
      case Verdict(VerdictJump, chain) => Jumped(chain)
      case Verdict(VerdictOther, _) => Continue
      case Reject(t, c) => Rejected(t, c)
      case OtherExpr => Continue
  }

  /** Runs a chain's rules in order until one decides. */
  function RunChain(progs: seq<Program>, pkt: Packet): Outcome {
    if progs == [] then Continue
    else
      var o := Run(progs[0], pkt, map[]);
      if o == Continue then RunChain(progs[1..], pkt) else o
  }

  /** The base chain: a jump runs the managed chain and comes back if that does not decide. */
  function RunBase(progs: seq<Program>, managed: seq<Program>, pkt: Packet): Outcome {
    if progs == [] then Continue
    else
      var o := match Run(progs[0], pkt, map[])
        case Jumped(chain) =>
          (if chain == RULES_CHAIN then RunChain(managed, pkt) else Continue)
        case other => other;
      if o == Continue then RunBase(progs[1..], managed, pkt) else o
  }

  function PolicyOutcome(p: Policy): Outcome {
    if p == PolicyDrop then Dropped else Accepted
  }

  /** What the table does with a packet. */
  function TableVerdict(t: Table, pkt: Packet): Outcome {
    match RunBase(t.input, t.rules, pkt)
    case Continue => PolicyOutcome(t.policy)
    case o => o
  }

  // ---- facts --------------------------------------------------------------------

  /** On kernel names the padded comparison is equality of names. */
  lemma IfnameDataInjective(a: string, b: string)
    requires KernelName(a) && KernelName(b)
    ensures IfnameData(a) == IfnameData(b) <==> a == b
  {
    if |a| < |b| {
      assert IfnameData(a)[|a|] != IfnameData(b)[|a|];
    } else if |b| < |a| {
      assert IfnameData(b)[|b|] != IfnameData(a)[|b|];
    } else {
      assert IfnameData(a)[..|a|] == a && IfnameData(b)[..|b|] == b;
    }
  }
}
