/** Which rules keep to their source's address family on packets that a host accepts (nftfw.go: emitRule and the comment
    on it). */
module Strays {
  import opened GoLib
  import opened Rules
  import K = Kernel
  import opened Emit
  import opened Meaning

  // ---- packets that are well formed ------------------------------------------------------------------

  function Word(s: string): nat
    requires |s| >= 2
  {
    s[0] as int * 256 + s[1] as int
  }

  /** The sum of the 16-bit words. */
  function WordSum(s: string): nat {
    if |s| < 2 then 0 else Word(s) + WordSum(s[2..])
  }

  /** Section 3.1 of RFC 791: options up to the end of the header or an end-of-list; no-operation is one byte, any other
      option has a length byte that counts the whole option. */
  predicate Options(o: string)
    decreases |o|
  {
    o == "" || o[0] as int == 0
    || (o[0] as int == 1 && Options(o[1..]))
    || (o[0] as int > 1 && |o| >= 2 && 2 <= o[1] as int <= |o| && Options(o[o[1] as int..]))
  }

  /** The fields of an IPv4 header that a receiver checks: header length, total length, checksum, framing of the options;
      and the protocol is the one that `meta l4proto` gives. */
  predicate WellFormed4(pkt: K.Packet) {
    && IPv4Header(pkt.nh) && |pkt.nh| % 4 == 0 && pkt.nh[0] as int % 16 == |pkt.nh| / 4
    && Word(pkt.nh[2..]) == |pkt.nh| + |pkt.th| && WordSum(pkt.nh) % 65535 == 0 && Options(pkt.nh[20..])
    && pkt.nh[9] as int == pkt.l4proto
  }

  /** Section 3 of RFC 8200: the payload length, and without extension headers the next header is the protocol. */
  predicate WellFormed6(pkt: K.Packet) {
    && IPv6Header(pkt.nh) && Word(pkt.nh[4..]) == |pkt.nh| - 40 + |pkt.th|
    && (|pkt.nh| == 40 ==> pkt.nh[6] as int == pkt.l4proto)
  }

  predicate InternetPacket(pkt: K.Packet) {
    K.ValidPacket(pkt) && Octets(pkt.nh) && Octets(pkt.th) && (WellFormed4(pkt) || WellFormed6(pkt))
  }

  // ---- rules that keep to their family -----------------------------------------------------------------

  /** The bytes begin a list of options that `room` more bytes can complete. */
  predicate Begun(o: string, room: nat)
    decreases |o|
  {
    o == "" || o[0] as int == 0
    || (o[0] as int == 1 && Begun(o[1..], room))
    || (o[0] as int > 1 &&
        if |o| == 1 then room >= 1
        else 2 <= o[1] as int && (if o[1] as int <= |o| then Begun(o[o[1] as int..], room) else o[1] as int <= |o| + room))
  }

  const OPTION_ROOM: nat := 36

  /** A 16-byte source read as bytes 8 to 24 of an IPv4 packet: protocol, checksum, addresses, and then either options or
      the ports. */
  predicate FitsIPv4(b: string, r: LRule)
    requires |b| == 16
  {
    ProtoMatches(r.proto, b[1] as int) && (Begun(b[12..], OPTION_ROOM) || b[14..] == PortData(r.port))
  }

  /** No device other than lo has the name. */
  predicate NoDevice(iface: string) {
    iface == "lo" || (iface != "" && Lacks(iface, '\0') && !K.DeviceName(iface))
  }

  /** A rule that cannot meet a packet of another family: it has no source; or no device but lo, whose packets the guard
      takes first, has its name; or its source is a 16-byte address that no IPv4 packet for the rule can hold at the
      compared place. A 4-byte source fits IPv6 packets always. */
  predicate Confined(lib: Lib, r: LRule) {
    || r.from == "" || NoDevice(r.iface)
    || match lib.parseIP(r.from)
       case Some(V6(b)) => |b| == 16 && !FitsIPv4(b, r)
       case _ => false
  }

  predicate AllConfined(lib: Lib, rs: seq<LRule>) {
    forall i | 0 <= i < |rs| :: Confined(lib, rs[i])
  }

  lemma {:induction false} OptionsBegin(o: string, e: string)
    requires Options(o + e)
    ensures Begun(o, |e|)
    decreases |o|
  {
    if o == "" || o[0] as int == 0 {
    } else if o[0] as int == 1 {
      assert (o + e)[1..] == o[1..] + e;
      OptionsBegin(o[1..], e);
    } else if |o| >= 2 && o[1] as int <= |o| {
      var n := o[1] as int;
      assert (o + e)[n..] == o[n..] + e;
      OptionsBegin(o[n..], e);
    }
  }

  lemma {:induction false} BegunWider(o: string, room: nat, more: nat)
    requires Begun(o, room) && room <= more
    ensures Begun(o, more)
    decreases |o|
  {
    if o == "" || o[0] as int == 0 {
    } else if o[0] as int == 1 {
      BegunWider(o[1..], room, more);
    } else if |o| >= 2 && o[1] as int <= |o| {
      BegunWider(o[o[1] as int..], room, more);
    }
  }

  /** An IPv4 packet that a 16-byte source matches shows that the source fits. */
  lemma MatchFits(lib: Lib, r: LRule, pkt: K.Packet)
    requires Lawful(lib) && Storable(lib, r) && WellFormed4(pkt) && Octets(pkt.nh) && Octets(pkt.th)
    requires r.from != "" && lib.parseIP(r.from).value.V6? && RuleMatches(lib, r, pkt)
    ensures FitsIPv4(lib.parseIP(r.from).value.octets, r)
  {
    var b, bytes := lib.parseIP(r.from).value.octets, pkt.nh + pkt.th;
    assert b == bytes[8..24] && b[1] == bytes[9] == pkt.nh[9];
    if |pkt.nh| == 20 {
      assert b[14..] == bytes[22..24] == pkt.th[2..4];
      PortDataMatches(r.port, pkt.th);
    } else {
      var o := pkt.nh[20..];
      assert o[..4] == b[12..] && o == o[..4] + o[4..];
      OptionsBegin(o[..4], o[4..]);
      BegunWider(b[12..], |o| - 4, OPTION_ROOM);
    }
  }

  /** So a confined rule matches by bytes exactly when it matches by address and family. */
  lemma ConfinedMatches(lib: Lib, r: LRule, pkt: K.Packet)
    requires Lawful(lib) && Storable(lib, r) && Confined(lib, r) && InternetPacket(pkt) && pkt.iif != "lo"
    ensures RuleMatches(lib, r, pkt) <==> FamilyRuleMatches(lib, r, pkt)
  {
    OwnFamilyMatches(lib, r, pkt);
    if RuleMatches(lib, r, pkt) && !OwnFamily(lib, r, pkt.nh) {
      NameMatchesExactly(r.iface, pkt);
      if !NoDevice(r.iface) {
        MatchFits(lib, r, pkt);
      }
    }
  }

  lemma {:induction false} ConfinedAgree(lib: Lib, rs: seq<LRule>, pkt: K.Packet)
    requires Lawful(lib) && StorableRules(lib, rs) && AllConfined(lib, rs) && InternetPacket(pkt) && pkt.iif != "lo"
    ensures FamilyFirstMatch(lib, rs, pkt) == FirstMatch(lib, rs, pkt)
  {
    hide RuleMatches, FamilyRuleMatches, Confined, InternetPacket, Storable;
    if rs != [] {
      ConfinedMatches(lib, rs[0], pkt);
      ConfinedAgree(lib, rs[1..], pkt);
    }
  }

  /** The table decides this packet by address and family. */
  predicate FamilyExact(lib: Lib, rs: seq<LRule>, pkt: K.Packet) {
    K.TableVerdict(Build(lib, true, rs), pkt) == FamilyIntended(lib, true, rs, pkt)
  }

  /** Rules that keep the promise by themselves. */
  predicate Bystanders(lib: Lib, rs: seq<LRule>) {
    StorableRules(lib, rs) && AllConfined(lib, rs)
  }

  /** Lists in which no rule can meet the other family keep the promise on every packet. */
  lemma AllConfinedExact(lib: Lib, rs: seq<LRule>, pkt: K.Packet)
    requires Lawful(lib) && Bystanders(lib, rs) && InternetPacket(pkt)
    ensures FamilyExact(lib, rs, pkt)
  {
    hide InternetPacket;
    assert K.ValidPacket(pkt) by { InternetValid(pkt); }
    CompiledMeaning(lib, true, rs, pkt);
    if pkt.iif != "lo" {
      ConfinedAgree(lib, rs, pkt);
    }
  }

  lemma InternetValid(pkt: K.Packet)
    requires InternetPacket(pkt)
    ensures K.ValidPacket(pkt)
  {
  }

  // ---- rules that stray -------------------------------------------------------------------------------------

  lemma {:induction false} WordSumAppend(a: string, b: string)
    requires |a| % 2 == 0
    ensures WordSum(a + b) == WordSum(a) + WordSum(b)
    decreases |a|
  {
    if |a| < 2 {
      assert a + b == b;
    } else {
      assert (a + b)[2..] == a[2..] + b;
      WordSumAppend(a[2..], b);
    }
  }

  function Bytes2(n: nat): (s: string)
    ensures |s| == 2 && Octets(s) && (n < 65536 ==> Word(s) == n)
  {
    [K.Byte(n / 256), K.Byte(n)]
  }

  /** The identification that makes the words of the header sum to zero, as a right checksum does. */
  function Balance(a: string, b: string): (id: string)
    requires |a| % 2 == 0
    ensures |id| == 2 && Octets(id) && WordSum(a + id + b) % 65535 == 0
  {
    var rest := WordSum(a) + WordSum(b);
    var id := Bytes2(65535 - rest % 65535);
    assert WordSum(id) == Word(id) by { assert id[2..] == ""; }
    WordSumAppend(a + id, b);
    WordSumAppend(a, id);
    assert WordSum(a + id + b) == rest + (65535 - rest % 65535);
    Balanced(rest);
    id
  }

  lemma Balanced(n: nat)
    ensures (n + (65535 - n % 65535)) % 65535 == 0
  {
    assert n + (65535 - n % 65535) == 65535 * (n / 65535 + 1);
  }

  /** A header from its first bytes, the identification that balances them, and the rest. */
  lemma HeaderParts(front: string, back: string)
    requires |front| == 4 && |back| >= 4
    ensures var nh := front + Balance(front, back) + back;
            && |nh| == 6 + |back| && nh[0] == front[0] && nh[2..][..2] == front[2..] && nh[8..] == back[2..]
            && WordSum(nh) % 65535 == 0 && (Octets(front) && Octets(back) ==> Octets(nh))
  {
    hide WordSum, Balance;
    var nh := front + Balance(front, back) + back;
    assert nh[2..][..2] == front[2..];
    assert nh[8..] == back[2..];
  }

  /** The first four bytes of an IPv4 header of `n` bytes in a packet of `total`. */
  function Front(n: nat, total: nat): (front: string)
    requires n <= 60
    ensures |front| == 4 && Octets(front) && front[0] as int == 64 + n / 4
    ensures total < 65536 ==> Word(front[2..]) == total
  {
    var front := [(64 + n / 4) as char, '\0'] + Bytes2(total);
    assert front[2..] == Bytes2(total);
    front
  }

  /** An IPv4 packet with the given bytes from the time to live on. */
  function Packet4(iif: string, tail: string, th: string): K.Packet
    requires 12 <= |tail| <= 52
  {
    var front, back := Front(8 + |tail|, 8 + |tail| + |th|), ['\0', '\0'] + tail;
    K.Packet(iif, K.CtInvalid, tail[1] as int, front + Balance(front, back) + back, th)
  }

  lemma Packet4WellFormed(iif: string, tail: string, th: string)
    requires K.DeviceName(iif) && 12 <= |tail| <= 52 && |tail| % 4 == 0 && Octets(tail) && |th| == 4 && Octets(th)
    requires Options(tail[12..])
    ensures var pkt := Packet4(iif, tail, th);
            InternetPacket(pkt) && pkt.nh[8..] == tail && !IPv6Header(pkt.nh) && |pkt.nh| == 8 + |tail|
  {
    hide Options, WordSum, Balance, K.DeviceName, Front;
    var front, back := Front(8 + |tail|, 8 + |tail| + |th|), ['\0', '\0'] + tail;
    HeaderParts(front, back);
    var nh := Packet4(iif, tail, th).nh;
    assert back[2..] == tail;
    assert nh[20..] == nh[8..][12..] && nh[9] == nh[8..][1];
    assert Word(nh[2..]) == Word(nh[2..][..2]);
    FirstByte4(nh[0], |tail|);
  }

  lemma FirstByte4(c: char, n: nat)
    requires 12 <= n <= 52 && n % 4 == 0 && c as int == 64 + (8 + n) / 4
    ensures c as int / 16 == 4 && c as int % 16 == (8 + n) / 4
  {
  }

  /** With the 16 bytes in front and options after them. */
  lemma LongWellFormed(iif: string, b: string, more: string, th: string)
    requires K.DeviceName(iif) && |b| == 16 && Octets(b) && |more| == OPTION_ROOM && Octets(more)
    requires |th| == 4 && Octets(th) && Options(b[12..] + more)
    ensures var pkt := Packet4(iif, b + more, th);
            InternetPacket(pkt) && SourceBytes(V6(b), pkt.nh + th) && !IPv6Header(pkt.nh)
  {
    hide Options, K.DeviceName, Packet4, InternetPacket;
    assert (b + more)[12..] == b[12..] + more;
    Packet4WellFormed(iif, b + more, th);
    var nh := Packet4(iif, b + more, th).nh;
    assert (nh + th)[8..24] == nh[8..][..16] == b;
  }

  /** Without options, the last four of the 16 bytes being the ports. */
  lemma ShortWellFormed(iif: string, b: string)
    requires K.DeviceName(iif) && |b| == 16 && Octets(b)
    ensures var pkt := Packet4(iif, b[..12], b[12..]);
            InternetPacket(pkt) && SourceBytes(V6(b), pkt.nh + b[12..]) && !IPv6Header(pkt.nh)
  {
    hide K.DeviceName, Packet4, InternetPacket;
    assert b[..12][12..] == "";
    Packet4WellFormed(iif, b[..12], b[12..]);
    var nh := Packet4(iif, b[..12], b[12..]).nh;
    assert (nh + b[12..])[8..24] == nh[8..] + b[12..] == b;
  }

  /** An IPv6 packet whose source holds 4 bytes at offset 12. */
  function Packet6(iif: string, b: string, l4proto: nat, th: string): K.Packet
    requires |b| == 4
  {
    var address := ['\U{20}', '\U{01}', '\U{0D}', '\U{B8}'];
    K.Packet(iif, K.CtInvalid, l4proto,
             ['\U{60}', '\0', '\0', '\0'] + Bytes2(|th|) + [K.Byte(l4proto), '\U{40}']
             + address + b + K.Zeros(8) + address + K.Zeros(11) + ['\U{01}'], th)
  }

  lemma Packet6WellFormed(iif: string, b: string, l4proto: nat, th: string)
    requires K.DeviceName(iif) && |b| == 4 && Octets(b) && l4proto < 256 && |th| <= 40 && Octets(th)
    ensures var pkt := Packet6(iif, b, l4proto, th);
            InternetPacket(pkt) && SourceBytes(V4(b), pkt.nh + th) && !IPv4Header(pkt.nh)
  {
    var nh := Packet6(iif, b, l4proto, th).nh;
    assert |nh| == 40 && nh[12..16] == b && nh[4..][..2] == Bytes2(|th|) && nh[6] as int == l4proto;
    assert (nh + th)[12..16] == nh[12..16];
  }

  /** Further bytes that complete the options. */
  lemma Complete(o: string) returns (more: string)
    requires Begun(o, OPTION_ROOM)
    ensures |more| == OPTION_ROOM && Octets(more) && Options(o + more)
  {
    if Options(o + K.Zeros(OPTION_ROOM)) {
      more := K.Zeros(OPTION_ROOM);
    } else {
      more := ['\U{02}'] + K.Zeros(OPTION_ROOM - 1);
      CompleteEither(o);
    }
  }

  lemma {:induction false} CompleteEither(o: string)
    requires Begun(o, OPTION_ROOM)
    ensures Options(o + K.Zeros(OPTION_ROOM)) || Options(o + (['\U{02}'] + K.Zeros(OPTION_ROOM - 1)))
    decreases |o|
  {
    var zeros, two := K.Zeros(OPTION_ROOM), ['\U{02}'] + K.Zeros(OPTION_ROOM - 1);
    if o == "" {
      assert o + zeros == zeros;
    } else if o[0] as int == 0 {
    } else if o[0] as int == 1 {
      assert (o + zeros)[1..] == o[1..] + zeros && (o + two)[1..] == o[1..] + two;
      CompleteEither(o[1..]);
    } else if |o| == 1 {
      assert (o + two)[2..] == K.Zeros(OPTION_ROOM - 1);
    } else {
      var n := o[1] as int;
      if n <= |o| {
        assert (o + zeros)[n..] == o[n..] + zeros && (o + two)[n..] == o[n..] + two;
        CompleteEither(o[n..]);
      } else {
        assert (o + zeros)[n..] == zeros[n - |o|..];
      }
    }
  }

  function PortsTo(port: nat): (th: string)
    requires port <= 65535
    ensures |th| == 4 && Octets(th) && PortMatches(port, th)
  {
    var th := ['\0', '\0'] + PortData(port);
    assert th[2..4] == PortData(port);
    PortDataMatches(port, th);
    th
  }

  function DeviceOf(iface: string): string {
    if iface == "" then "eth0" else iface
  }

  lemma DeviceReached(iface: string)
    requires !NoDevice(iface) && Lacks(iface, '\0')
    ensures K.DeviceName(DeviceOf(iface)) && DeviceOf(iface) != "lo" && NameMatches(iface, DeviceOf(iface))
  {
    assert "eth0"[0] == 'e' && "lo"[0] == 'l' && "."[0] == '.' && ".."[0] == '.';
  }

  /** A well-formed packet of the other family that the rule matches. */
  lemma CrossPacket(lib: Lib, r: LRule) returns (pkt: K.Packet)
    requires Lawful(lib) && ValidRule(lib, r) && Lacks(r.iface, '\0') && !Confined(lib, r)
    ensures InternetPacket(pkt) && pkt.ct == K.CtInvalid && pkt.iif != "lo"
    ensures RuleMatches(lib, r, pkt) && !FamilyRuleMatches(lib, r, pkt)
  {
    hide InternetPacket, SourceBytes, Begun, Options, PortMatches, NoDevice;
    var iif, ip := DeviceOf(r.iface), lib.parseIP(r.from).value;
    DeviceReached(r.iface);
    match ip
    case V4(b) =>
      Packet6WellFormed(iif, b, ProtoNumber(r.proto), PortsTo(r.port));
      pkt := Packet6(iif, b, ProtoNumber(r.proto), PortsTo(r.port));
    case V6(b) =>
      if Begun(b[12..], OPTION_ROOM) {
        var more := Complete(b[12..]);
        LongWellFormed(iif, b, more, PortsTo(r.port));
        pkt := Packet4(iif, b + more, PortsTo(r.port));
      } else {
        ShortWellFormed(iif, b);
        pkt := Packet4(iif, b[..12], b[12..]);
        assert pkt.th[2..4] == b[14..];
        PortDataMatches(r.port, pkt.th);
      }
  }

  /** The verdict of a rule list, and the one by address and family, with a rule in front. */
  lemma HeadRule(lib: Lib, r: LRule, rest: seq<LRule>, pkt: K.Packet)
    ensures FirstMatch(lib, [r] + rest, pkt) ==
            if RuleMatches(lib, r, pkt) then ActionOutcome(r.action, pkt.l4proto) else FirstMatch(lib, rest, pkt)
    ensures FamilyFirstMatch(lib, [r] + rest, pkt) ==
            if FamilyRuleMatches(lib, r, pkt) then ActionOutcome(r.action, pkt.l4proto) else FamilyFirstMatch(lib, rest, pkt)
  {
    assert ([r] + rest)[1..] == rest;
  }

  /** What follows a rule to show that it strays: nothing, or for a deny rule, whose effect is the default's, the same
      rule without its source and with allow. */
  function Revealing(r: LRule): seq<LRule> {
    if r.action == Deny then [r.(action := Allow, from := "")] else []
  }

  lemma UnsourcedMatches(lib: Lib, r: LRule, pkt: K.Packet)
    requires RuleMatches(lib, r, pkt)
    ensures FamilyRuleMatches(lib, r.(action := Allow, from := ""), pkt)
  {
  }

  lemma StrayRevealed(lib: Lib, r: LRule, pkt: K.Packet)
    requires Lawful(lib) && ValidRule(lib, r) && K.ValidPacket(pkt) && pkt.ct == K.CtInvalid && pkt.iif != "lo"
    requires RuleMatches(lib, r, pkt) && !FamilyRuleMatches(lib, r, pkt)
    ensures Bystanders(lib, Revealing(r)) && !FamilyExact(lib, [r] + Revealing(r), pkt)
  {
    hide RuleMatches, FamilyRuleMatches, K.TableVerdict, Build;
    var rest := Revealing(r);
    CompiledMeaning(lib, true, [r] + rest, pkt);
    HeadRule(lib, r, rest, pkt);
    if r.action == Deny {
      UnsourcedMatches(lib, r, pkt);
      HeadRule(lib, rest[0], [], pkt);
      assert rest == [rest[0]] + [];
    }
  }

  /** A rule keeps to its source's address family in every company of rules that do, on every well-formed IPv4 and IPv6
      packet, exactly when it is confined. */
  lemma SourceConfinesFamilyExactly(lib: Lib, r: LRule)
    requires Lawful(lib) && ValidRule(lib, r) && Lacks(r.iface, '\0')
    ensures (forall before, after, pkt | Bystanders(lib, before) && Bystanders(lib, after) && InternetPacket(pkt) ::
               FamilyExact(lib, before + [r] + after, pkt))
            <==> Confined(lib, r)
  {
    hide FamilyExact, InternetPacket, Confined;
    if Confined(lib, r) {
      forall before, after, pkt | Bystanders(lib, before) && Bystanders(lib, after) && InternetPacket(pkt)
        ensures FamilyExact(lib, before + [r] + after, pkt)
      {
        AllConfinedExact(lib, before + [r] + after, pkt);
      }
    } else {
      var pkt := CrossPacket(lib, r);
      InternetValid(pkt);
      StrayRevealed(lib, r, pkt);
      assert [] + [r] + Revealing(r) == [r] + Revealing(r);
      assert Bystanders(lib, []);
    }
  }
}
