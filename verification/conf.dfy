/** The boot config as text: printing, parsing and merging (internal/agent/nftfw/conf.go). */
module Conf {
  import opened GoLib
  import opened Rules
  import opened Text

  // ---- quoting interface names -----------------------------------------------------------

  function HexDigit(d: nat): (c: char)
    requires d < 16
    ensures AddressChar(c)
  {
    if d < 10 then Digit(d) else ('a' as int + d - 10) as char
  }

  /** The escape `%q` writes for an unprintable ASCII byte. */
  function ControlEscape(c: char): (e: string)
    requires !Wide(c)
    ensures |e| >= 2 && e[0] == '\\' && Lacks(e, '"') && Lacks(e, '\n')
  {
    var n := c as int;
    if n == 7 then "\\a" else if n == 8 then "\\b" else if n == 12 then "\\f" else if n == 10 then "\\n"
    else if n == 13 then "\\r" else if n == 9 then "\\t" else if n == 11 then "\\v"
    else ['\\', 'x', HexDigit(n / 16), HexDigit(n % 16)]
  }

  function RuneWidth(lib: Lib, s: string): (n: nat)
    requires s != ""
    ensures 1 <= n <= |s|
  {
    if Wide(s[0]) && 1 <= lib.wideRune(s).0 <= |s| then lib.wideRune(s).0 else 1
  }

  /** What `%q` prints for the first rune of `s`. */
  function QuoteRune(lib: Lib, s: string): string
    requires s != ""
  {
    var c := s[0];
    if Wide(c) then lib.wideRune(s).1
    else if c == '"' || c == '\\' then ['\\', c]
    else if Printable(c) then [c]
    else ControlEscape(c)
  }

  /** `%q` without the surrounding quotes. */
  function QuoteBody(lib: Lib, s: string): string
    decreases |s|
  {
    if s == "" then "" else QuoteRune(lib, s) + QuoteBody(lib, s[RuneWidth(lib, s)..])
  }

  /** Every rune prints as itself: the check that tells whether a name survives `%q`. */
  predicate PlainName(lib: Lib, s: string)
    decreases |s|
  {
    s == "" || (QuoteRune(lib, s) == s[..RuneWidth(lib, s)] && PlainName(lib, s[RuneWidth(lib, s)..]))
  }

  lemma {:induction false} QuoteBodyText(lib: Lib, s: string)
    requires Lawful(lib) && Lacks(s, '"')
    ensures Lacks(QuoteBody(lib, s), '"') && Lacks(QuoteBody(lib, s), '\n')
    ensures QuoteBody(lib, s) == "" <==> s == ""
    decreases |s|
  {
    if s != "" {
      QuoteBodyText(lib, s[RuneWidth(lib, s)..]);
      assert Wide(s[0]) ==> LawfulRune(s, lib.wideRune(s));
      var q := QuoteRune(lib, s);
      assert Lacks(q, '"') && Lacks(q, '\n') && q != "";
    }
  }

  /** An accepted name is printed unchanged exactly when it is plain. */
  lemma {:induction false} QuoteBodyExactly(lib: Lib, s: string)
    requires Lawful(lib) && Lacks(s, '"') && Lacks(s, '\\')
    ensures QuoteBody(lib, s) == s <==> PlainName(lib, s)
    decreases |s|
  {
    if s != "" {
      var n, q := RuneWidth(lib, s), QuoteRune(lib, s);
      QuoteBodyExactly(lib, s[n..]);
      assert Wide(s[0]) ==> LawfulRune(s, lib.wideRune(s));
      var body := QuoteBody(lib, s);
      assert s == s[..n] + s[n..];
      if q == s[..n] {
        assert body[..n] == s[..n] && body[n..] == QuoteBody(lib, s[n..]);
      } else {
        assert q[0] == '\\' && body[0] == q[0] && s[0] != '\\';
      }
    }
  }

  /** A plain name holds no NUL, so it also survives the kernel's padding. */
  lemma {:induction false} PlainNoNul(lib: Lib, s: string)
    requires Lawful(lib) && PlainName(lib, s)
    ensures Lacks(s, '\0')
    decreases |s|
  {
    if s != "" {
      var n := RuneWidth(lib, s);
      PlainNoNul(lib, s[n..]);
      assert Wide(s[0]) ==> LawfulRune(s, lib.wideRune(s));
      assert QuoteRune(lib, s)[0] == s[0];
      assert s == s[..n] + s[n..];
    }
  }

  // ---- rule lines ------------------------------------------------------------------------

  datatype Verb = VerbAccept | VerbDrop | VerbReject | VerbReset

  /** The capture groups of the rule-line expression; `None` for an optional group that is absent. */
  datatype LineParts = LineParts(
    iface: Option<string>, source: Option<(bool, string)>, udp: bool, digits: string, verb: Verb)

  predicate PartsOk(p: LineParts) {
    && (p.iface.Some? ==> p.iface.value != "" && Free(p.iface.value, IsQuote))
    && (p.source.Some? ==> p.source.value.1 != "" && Free(p.source.value.1, RegexpSpace))
    && p.digits != "" && AllDigits(p.digits)
  }

  const TABS: string := "\t\t"
  const CLOSE: string := "\" "
  const IIFNAME: string := "iifname \""
  const IP_SADDR: string := "ip saddr "
  const IP6_SADDR: string := "ip6 saddr "
  const TCP_DPORT: string := "tcp dport "
  const UDP_DPORT: string := "udp dport "

  function VerbText(v: Verb): string {
    match v
    case VerbAccept => "accept"
    case VerbDrop => "drop"
    case VerbReject => "reject"
    case VerbReset => "reject with tcp reset"
  }

  function TailText(p: LineParts): string {
    (if p.udp then UDP_DPORT else TCP_DPORT) + (p.digits + (" " + VerbText(p.verb)))
  }

  function SourceText(p: LineParts): string {
    if p.source.None? then TailText(p)
    else (if p.source.value.0 then IP6_SADDR else IP_SADDR) + (p.source.value.1 + (" " + TailText(p)))
  }

  function BodyText(p: LineParts): string {
    if p.iface.None? then SourceText(p) else IIFNAME + (p.iface.value + (CLOSE + SourceText(p)))
  }

  /** The line that the expression's groups spell out. */
  function LineText(p: LineParts): string {
    TABS + BodyText(p)
  }

  function ParseVerb(s: string): Option<Verb> {
    if s == "accept" then Some(VerbAccept)
    else if s == "drop" then Some(VerbDrop)
    else if s == "reject" then Some(VerbReject)
    else if s == "reject with tcp reset" then Some(VerbReset)
    else None
  }

  function ParsePort(s: string, udp: bool, iface: Option<string>, source: Option<(bool, string)>): Option<LineParts> {
    var i := Span(s, NotDigit);
    if i == 0 || i == |s| || s[i] != ' ' then None
    else match ParseVerb(s[i + 1..])
      case Some(v) => Some(LineParts(iface, source, udp, s[..i], v))
      case None => None
  }

  function ParseTail(s: string, iface: Option<string>, source: Option<(bool, string)>): Option<LineParts> {
    if HasPrefix(s, TCP_DPORT) then ParsePort(s[|TCP_DPORT|..], false, iface, source)
    else if HasPrefix(s, UDP_DPORT) then ParsePort(s[|UDP_DPORT|..], true, iface, source)
    else None
  }

  function ParseAddress(s: string, iface: Option<string>, v6: bool): Option<LineParts> {
    var i := Span(s, RegexpSpace);
    if i == 0 || i == |s| || s[i] != ' ' then None
    else ParseTail(s[i + 1..], iface, Some((v6, s[..i])))
  }

  function ParseSource(s: string, iface: Option<string>): Option<LineParts> {
    if HasPrefix(s, IP_SADDR) then ParseAddress(s[|IP_SADDR|..], iface, false)
    else if HasPrefix(s, IP6_SADDR) then ParseAddress(s[|IP6_SADDR|..], iface, true)
    else ParseTail(s, iface, None)
  }

  function ParseName(s: string): Option<LineParts> {
    var i := Span(s, IsQuote);
    if i == 0 || i + 1 >= |s| || s[i + 1] != ' ' then None
    else ParseSource(s[i + 2..], Some(s[..i]))
  }

  function ParseBody(s: string): Option<LineParts> {
    if HasPrefix(s, IIFNAME) then ParseName(s[|IIFNAME|..]) else ParseSource(s, None)
  }

  /** The groups of the rule-line expression on a line, `None` when it does not match. */
  function ParseLine(line: string): Option<LineParts> {
    if HasPrefix(line, TABS) then ParseBody(line[|TABS|..]) else None
  }

  // ---- the parser finds exactly the expression's matches ------------------------------------

  lemma DropPrefix(p: string, rest: string)
    ensures HasPrefix(p + rest, p) && (p + rest)[|p|..] == rest
  {
  }

  lemma TakePrefix(s: string, p: string)
    requires HasPrefix(s, p)
    ensures s == p + s[|p|..]
  {
  }

  lemma ClashAt(s: string, p: string, i: nat)
    requires i < |s| && i < |p| && s[i] != p[i]
    ensures !HasPrefix(s, p)
  {
    assert |p| <= |s| ==> s[..|p|][i] == s[i];
  }

  lemma ParseVerbText(v: Verb)
    ensures ParseVerb(VerbText(v)) == Some(v)
  {
    assert |"accept"| == 6 && |"drop"| == 4 && |"reject"| == 6 && |"reject with tcp reset"| == 21;
    assert "reject"[0] == 'r' && "accept"[0] == 'a';
  }

  lemma ParsePortOn(digits: string, v: Verb, udp: bool, iface: Option<string>, source: Option<(bool, string)>)
    requires digits != "" && AllDigits(digits)
    ensures ParsePort(digits + (" " + VerbText(v)), udp, iface, source) == Some(LineParts(iface, source, udp, digits, v))
  {
    hide VerbText, ParseVerb;
    var t := " " + VerbText(v);
    SpanStops(digits, t, NotDigit);
    assert (digits + t)[|digits| + 1..] == VerbText(v);
    ParseVerbText(v);
  }

  lemma ParseAddressOn(addr: string, tail: string, iface: Option<string>, v6: bool)
    requires addr != "" && Free(addr, RegexpSpace)
    ensures ParseAddress(addr + (" " + tail), iface, v6) == ParseTail(tail, iface, Some((v6, addr)))
  {
    SpanStops(addr, " " + tail, RegexpSpace);
    assert (addr + (" " + tail))[|addr| + 1..] == tail;
  }

  lemma ParseNameOn(name: string, rest: string)
    requires name != "" && Free(name, IsQuote)
    ensures ParseName(name + (CLOSE + rest)) == ParseSource(rest, Some(name))
  {
    SpanStops(name, CLOSE + rest, IsQuote);
    var s := name + (CLOSE + rest);
    assert s[|name| + 1] == CLOSE[1] && s[|name| + 2..] == rest;
  }

  lemma ParseTailText(p: LineParts)
    requires PartsOk(p)
    ensures ParseTail(TailText(p), p.iface, p.source) == Some(p)
  {
    var rest := p.digits + (" " + VerbText(p.verb));
    ParsePortOn(p.digits, p.verb, p.udp, p.iface, p.source);
    if p.udp {
      DropPrefix(UDP_DPORT, rest);
      ClashAt(UDP_DPORT + rest, TCP_DPORT, 0);
    } else {
      DropPrefix(TCP_DPORT, rest);
    }
  }

  lemma SourceTextStart(p: LineParts)
    ensures SourceText(p) != ""
    ensures p.source.None? ==> SourceText(p)[0] == 't' || SourceText(p)[0] == 'u'
    ensures p.source.Some? ==> |SourceText(p)| >= 2 && SourceText(p)[0] == 'i' && SourceText(p)[1] == 'p'
  {
    assert TCP_DPORT[0] == 't' && UDP_DPORT[0] == 'u';
    assert IP_SADDR[0] == IP6_SADDR[0] == 'i' && IP_SADDR[1] == IP6_SADDR[1] == 'p';
  }

  lemma ParseSourceText(p: LineParts)
    requires PartsOk(p)
    ensures ParseSource(SourceText(p), p.iface) == Some(p)
  {
    hide TailText, ParseTail, ParseAddress;
    ParseTailText(p);
    SourceTextStart(p);
    if p.source.None? {
      ClashAt(TailText(p), IP_SADDR, 0);
      ClashAt(TailText(p), IP6_SADDR, 0);
    } else {
      var (v6, addr) := p.source.value;
      var rest := addr + (" " + TailText(p));
      ParseAddressOn(addr, TailText(p), p.iface, v6);
      if v6 {
        DropPrefix(IP6_SADDR, rest);
        assert (IP6_SADDR + rest)[2] == '6';
        ClashAt(IP6_SADDR + rest, IP_SADDR, 2);
      } else {
        DropPrefix(IP_SADDR, rest);
      }
    }
  }

  lemma ParseBodyText(p: LineParts)
    requires PartsOk(p)
    ensures ParseBody(BodyText(p)) == Some(p)
  {
    hide SourceText, ParseSource, ParseName;
    ParseSourceText(p);
    if p.iface.None? {
      SourceTextStart(p);
      assert IIFNAME[0] == 'i' && IIFNAME[1] == 'i';
      ClashAt(SourceText(p), IIFNAME, if p.source.None? then 0 else 1);
    } else {
      ParseNameOn(p.iface.value, SourceText(p));
      DropPrefix(IIFNAME, p.iface.value + (CLOSE + SourceText(p)));
    }
  }

  lemma ParseLineText(p: LineParts)
    requires PartsOk(p)
    ensures ParseLine(LineText(p)) == Some(p)
  {
    hide BodyText, ParseBody;
    ParseBodyText(p);
    DropPrefix(TABS, BodyText(p));
  }

  lemma ParsePortSound(s: string, udp: bool, iface: Option<string>, source: Option<(bool, string)>)
    requires ParsePort(s, udp, iface, source).Some?
    ensures var p := ParsePort(s, udp, iface, source).value;
            p.iface == iface && p.source == source && p.udp == udp && p.digits != "" && AllDigits(p.digits) &&
            s == p.digits + (" " + VerbText(p.verb))
  {
    var i := Span(s, NotDigit);
    assert s == s[..i] + ([s[i]] + s[i + 1..]);
    assert [s[i]] == " ";
    assert forall j | 0 <= j < i :: !NotDigit(s[..i][j]);
  }

  lemma ParseTailSound(s: string, iface: Option<string>, source: Option<(bool, string)>)
    requires ParseTail(s, iface, source).Some?
    ensures var p := ParseTail(s, iface, source).value;
            p.iface == iface && p.source == source && p.digits != "" && AllDigits(p.digits) && s == TailText(p)
  {
    if HasPrefix(s, TCP_DPORT) {
      ParsePortSound(s[|TCP_DPORT|..], false, iface, source);
      TakePrefix(s, TCP_DPORT);
    } else {
      ParsePortSound(s[|UDP_DPORT|..], true, iface, source);
      TakePrefix(s, UDP_DPORT);
    }
  }

  lemma ParseAddressSound(s: string, iface: Option<string>, v6: bool)
    requires ParseAddress(s, iface, v6).Some?
    ensures var p := ParseAddress(s, iface, v6).value;
            p.iface == iface && p.source.Some? && p.source.value.0 == v6 && PartsOk(p.(iface := None)) &&
            s == p.source.value.1 + (" " + TailText(p))
  {
    hide TailText, ParseTail;
    var i := Span(s, RegexpSpace);
    assert s == s[..i] + ([s[i]] + s[i + 1..]);
    assert [s[i]] == " ";
    ParseTailSound(s[i + 1..], iface, Some((v6, s[..i])));
  }

  lemma ParseSourceSound(s: string, iface: Option<string>)
    requires ParseSource(s, iface).Some?
    ensures var p := ParseSource(s, iface).value;
            p.iface == iface && PartsOk(p.(iface := None)) && s == SourceText(p)
  {
    if HasPrefix(s, IP_SADDR) {
      ParseAddressSound(s[|IP_SADDR|..], iface, false);
      TakePrefix(s, IP_SADDR);
    } else if HasPrefix(s, IP6_SADDR) {
      ParseAddressSound(s[|IP6_SADDR|..], iface, true);
      TakePrefix(s, IP6_SADDR);
    } else {
      ParseTailSound(s, iface, None);
    }
  }

  lemma ParseNameSound(s: string)
    requires ParseName(s).Some?
    ensures var p := ParseName(s).value;
            PartsOk(p) && p.iface.Some? && s == p.iface.value + (CLOSE + SourceText(p))
  {
    var i := Span(s, IsQuote);
    var name, rest := s[..i], s[i + 2..];
    ParseSourceSound(rest, Some(name));
    CutTwo(s, i);
    assert [s[i], s[i + 1]] == CLOSE;
  }

  lemma CutTwo(s: string, i: nat)
    requires i + 1 < |s|
    ensures s == s[..i] + ([s[i], s[i + 1]] + s[i + 2..])
  {
  }

  lemma ParseLineSound(line: string)
    requires ParseLine(line).Some?
    ensures PartsOk(ParseLine(line).value) && LineText(ParseLine(line).value) == line
  {
    TakePrefix(line, TABS);
    var s := line[|TABS|..];
    if HasPrefix(s, IIFNAME) {
      TakePrefix(s, IIFNAME);
      ParseNameSound(s[|IIFNAME|..]);
    } else {
      ParseSourceSound(s, None);
    }
  }

  /** The parser returns groups exactly when they are well formed and spell the line: the expression is unambiguous. */
  lemma ParseLineExactly(line: string, p: LineParts)
    ensures ParseLine(line) == Some(p) <==> PartsOk(p) && LineText(p) == line
  {
    if ParseLine(line) == Some(p) {
      ParseLineSound(line);
    }
    if PartsOk(p) && LineText(p) == line {
      ParseLineText(p);
    }
  }

  // ---- rules to lines and back ----------------------------------------------------------------

  function VerbOf(a: Action, p: Proto): Verb {
    match a
    case Allow => VerbAccept
    case Deny => VerbDrop
    case Reject => if p == Tcp then VerbReset else VerbReject
  }

  function IsV6(lib: Lib, from: string): bool {
    lib.parseIP(from).Some? && lib.parseIP(from).value.V6?
  }

  function PartsOf(lib: Lib, r: LRule): LineParts {
    LineParts(if r.iface == "" then None else Some(QuoteBody(lib, r.iface)),
              if r.from == "" then None else Some((IsV6(lib, r.from), r.from)),
              r.proto == Udp, Itoa(r.port), VerbOf(r.action, r.proto))
  }

  /** `renderRule` with the two tabs that `renderConf` puts before it. */
  function RuleLine(lib: Lib, r: LRule): string {
    LineText(PartsOf(lib, r))
  }

  method RenderRule(lib: Lib, r: LRule) returns (b: string)
    requires r.proto != Both
    ensures b == BodyText(PartsOf(lib, r))
  {
    ghost var p := PartsOf(lib, r);
    var name, source := "", "";
    if r.iface != "" {
      name := IIFNAME + (QuoteBody(lib, r.iface) + CLOSE);
    }
    if r.from != "" {
      var saddr := IP_SADDR;
      if lib.parseIP(r.from).Some? && !lib.parseIP(r.from).value.V4? {
        saddr := IP6_SADDR;
      }
      source := saddr + (r.from + " ");
    }
    var verb := "accept";
    match r.action {
      case Deny => verb := "drop";
      case Reject =>
        if r.proto == Tcp {
          verb := "reject with tcp reset";
        } else {
          verb := "reject";
        }
      case Allow =>
    }
    assert verb == VerbText(p.verb);
    var port := TCP_DPORT;
    if r.proto == Udp {
      port := UDP_DPORT;
    }
    var tail := port + (Itoa(r.port) + (" " + verb));
    assert tail == TailText(p);
    BuildText(p, name, source);
    b := name + (source + tail);
  }

  lemma BuildText(p: LineParts, name: string, source: string)
    requires name == if p.iface.None? then "" else IIFNAME + (p.iface.value + CLOSE)
    requires source == if p.source.None? then "" else (if p.source.value.0 then IP6_SADDR else IP_SADDR) + (p.source.value.1 + " ")
    ensures BodyText(p) == name + (source + TailText(p))
  {
    hide TailText;
    assert SourceText(p) == source + TailText(p);
  }

  function RuleOf(lib: Lib, p: LineParts): LRule {
    LRule(if p.udp then Udp else Tcp, AtoiValue(p.digits),
          (match p.verb case VerbAccept => Allow case VerbDrop => Deny case _ => Reject),
          lib.trimSpace(if p.source.Some? then p.source.value.1 else ""),
          if p.iface.Some? then p.iface.value else "")
  }

  function ParseLines(lib: Lib, lines: seq<string>): seq<LRule> {
    if lines == [] then []
    else match ParseLine(lines[0])
      case Some(p) => [RuleOf(lib, p)] + ParseLines(lib, lines[1..])
      case None => ParseLines(lib, lines[1..])
  }

  /** A rule as the conf path gives it back: the interface name as `%q` printed it. */
  function Quoted(lib: Lib, r: LRule): LRule {
    r.(iface := QuoteBody(lib, r.iface))
  }

  function QuotedAll(lib: Lib, rs: seq<LRule>): (qs: seq<LRule>)
    ensures |qs| == |rs| && forall i | 0 <= i < |rs| :: qs[i] == Quoted(lib, rs[i])
  {
    seq(|rs|, i requires 0 <= i < |rs| => Quoted(lib, rs[i]))
  }

  lemma AddressNoSpaces(s: string)
    requires AddressText(s)
    ensures Free(s, RegexpSpace) && Lacks(s, '|') && Lacks(s, '\n')
  {
    forall i | 0 <= i < |s| ensures !RegexpSpace(s[i]) && s[i] != '|' && s[i] != '\n' {
      assert AddressChar(s[i]);
    }
  }

  lemma PartsOfOk(lib: Lib, r: LRule)
    requires Lawful(lib) && Storable(lib, r)
    ensures PartsOk(PartsOf(lib, r)) && RuleOf(lib, PartsOf(lib, r)) == Quoted(lib, r.(proto := if r.proto == Udp then Udp else Tcp))
  {
    QuoteBodyText(lib, r.iface);
    AtoiItoa(r.port);
    if r.from != "" {
      AddressNoSpaces(r.from);
    }
    assert Lacks(QuoteBody(lib, r.iface), '"') ==> Free(QuoteBody(lib, r.iface), IsQuote);
  }

  lemma RuleLineParses(lib: Lib, r: LRule)
    requires Lawful(lib) && Storable(lib, r) && r.proto != Both
    ensures ParseLine(RuleLine(lib, r)).Some? && RuleOf(lib, ParseLine(RuleLine(lib, r)).value) == Quoted(lib, r)
    ensures Lacks(RuleLine(lib, r), '\n')
  {
    PartsOfOk(lib, r);
    ParseLineText(PartsOf(lib, r));
    QuoteBodyText(lib, r.iface);
    LineTextOneLine(PartsOf(lib, r));
  }

  lemma LacksConcat(a: string, b: string, c: char)
    requires Lacks(a, c) && Lacks(b, c)
    ensures Lacks(a + b, c)
  {
  }

  lemma PiecesOneLine(v: Verb)
    ensures Lacks(VerbText(v), '\n') && Lacks(TCP_DPORT, '\n') && Lacks(UDP_DPORT, '\n') && Lacks(" ", '\n')
    ensures Lacks(IP_SADDR, '\n') && Lacks(IP6_SADDR, '\n') && Lacks(IIFNAME, '\n') && Lacks(CLOSE, '\n') && Lacks(TABS, '\n')
  {
  }

  lemma LineTextOneLine(p: LineParts)
    requires PartsOk(p) && (p.iface.Some? ==> Lacks(p.iface.value, '\n'))
    ensures Lacks(LineText(p), '\n')
  {
    PiecesOneLine(p.verb);
    LacksConcat(" ", VerbText(p.verb), '\n');
    LacksConcat(p.digits, " " + VerbText(p.verb), '\n');
    LacksConcat(if p.udp then UDP_DPORT else TCP_DPORT, p.digits + (" " + VerbText(p.verb)), '\n');
    if p.source.Some? {
      var addr := p.source.value.1;
      assert Lacks(addr, '\n') by {
        forall i | 0 <= i < |addr| ensures addr[i] != '\n' { assert !RegexpSpace(addr[i]); }
      }
      LacksConcat(" ", TailText(p), '\n');
      LacksConcat(addr, " " + TailText(p), '\n');
      LacksConcat(if p.source.value.0 then IP6_SADDR else IP_SADDR, addr + (" " + TailText(p)), '\n');
    }
    if p.iface.Some? {
      LacksConcat(CLOSE, SourceText(p), '\n');
      LacksConcat(p.iface.value, CLOSE + SourceText(p), '\n');
      LacksConcat(IIFNAME, p.iface.value + (CLOSE + SourceText(p)), '\n');
    }
    LacksConcat(TABS, BodyText(p), '\n');
  }
}
