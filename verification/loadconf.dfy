/** `loadConf`, `mergeClumped` and `confForeign`, and the round trip through the boot file. */
module LoadConf {
  import opened GoLib
  import opened Rules
  import opened Conf
  import opened Text
  import opened BootConf

  // ---- merging by key -------------------------------------------------------------------------

  function ActionName(a: Action): string {
    match a
    case Allow => "allow"
    case Deny => "deny"
    case Reject => "reject"
  }

  const BAR: string := "|"

  /** `lruleKey`. */
  function Key(r: LRule): string {
    r.iface + (BAR + (Itoa(r.port) + (BAR + (ActionName(r.action) + (BAR + r.from)))))
  }

  predicate KeyTwin(a: LRule, b: LRule) {
    a.proto == Tcp && b.proto == Udp && Key(a) == Key(b)
  }

  /** The list `mergeClumped` returns. */
  function Clumped(rs: seq<LRule>): seq<LRule> {
    if rs == [] then []
    else if |rs| > 1 && KeyTwin(rs[0], rs[1]) then [WithProto(rs[0], Both)] + Clumped(rs[2..])
    else [rs[0]] + Clumped(rs[1..])
  }

  method MergeClumped(rs: seq<LRule>) returns (out: seq<LRule>)
    ensures out == Clumped(rs)
  {
    hide KeyTwin;
    out := [];
    var i := 0;
    while i < |rs|
      invariant 0 <= i <= |rs|
      invariant Clumped(rs) == out + Clumped(rs[i..])
    {
      ghost var rest := rs[i..];
      assert rest[1..] == rs[i + 1..];
      var r := rs[i];
      if i + 1 < |rs| && KeyTwin(r, rs[i + 1]) {
        assert rest[1] == rs[i + 1] && rest[2..] == rs[i + 2..];
        r := WithProto(r, Both);
        i := i + 1;
      }
      out := out + [r];
      i := i + 1;
    }
  }

  /** The last separator splits a key in one way only. */
  lemma LastBar(x: string, y: string, x': string, y': string)
    requires x + (BAR + y) == x' + (BAR + y') && Lacks(y, '|') && Lacks(y', '|')
    ensures x == x' && y == y'
  {
    var s := x + (BAR + y);
    assert s[|x|] == '|' && s[|x'|] == '|';
    forall i | |x| < i < |s| ensures s[i] != '|' { assert s[i] == y[i - |x| - 1]; }
    forall i | |x'| < i < |s| ensures s[i] != '|' { assert s[i] == y'[i - |x'| - 1]; }
    assert s[..|x|] == x && s[..|x'|] == x';
    assert s[|x| + 1..] == y && s[|x'| + 1..] == y';
  }

  lemma ActionNames(a: Action, b: Action)
    ensures Lacks(ActionName(a), '|') && (ActionName(a) == ActionName(b) ==> a == b)
  {
    assert "allow"[0] == 'a' && "deny"[0] == 'd' && "reject"[0] == 'r';
  }

  lemma ItoaInjective(a: nat, b: nat)
    requires a <= 65535 && b <= 65535
    ensures Lacks(Itoa(a), '|') && (Itoa(a) == Itoa(b) ==> a == b)
  {
    AtoiItoa(a);
    AtoiItoa(b);
    forall i | 0 <= i < |Itoa(a)| ensures Itoa(a)[i] != '|' {
      assert IsDigit(Itoa(a)[i]);
    }
  }

  /** A key pins down every field but the protocol, whatever the interface name holds. */
  lemma KeyInjective(a: LRule, b: LRule)
    requires a.port <= 65535 && b.port <= 65535 && Lacks(a.from, '|') && Lacks(b.from, '|')
    ensures Key(a) == Key(b) <==> WithProto(a, Both) == WithProto(b, Both)
  {
    if Key(a) == Key(b) {
      var x := a.iface + (BAR + (Itoa(a.port) + (BAR + ActionName(a.action))));
      var y := b.iface + (BAR + (Itoa(b.port) + (BAR + ActionName(b.action))));
      assert Key(a) == x + (BAR + a.from) && Key(b) == y + (BAR + b.from);
      LastBar(x, a.from, y, b.from);
      ActionNames(a.action, b.action);
      ActionNames(b.action, a.action);
      var x1, y1 := a.iface + (BAR + Itoa(a.port)), b.iface + (BAR + Itoa(b.port));
      assert x == x1 + (BAR + ActionName(a.action)) && y == y1 + (BAR + ActionName(b.action));
      LastBar(x1, ActionName(a.action), y1, ActionName(b.action));
      ItoaInjective(a.port, b.port);
      ItoaInjective(b.port, a.port);
      LastBar(a.iface, Itoa(a.port), b.iface, Itoa(b.port));
    }
  }

  predicate KeyableRules(rs: seq<LRule>) {
    forall i | 0 <= i < |rs| :: rs[i].port <= 65535 && Lacks(rs[i].from, '|')
  }

  /** On such rules, merging by key is merging by fields. */
  lemma {:induction false} ClumpedIsMerge(rs: seq<LRule>)
    requires KeyableRules(rs)
    ensures Clumped(rs) == Merge(rs)
  {
    if rs != [] {
      if |rs| > 1 {
        KeyInjective(rs[0], rs[1]);
        ClumpedIsMerge(rs[2..]);
      }
      ClumpedIsMerge(rs[1..]);
    }
  }

  // ---- loading ------------------------------------------------------------------------------------

  datatype Loaded = Loaded(enabled: bool, rules: seq<LRule>)

  /** What `loadConf` makes of a file's text. */
  function LoadText(lib: Lib, text: string): Loaded {
    if !Contains(text, MARKER) then Loaded(false, [])
    else Loaded(LoadEnabled(text), Clumped(ParseLines(lib, SplitLines(text))))
  }

  /** The rule a matching line stands for. */
  method RuleFromParts(lib: Lib, p: LineParts) returns (r: LRule)
    ensures r == RuleOf(lib, p)
  {
    var port := Atoi(p.digits);
    var action := Allow;
    if p.verb == VerbDrop {
      action := Deny;
    } else if p.verb == VerbReject || p.verb == VerbReset {
      action := Reject;
    }
    var from := lib.trimSpace(if p.source.Some? then p.source.value.1 else "");
    r := LRule(if p.udp then Udp else Tcp, port, action, from, if p.iface.Some? then p.iface.value else "");
  }

  /** The line loop of `loadConf`. */
  method ParseRules(lib: Lib, lines: seq<string>) returns (rules: seq<LRule>)
    ensures rules == ParseLines(lib, lines)
  {
    hide ParseLine, RuleOf;
    rules := [];
    var i := 0;
    while i < |lines|
      invariant 0 <= i <= |lines|
      invariant ParseLines(lib, lines) == rules + ParseLines(lib, lines[i..])
    {
      assert lines[i..][1..] == lines[i + 1..];
      var m := ParseLine(lines[i]);
      if m.Some? {
        var r := RuleFromParts(lib, m.value);
        rules := rules + [r];
      }
      i := i + 1;
    }
  }

  /** `loadConf` on an existing file. */
  method LoadFile(lib: Lib, text: string) returns (enabled: bool, rules: seq<LRule>)
    ensures Loaded(enabled, rules) == LoadText(lib, text)
  {
    var marked := Contains(text, MARKER);
    if !marked {
      return false, [];
    }
    enabled := LoadEnabled(text);
    var parsed := ParseRules(lib, SplitLines(text));
    rules := MergeClumped(parsed);
  }

  // ---- the fixed lines are not rules ------------------------------------------------------------------

  lemma NotTabbed(line: string, i: nat)
    requires i < 2 && (|line| <= i || line[i] != '\t')
    ensures ParseLine(line) == None
  {
    assert TABS[0] == TABS[1] == '\t' && |TABS| == 2;
    if i < |line| {
      ClashAt(line, TABS, i);
    }
  }

  /** After the tabs, neither an interface, an address nor a protocol match. */
  lemma NotRuleStart(body: string)
    requires |body| >= 2 && body[0] != 'u' && (body[0] == 'i' ==> body[1] != 'i' && body[1] != 'p') && (body[0] == 't' ==> body[1] != 'c')
    ensures ParseBody(body) == None
  {
    assert IIFNAME[0] == IIFNAME[1] == 'i' && TCP_DPORT[0] == 't' && TCP_DPORT[1] == 'c' && UDP_DPORT[0] == 'u';
    assert IP_SADDR[0] == IP6_SADDR[0] == 'i' && IP_SADDR[1] == IP6_SADDR[1] == 'p';
    if body[0] == 'i' {
      ClashAt(body, IIFNAME, 1);
      ClashAt(body, IP_SADDR, 1);
      ClashAt(body, IP6_SADDR, 1);
    } else {
      ClashAt(body, IIFNAME, 0);
      ClashAt(body, IP_SADDR, 0);
      ClashAt(body, IP6_SADDR, 0);
    }
    ClashAt(body, TCP_DPORT, if body[0] == 't' then 1 else 0);
    ClashAt(body, UDP_DPORT, 0);
  }

  lemma TabbedNone(body: string)
    requires ParseBody(body) == None
    ensures ParseLine(TABS + body) == None
  {
    DropPrefix(TABS, body);
  }

  lemma OuterLinesNone()
    ensures ParseLine(SHEBANG) == None && ParseLine("") == None && ParseLine(TABLE) == None && ParseLine(FLUSH) == None
    ensures ParseLine(TABLE_OPEN) == None && ParseLine(INPUT_OPEN) == None && ParseLine(CHAIN_CLOSE) == None
    ensures ParseLine(RULES_OPEN) == None && ParseLine(TABLE_CLOSE) == None
    ensures ParseLine(MARKER + MARKER_REST + MARKER_END) == None
  {
    NotTabbed(SHEBANG, 0);
    NotTabbed("", 0);
    NotTabbed(TABLE, 0);
    NotTabbed(FLUSH, 0);
    NotTabbed(TABLE_OPEN, 0);
    NotTabbed(INPUT_OPEN, 1);
    NotTabbed(CHAIN_CLOSE, 1);
    NotTabbed(RULES_OPEN, 1);
    NotTabbed(TABLE_CLOSE, 0);
    assert (MARKER + MARKER_REST + MARKER_END)[0] == MARKER[0] == '#';
    NotTabbed(MARKER + MARKER_REST + MARKER_END, 0);
  }

  lemma PolicyLineNone(enabled: bool)
    ensures ParseLine(PolicyLine(enabled)) == None
  {
    var policy := if enabled then POLICY_DROP else POLICY_ACCEPT;
    var body := BASE_TEXT;
    assert body[0] == 't' && body[1] == 'y' && |body| > 2;
    assert PolicyLine(enabled) == TABS + (body + policy);
    NotRuleStart(body + policy);
    TabbedNone(body + policy);
  }

  lemma JumpLineNone()
    ensures ParseLine(JUMP_LINE) == None
  {
    NotRuleStart(JUMP_TEXT);
    TabbedNone(JUMP_TEXT);
  }

  lemma CtLineNone()
    ensures ParseLine(CT_LINE) == None
  {
    NotRuleStart(CT_TEXT);
    TabbedNone(CT_TEXT);
  }

  lemma LoLineNone()
    ensures ParseLine(LO_LINE) == None
  {
    DropPrefix(IIFNAME, "lo" + (CLOSE + "accept"));
    ParseNameOn("lo", "accept");
    var accept := "accept";
    ClashAt(accept, IP_SADDR, 0);
    ClashAt(accept, IP6_SADDR, 0);
    ClashAt(accept, TCP_DPORT, 0);
    ClashAt(accept, UDP_DPORT, 0);
    TabbedNone(IIFNAME + ("lo" + (CLOSE + "accept")));
  }

  /** Header, guard and jump lines never parse as rules, and hold no newline. */
  lemma FixedLines(enabled: bool)
    ensures forall i | 0 <= i < |HeadLines(enabled)| :: ParseLine(HeadLines(enabled)[i]) == None && Lacks(HeadLines(enabled)[i], '\n')
    ensures forall i | 0 <= i < |TailLines()| :: ParseLine(TailLines()[i]) == None && Lacks(TailLines()[i], '\n')
  {
    hide ParseLine, PolicyLine;
    OuterLinesNone();
    PolicyLineNone(enabled);
    JumpLineNone();
    CtLineNone();
    LoLineNone();
    FixedOneLine();
    GuardsOneLine();
    MarkerOneLine();
    PolicyOneLine(enabled);
  }

  lemma PolicyOneLine(enabled: bool)
    ensures Lacks(PolicyLine(enabled), '\n')
  {
    assert Lacks(TABS, '\n') && Lacks(BASE_TEXT, '\n') && Lacks(POLICY_DROP, '\n') && Lacks(POLICY_ACCEPT, '\n');
    LacksConcat(TABS, BASE_TEXT, '\n');
    LacksConcat(BASE_TYPE, if enabled then POLICY_DROP else POLICY_ACCEPT, '\n');
  }

  lemma FixedOneLine()
    ensures Lacks(SHEBANG, '\n') && Lacks("", '\n') && Lacks(TABLE, '\n') && Lacks(FLUSH, '\n')
    ensures Lacks(TABLE_OPEN, '\n') && Lacks(INPUT_OPEN, '\n') && Lacks(CHAIN_CLOSE, '\n')
    ensures Lacks(RULES_OPEN, '\n') && Lacks(TABLE_CLOSE, '\n')
  {
  }

  lemma GuardsOneLine()
    ensures Lacks(JUMP_LINE, '\n') && Lacks(CT_LINE, '\n') && Lacks(LO_LINE, '\n')
  {
    assert Lacks(JUMP_TEXT, '\n') && Lacks(CT_TEXT, '\n') && Lacks(TABS, '\n') && Lacks(IIFNAME, '\n') && Lacks(CLOSE, '\n');
    assert Lacks("lo", '\n') && Lacks("accept", '\n');
    LacksConcat(TABS, JUMP_TEXT, '\n');
    LacksConcat(TABS, CT_TEXT, '\n');
    LacksConcat(CLOSE, "accept", '\n');
    LacksConcat("lo", CLOSE + "accept", '\n');
    LacksConcat(IIFNAME, "lo" + (CLOSE + "accept"), '\n');
    LacksConcat(TABS, IIFNAME + ("lo" + (CLOSE + "accept")), '\n');
  }

  lemma MarkerOneLine()
    ensures Lacks(MARKER + MARKER_REST + MARKER_END, '\n')
  {
    assert Lacks(MARKER, '\n') && Lacks(MARKER_REST, '\n') && Lacks(MARKER_END, '\n');
    LacksConcat(MARKER, MARKER_REST, '\n');
    LacksConcat(MARKER + MARKER_REST, MARKER_END, '\n');
  }

  // ---- the round trip --------------------------------------------------------------------------------

  lemma {:induction false} ParseLinesAppend(lib: Lib, a: seq<string>, b: seq<string>)
    ensures ParseLines(lib, a + b) == ParseLines(lib, a) + ParseLines(lib, b)
  {
    if a == [] {
      assert a + b == b;
    } else {
      assert (a + b)[1..] == a[1..] + b;
      ParseLinesAppend(lib, a[1..], b);
    }
  }

  lemma {:induction false} ParseLinesNone(lib: Lib, lines: seq<string>)
    requires forall i | 0 <= i < |lines| :: ParseLine(lines[i]) == None
    ensures ParseLines(lib, lines) == []
  {
    if lines != [] {
      ParseLinesNone(lib, lines[1..]);
    }
  }

  lemma {:induction false} ParseRuleLines(lib: Lib, singles: seq<LRule>)
    requires Lawful(lib) && StorableRules(lib, singles)
    requires forall i | 0 <= i < |singles| :: singles[i].proto != Both
    ensures ParseLines(lib, RuleLines(lib, singles)) == QuotedAll(lib, singles)
    ensures forall i | 0 <= i < |singles| :: Lacks(RuleLines(lib, singles)[i], '\n')
  {
    hide RuleLine, ParseLine, Quoted, RuleOf, Storable;
    var ls := RuleLines(lib, singles);
    if singles == [] {
      assert QuotedAll(lib, singles) == [];
    } else {
      RuleLineParses(lib, singles[0]);
      ParseRuleLines(lib, singles[1..]);
      assert ls[1..] == RuleLines(lib, singles[1..]);
      assert QuotedAll(lib, singles) == [Quoted(lib, singles[0])] + QuotedAll(lib, singles[1..]);
      forall i | 0 <= i < |singles| ensures Lacks(ls[i], '\n') {
        assert i > 0 ==> ls[i] == ls[1..][i - 1];
      }
    }
  }

  lemma {:induction false} QuotedExpand(lib: Lib, rs: seq<LRule>)
    ensures QuotedAll(lib, Expand(rs)) == Expand(QuotedAll(lib, rs))
  {
    if rs == [] {
      assert QuotedAll(lib, rs) == [];
    } else {
      var qs := QuotedAll(lib, rs);
      QuotedExpand(lib, rs[1..]);
      assert qs[1..] == QuotedAll(lib, rs[1..]);
      var a, b := ExpandRule(rs[0]), Expand(rs[1..]);
      assert QuotedAll(lib, a + b) == QuotedAll(lib, a) + QuotedAll(lib, b);
      assert QuotedAll(lib, a) == ExpandRule(qs[0]);
    }
  }

  lemma EmptyLineNone(lib: Lib)
    ensures ParseLines(lib, [""]) == []
  {
    hide ParseLine;
    OuterLinesNone();
    ParseLinesNone(lib, [""]);
  }

  lemma OneLineJoin(a: seq<string>, b: seq<string>)
    requires forall i | 0 <= i < |a| :: Lacks(a[i], '\n')
    requires forall i | 0 <= i < |b| :: Lacks(b[i], '\n')
    ensures forall i | 0 <= i < |a + b| :: Lacks((a + b)[i], '\n')
  {
    hide Lacks;
  }

  lemma ParsedConf(lib: Lib, enabled: bool, rs: seq<LRule>)
    requires Lawful(lib) && StorableRules(lib, rs)
    ensures ParseLines(lib, SplitLines(ConfText(lib, enabled, rs))) == Expand(QuotedAll(lib, rs))
  {
    hide RuleLine, ParseLine, HeadLines, TailLines, Unlines, SplitLines, Lacks, Quoted, Storable, ParseLines, Expand, QuotedAll, Lawful;
    var e := Expand(rs);
    var head, body, tail := HeadLines(enabled), RuleLines(lib, e), TailLines();
    ExpandStorable(lib, rs);
    ExpandSingles(rs);
    FixedLines(enabled);
    ParseRuleLines(lib, e);
    OneLineJoin(body, tail);
    OneLineJoin(head, body + tail);
    SplitUnlines(head + (body + tail));
    EmptyLineNone(lib);
    ParseLinesAppend(lib, head + (body + tail), [""]);
    ParseLinesAppend(lib, head, body + tail);
    ParseLinesAppend(lib, body, tail);
    ParseLinesNone(lib, head);
    ParseLinesNone(lib, tail);
    QuotedExpand(lib, rs);
  }

  lemma QuotedKeyable(lib: Lib, rs: seq<LRule>)
    requires Lawful(lib) && StorableRules(lib, rs)
    ensures KeyableRules(QuotedAll(lib, rs)) && KeyableRules(rs)
  {
    forall i | 0 <= i < |rs| ensures Lacks(rs[i].from, '|') {
      if rs[i].from != "" {
        AddressNoSpaces(rs[i].from);
      }
    }
  }

  lemma {:induction false} ExpandKeyable(rs: seq<LRule>)
    requires KeyableRules(rs)
    ensures KeyableRules(Expand(rs))
  {
    if rs != [] {
      ExpandKeyable(rs[1..]);
    }
  }

  /** Loading what was rendered gives the flag and the merged list, with interface names as `%q` printed them. */
  lemma LoadRendered(lib: Lib, enabled: bool, rs: seq<LRule>)
    requires Lawful(lib) && StorableRules(lib, rs)
    ensures LoadText(lib, ConfText(lib, enabled, rs)) == Loaded(enabled, Merge(QuotedAll(lib, rs)))
  {
    hide ConfText, ParseLine, FindPolicy;
    HeaderReadsBack(lib, enabled, rs);
    ParsedConf(lib, enabled, rs);
    QuotedKeyable(lib, rs);
    ExpandKeyable(QuotedAll(lib, rs));
    ClumpedIsMerge(Expand(QuotedAll(lib, rs)));
    MergeExpand(QuotedAll(lib, rs));
  }

  predicate PlainNames(lib: Lib, rs: seq<LRule>) {
    forall i | 0 <= i < |rs| :: PlainName(lib, rs[i].iface)
  }

  /** Text round trip: the boot file gives back the flag and exactly `mergeClumped` of the list
      if and only if `%q` prints every interface name unchanged. */
  lemma TextRoundTrip(lib: Lib, enabled: bool, rs: seq<LRule>)
    requires Lawful(lib) && ValidRules(lib, rs)
    ensures LoadText(lib, ConfText(lib, enabled, rs)) == Loaded(enabled, Clumped(rs)) <==> PlainNames(lib, rs)
    ensures Clumped(rs) == Merge(rs)
  {
    hide ConfText, LoadText;
    ValidStorable(lib, rs);
    LoadRendered(lib, enabled, rs);
    QuotedKeyable(lib, rs);
    ClumpedIsMerge(rs);
    var qs := QuotedAll(lib, rs);
    forall i | 0 <= i < |rs| ensures qs[i] == rs[i] <==> PlainName(lib, rs[i].iface) {
      NameExactly(lib, rs[i].iface);
    }
    if Merge(qs) == Merge(rs) {
      ExpandMerge(qs);
      ExpandMerge(rs);
      SameShapeExpansion(qs, rs);
    } else {
      assert qs != rs;
    }
  }

  lemma NameExactly(lib: Lib, iface: string)
    requires Lawful(lib) && InterfaceAccepted(iface)
    ensures QuoteBody(lib, iface) == iface <==> PlainName(lib, iface)
  {
    QuoteBodyExactly(lib, iface);
  }

  /** A name that `addRule` accepts and the boot file does not give back: one control character. */
  lemma ControlNameLost(lib: Lib, enabled: bool)
    requires Lawful(lib)
    ensures var r := LRule(Tcp, 22, Allow, "", "\U{01}");
            ValidRule(lib, r) && LoadText(lib, ConfText(lib, enabled, [r])) != Loaded(enabled, [r])
  {
    hide ConfText, LoadText;
    var r := LRule(Tcp, 22, Allow, "", "\U{01}");
    assert QuoteRune(lib, r.iface)[0] == '\\' && !PlainName(lib, [r][0].iface);
    TextRoundTrip(lib, enabled, [r]);
    MergeFixesTwinFree([r]);
  }

  /** Rendering what was loaded gives the same text. */
  lemma RenderLoaded(lib: Lib, enabled: bool, rs: seq<LRule>)
    requires Lawful(lib) && ValidRules(lib, rs) && PlainNames(lib, rs)
    ensures var l := LoadText(lib, ConfText(lib, enabled, rs));
            ConfText(lib, l.enabled, l.rules) == ConfText(lib, enabled, rs)
  {
    hide LoadText;
    TextRoundTrip(lib, enabled, rs);
    ExpandMerge(rs);
  }

  // ---- foreign files -------------------------------------------------------------------------------------

  /** The boot file: absent, or present with some text. */
  datatype ConfFile = Missing | File(text: string)

  predicate RealContent(lib: Lib, line: string) {
    var t := lib.trimSpace(line);
    t != "" && !HasPrefix(t, "#") && !HasPrefix(t, "!")
  }

  predicate ForeignText(lib: Lib, text: string) {
    !Contains(text, MARKER) && exists i :: 0 <= i < |SplitLines(text)| && RealContent(lib, SplitLines(text)[i])
  }

  predicate Foreign(lib: Lib, f: ConfFile) {
    f.File? && ForeignText(lib, f.text)
  }

  /** `confForeign` on an existing file. */
  method ConfForeign(lib: Lib, text: string) returns (foreign: bool)
    ensures foreign == ForeignText(lib, text)
  {
    var marked := Contains(text, MARKER);
    if marked {
      return false;
    }
    var lines := SplitLines(text);
    var i := 0;
    while i < |lines|
      invariant 0 <= i <= |lines|
      invariant forall j | 0 <= j < i :: !RealContent(lib, lines[j])
    {
      var line := lib.trimSpace(lines[i]);
      if line != "" && !HasPrefix(line, "#") && !HasPrefix(line, "!") {
        assert RealContent(lib, lines[i]);
        return true;
      }
      i := i + 1;
    }
    return false;
  }

  /** Nothing the agent writes is foreign to it. */
  lemma WrittenNeverForeign(lib: Lib, enabled: bool, rs: seq<LRule>)
    ensures !Foreign(lib, File(ConfText(lib, enabled, rs)))
  {
    HeaderReadsBack(lib, enabled, rs);
  }
}
