/** The boot file word by word, and what the agent makes of any text (internal/agent/nftfw/conf.go). */
module Spelling {
  import opened GoLib
  import opened Rules
  import opened Conf
  import opened Text
  import opened BootConf
  import L = LoadConf

  // ---- rule lines ------------------------------------------------------------------------------------

  /** The groups of the rule-line expression, in the order and with the words of nft. */
  lemma LineSpells(p: LineParts)
    ensures LineText(p) ==
            "\t\t" + ((if p.iface.Some? then "iifname \"" + p.iface.value + "\" " else "")
                      + ((if p.source.None? then "" else (if p.source.value.0 then "ip6" else "ip") + " saddr " + p.source.value.1 + " ")
                         + ((if p.udp then "udp" else "tcp") + " dport " + p.digits + " "
                            + (match p.verb case VerbAccept => "accept" case VerbDrop => "drop" case VerbReject => "reject"
                               case VerbReset => "reject with tcp reset"))))
  {
    hide VerbText;
    KeyWords();
    var tail := (if p.udp then "udp" else "tcp") + " dport " + p.digits + " " + VerbText(p.verb);
    assert TailText(p) == tail;
    hide TailText;
    var source := if p.source.None? then "" else (if p.source.value.0 then "ip6" else "ip") + " saddr " + p.source.value.1 + " ";
    assert SourceText(p) == source + tail;
    hide SourceText;
    var name := if p.iface.Some? then "iifname \"" + p.iface.value + "\" " else "";
    assert BodyText(p) == name + (source + tail);
    VerbWords(p.verb);
  }

  lemma KeyWords()
    ensures TCP_DPORT == "tcp" + " dport " && UDP_DPORT == "udp" + " dport "
    ensures IP_SADDR == "ip" + " saddr " && IP6_SADDR == "ip6" + " saddr "
  {
  }

  lemma VerbWords(v: Verb)
    ensures VerbText(v) == (match v case VerbAccept => "accept" case VerbDrop => "drop" case VerbReject => "reject"
                            case VerbReset => "reject with tcp reset")
  {
  }

  /** What stands before the protocol in the line of a rule. */
  function NameWords(lib: Lib, r: LRule): string {
    if r.iface == "" then "" else "iifname \"" + QuoteBody(lib, r.iface) + "\" "
  }

  function SourceWords(lib: Lib, r: LRule): string {
    if r.from == "" then ""
    else match lib.parseIP(r.from)
      case Some(V6(_)) => "ip6 saddr " + r.from + " "
      case _ => "ip saddr " + r.from + " "
  }

  function VerbWord(r: LRule): string {
    match r.action
    case Allow => "accept"
    case Deny => "drop"
    case Reject => if r.proto == Tcp then "reject with tcp reset" else "reject"
  }

  /** The sentence for a single-protocol rule. */
  function Sentence(lib: Lib, r: LRule): string {
    "\t\t" + (NameWords(lib, r) + (SourceWords(lib, r) + ((if r.proto == Udp then "udp" else "tcp") + " dport " + Itoa(r.port) + " " + VerbWord(r))))
  }

  /** The line written for a rule names its interface, the family and text of its source, its protocol, port and verdict. */
  lemma RuleLineSpells(lib: Lib, r: LRule)
    requires r.proto != Both
    ensures RuleLine(lib, r) == Sentence(lib, r)
  {
    hide QuoteBody, Itoa, LineText;
    LineSpells(PartsOf(lib, r));
    assert "ip6" + " saddr " == "ip6 saddr " && "ip" + " saddr " == "ip saddr ";
  }

  /** After its interface, the line of a rule with a source says `ip6` exactly for a 16-byte address and `ip` exactly for
      a 4-byte one. */
  lemma FamilyWordExactly(lib: Lib, r: LRule)
    requires Storable(lib, r) && r.proto != Both && r.from != ""
    ensures var line, n := RuleLine(lib, r), |"\t\t" + NameWords(lib, r)|;
            && n <= |line|
            && (HasPrefix(line[n..], "ip6 saddr " + r.from + " ") <==> lib.parseIP(r.from).value.V6?)
            && (HasPrefix(line[n..], "ip saddr " + r.from + " ") <==> lib.parseIP(r.from).value.V4?)
  {
    hide QuoteBody, Itoa, RuleLine, NameWords, HasPrefix, VerbWord;
    RuleLineSpells(lib, r);
    var front, rest := "\t\t" + NameWords(lib, r), (if r.proto == Udp then "udp" else "tcp") + " dport " + Itoa(r.port) + " " + VerbWord(r);
    assert Sentence(lib, r) == front + (SourceWords(lib, r) + rest);
    DropPrefix(front, SourceWords(lib, r) + rest);
    FamilyStarts(r.from, rest);
  }

  lemma FamilyStarts(from: string, rest: string)
    ensures var six, four := "ip6 saddr " + from + " ", "ip saddr " + from + " ";
            && HasPrefix(six + rest, six) && !HasPrefix(six + rest, four)
            && HasPrefix(four + rest, four) && !HasPrefix(four + rest, six)
  {
    var six, four := "ip6 saddr " + from + " ", "ip saddr " + from + " ";
    assert six[2] == "ip6 saddr "[2] == '6' && four[2] == "ip saddr "[2] == ' ';
    DropPrefix(six, rest);
    DropPrefix(four, rest);
    ClashAt(six + rest, four, 2);
    ClashAt(four + rest, six, 2);
  }

  // ---- the whole file ---------------------------------------------------------------------------------

  function Sentences(lib: Lib, singles: seq<LRule>): (ls: seq<string>)
    ensures |ls| == |singles| && forall i | 0 <= i < |singles| :: ls[i] == Sentence(lib, singles[i])
  {
    seq(|singles|, i requires 0 <= i < |singles| => Sentence(lib, singles[i]))
  }

  /** The lines before the rules: create and flush the table, the base chain with its policy and, if the firewall is on,
      the jump; the managed chain with its two guards. */
  function Opening(enabled: bool): seq<string> {
    ["#!/usr/sbin/nft -f",
     "# Generated by gopitd" + " \U{E2}\U{80}\U{94} do not edit; rewritten" + " by the agent on every change.",
     "",
     "table inet gopit",
     "flush table inet gopit",
     "",
     "table inet gopit {",
     "\tchain input {",
     "\t\t" + "type filter hook input priority filter; " + if enabled then "policy drop;" else "policy accept;"]
    + (if enabled then ["\t\t" + "jump gopit-input"] else [])
    + ["\t}",
       "\tchain gopit-input {",
       "\t\t" + "ct state established,related accept",
       "\t\t" + ("iifname \"" + ("lo" + ("\" " + "accept")))]
  }

  lemma OpeningSpells(enabled: bool)
    ensures HeadLines(enabled) == Opening(enabled)
  {
  }

  /** The file is the opening, one sentence per protocol of each rule in order, and the two closing braces. */
  lemma FileSpells(lib: Lib, enabled: bool, rs: seq<LRule>)
    ensures ConfText(lib, enabled, rs) == Unlines(Opening(enabled) + Sentences(lib, Expand(rs)) + ["\t}", "}"])
  {
    hide RuleLine, Sentence, Unlines, Expand;
    ExpandSingles(rs);
    forall i | 0 <= i < |Expand(rs)| ensures RuleLine(lib, Expand(rs)[i]) == Sentence(lib, Expand(rs)[i]) {
      RuleLineSpells(lib, Expand(rs)[i]);
    }
    assert RuleLines(lib, Expand(rs)) == Sentences(lib, Expand(rs));
    OpeningSpells(enabled);
    assert TailLines() == ["\t}", "}"];
    hide RuleLines, Sentences, HeadLines, TailLines, Opening;
    assert ConfLines(lib, enabled, rs) == Opening(enabled) + Sentences(lib, Expand(rs)) + ["\t}", "}"];
  }

  // ---- any text -----------------------------------------------------------------------------------------

  /** The first match of `policy (accept|drop);` stands at `i`. */
  predicate FirstPolicyAt(text: string, i: nat) {
    && i <= |text| && (HasPrefix(text[i..], "policy drop;") || HasPrefix(text[i..], "policy accept;"))
    && forall j | 0 <= j < i :: !HasPrefix(text[j..], "policy drop;") && !HasPrefix(text[j..], "policy accept;")
  }

  /** The first policy of the text, if any, is drop. */
  predicate FirstPolicyDrops(text: string) {
    exists i :: 0 <= i <= |text| && FirstPolicyAt(text, i) && HasPrefix(text[i..], "policy drop;")
  }

  lemma {:induction false} FindPolicyExactly(text: string)
    ensures FindPolicy(text) == Some(true) <==> FirstPolicyDrops(text)
    decreases |text|
  {
    assert text[0..] == text;
    assert POLICY_DROP[7] == 'd' && POLICY_ACCEPT[7] == 'a';
    if PolicyAt(text).Some? {
      assert FirstPolicyAt(text, 0);
      assert forall i | 0 < i <= |text| :: !FirstPolicyAt(text, i);
    } else if text == "" {
    } else {
      FindPolicyExactly(text[1..]);
      PolicyShift(text);
    }
  }

  lemma PolicyShift(text: string)
    requires text != "" && PolicyAt(text).None?
    ensures FirstPolicyDrops(text) <==> FirstPolicyDrops(text[1..])
  {
    var rest := text[1..];
    assert text[0..] == text;
    forall j | 1 <= j <= |text| ensures rest[j - 1..] == text[j..] { }
    if FirstPolicyDrops(text) {
      var i :| 0 <= i <= |text| && FirstPolicyAt(text, i) && HasPrefix(text[i..], "policy drop;");
      forall j | 0 <= j < i - 1 ensures !HasPrefix(rest[j..], "policy drop;") && !HasPrefix(rest[j..], "policy accept;") {
        assert rest[j..] == text[j + 1..];
      }
      assert FirstPolicyAt(rest, i - 1);
    }
    if FirstPolicyDrops(rest) {
      var i :| 0 <= i <= |rest| && FirstPolicyAt(rest, i) && HasPrefix(rest[i..], "policy drop;");
      forall j | 0 <= j < i + 1 ensures !HasPrefix(text[j..], "policy drop;") && !HasPrefix(text[j..], "policy accept;") {
        assert j > 0 ==> rest[j - 1..] == text[j..];
      }
      assert rest[i..] == text[i + 1..];
      assert FirstPolicyAt(text, i + 1);
    }
  }

  /** Any text loads as enabled exactly when it has the marker, its first policy is drop and it has the jump. */
  lemma LoadedFlagExactly(lib: Lib, text: string)
    ensures L.LoadText(lib, text).enabled <==>
            Contains(text, "# Generated by gopitd") && FirstPolicyDrops(text) && Contains(text, "jump gopit-input")
  {
    hide Contains, FindPolicy, FirstPolicyDrops;
    FindPolicyExactly(text);
  }

  /** A line that is neither empty nor a comment nor an interpreter line. */
  predicate Counts(t: string) {
    t != "" && t[0] != '#' && t[0] != '!'
  }

  lemma CountsIsReal(lib: Lib, line: string)
    ensures L.RealContent(lib, line) <==> Counts(lib.trimSpace(line))
  {
    var t := lib.trimSpace(line);
    if t != "" {
      assert t[..1] == [t[0]];
      assert "#"[0] == '#' && "!"[0] == '!';
    }
  }

  /** Any text counts as somebody else's exactly when it lacks the marker and some line of it, trimmed, counts. */
  lemma ForeignExactly(lib: Lib, text: string)
    ensures L.Foreign(lib, L.File(text)) <==>
            !Contains(text, "# Generated by gopitd")
            && exists i :: 0 <= i < |SplitLines(text)| && Counts(lib.trimSpace(SplitLines(text)[i]))
  {
    hide Contains, SplitLines, Counts, L.RealContent;
    var lines := SplitLines(text);
    forall i | 0 <= i < |lines| ensures L.RealContent(lib, lines[i]) <==> Counts(lib.trimSpace(lines[i])) {
      CountsIsReal(lib, lines[i]);
    }
    if i :| 0 <= i < |lines| && Counts(lib.trimSpace(lines[i])) {
      assert L.RealContent(lib, lines[i]);
    }
  }

  // ---- escapes -------------------------------------------------------------------------------------------

  function HexDigitValue(c: char): nat {
    if '0' <= c <= '9' then c as int - '0' as int
    else if 'a' <= c <= 'f' then c as int - 'a' as int + 10
    else 0
  }

  /** The byte that an escape of a Go string literal stands for. */
  function EscapedByte(e: string): Option<nat> {
    if |e| == 2 && e[0] == '\\' then
      match e[1]
      case 'a' => Some(7)
      case 'b' => Some(8)
      case 't' => Some(9)
      case 'n' => Some(10)
      case 'v' => Some(11)
      case 'f' => Some(12)
      case 'r' => Some(13)
      case _ => None
    else if |e| == 4 && e[0] == '\\' && e[1] == 'x' then Some(16 * HexDigitValue(e[2]) + HexDigitValue(e[3]))
    else None
  }

  /** Each unprintable ASCII byte is written as an escape that stands for it. */
  lemma EscapeStandsFor(c: char)
    requires !Wide(c)
    ensures EscapedByte(ControlEscape(c)) == Some(c as int)
  {
    var n := c as int;
    assert "\\a"[1] == 'a' && "\\b"[1] == 'b' && "\\t"[1] == 't' && "\\n"[1] == 'n' && "\\v"[1] == 'v' && "\\f"[1] == 'f' && "\\r"[1] == 'r';
    HexBack(n / 16);
    HexBack(n % 16);
  }

  lemma HexBack(d: nat)
    requires d < 16
    ensures HexDigitValue(HexDigit(d)) == d
  {
  }
}
