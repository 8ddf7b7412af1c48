/** The whole boot file: what `renderConf` writes, what `loadConf` reads back, and when they agree. */
module BootConf {
  import opened GoLib
  import opened Rules
  import opened Conf
  import opened Text

  // ---- the file's text --------------------------------------------------------------------

  const MARKER: string := "# Generated by gopitd"
  const MARKER_REST: string := " \U{E2}\U{80}\U{94} do not edit; rewritten"
  const MARKER_END: string := " by the agent on every change."
  const SHEBANG: string := "#!/usr/sbin/nft -f"
  const TABLE: string := "table inet gopit"
  const FLUSH: string := "flush table inet gopit"
  const TABLE_OPEN: string := "table inet gopit {"
  const INPUT_OPEN: string := "\tchain input {"
  const BASE_TEXT: string := "type filter hook input priority filter; "
  const BASE_TYPE: string := TABS + BASE_TEXT
  const POLICY_DROP: string := "policy drop;"
  const POLICY_ACCEPT: string := "policy accept;"
  const JUMP_TEXT: string := "jump gopit-input"
  const JUMP_LINE: string := TABS + JUMP_TEXT
  const CHAIN_CLOSE: string := "\t}"
  const RULES_OPEN: string := "\tchain gopit-input {"
  const CT_TEXT: string := "ct state established,related accept"
  const CT_LINE: string := TABS + CT_TEXT
  const LO_LINE: string := TABS + (IIFNAME + ("lo" + (CLOSE + "accept")))
  const TABLE_CLOSE: string := "}"

  /** The lines before the base chain's policy. */
  const PREAMBLE: seq<string> :=
    [SHEBANG, MARKER + MARKER_REST + MARKER_END, "", TABLE, FLUSH, "", TABLE_OPEN, INPUT_OPEN]

  function PolicyLine(enabled: bool): string {
    BASE_TYPE + if enabled then POLICY_DROP else POLICY_ACCEPT
  }

  function HeadLines(enabled: bool): seq<string> {
    PREAMBLE + ([PolicyLine(enabled)] + ((if enabled then [JUMP_LINE] else []) + [CHAIN_CLOSE, RULES_OPEN, CT_LINE, LO_LINE]))
  }

  function RuleLines(lib: Lib, singles: seq<LRule>): (ls: seq<string>)
    ensures |ls| == |singles| && forall i | 0 <= i < |ls| :: ls[i] == RuleLine(lib, singles[i])
  {
    seq(|singles|, i requires 0 <= i < |singles| => RuleLine(lib, singles[i]))
  }

  function TailLines(): seq<string> {
    [CHAIN_CLOSE, TABLE_CLOSE]
  }

  function ConfLines(lib: Lib, enabled: bool, rs: seq<LRule>): seq<string> {
    HeadLines(enabled) + (RuleLines(lib, Expand(rs)) + TailLines())
  }

  /** The text of the boot file for a logical state. */
  function ConfText(lib: Lib, enabled: bool, rs: seq<LRule>): string {
    Unlines(ConfLines(lib, enabled, rs))
  }

  method WriteLines(b: string, lines: seq<string>) returns (out: string)
    ensures out == b + Unlines(lines)
  {
    out := b;
    var i := 0;
    while i < |lines|
      invariant 0 <= i <= |lines|
      invariant out == b + Unlines(lines[..i])
    {
      out := out + (lines[i] + NEWLINE);
      assert lines[..i + 1] == lines[..i] + [lines[i]];
      UnlinesAppend(lines[..i], [lines[i]]);
      UnlinesOne(lines[i]);
      i := i + 1;
    }
    assert lines[..|lines|] == lines;
  }

  lemma UnlinesOne(line: string)
    ensures Unlines([line]) == line + NEWLINE
  {
    assert [line][1..] == [];
    assert Unlines([]) == "";
  }

  /** The inner loop of `renderConf`: one line per protocol of a rule. */
  method RenderProtos(lib: Lib, b: string, r: LRule) returns (out: string)
    ensures out == b + Unlines(RuleLines(lib, ExpandRule(r)))
  {
    hide BodyText, PartsOf;
    ghost var mine := RuleLines(lib, ExpandRule(r));
    out := b;
    var ps := Protos(r.proto);
    var j := 0;
    while j < |ps|
      invariant 0 <= j <= |ps|
      invariant out == b + Unlines(mine[..j])
    {
      var rr := WithProto(r, ps[j]);
      assert rr == ExpandRule(r)[j];
      var text := RenderRule(lib, rr);
      out := out + (TABS + text + NEWLINE);
      assert mine[..j + 1] == mine[..j] + [mine[j]];
      UnlinesAppend(mine[..j], [mine[j]]);
      UnlinesOne(mine[j]);
      j := j + 1;
    }
    assert mine[..|ps|] == mine;
  }

  /** The rule part of the file. */
  function RuleText(lib: Lib, rs: seq<LRule>): string {
    Unlines(RuleLines(lib, Expand(rs)))
  }

  lemma RuleTextNothing(lib: Lib)
    ensures RuleText(lib, []) == ""
  {
  }

  lemma RuleTextSnoc(lib: Lib, rs: seq<LRule>, r: LRule)
    ensures RuleText(lib, rs + [r]) == RuleText(lib, rs) + Unlines(RuleLines(lib, ExpandRule(r)))
  {
    hide RuleLine;
    ExpandAppend(rs, [r]);
    assert Expand([]) == [] && Expand([r]) == ExpandRule(r);
    assert RuleLines(lib, Expand(rs) + ExpandRule(r)) == RuleLines(lib, Expand(rs)) + RuleLines(lib, ExpandRule(r));
    UnlinesAppend(RuleLines(lib, Expand(rs)), RuleLines(lib, ExpandRule(r)));
  }

  lemma ConfTextParts(lib: Lib, enabled: bool, rs: seq<LRule>)
    ensures ConfText(lib, enabled, rs) == Unlines(HeadLines(enabled)) + RuleText(lib, rs) + Unlines(TailLines())
  {
    hide RuleLines, HeadLines, TailLines, Unlines;
    UnlinesAppend(RuleLines(lib, Expand(rs)), TailLines());
    UnlinesAppend(HeadLines(enabled), RuleLines(lib, Expand(rs)) + TailLines());
  }

  /** `renderConf`. */
  method RenderConf(lib: Lib, enabled: bool, rs: seq<LRule>) returns (b: string)
    ensures b == ConfText(lib, enabled, rs)
  {
    hide RuleText, HeadLines, TailLines, ConfText, Unlines, RuleLines, Expand, ExpandRule;
    ghost var head := Unlines(HeadLines(enabled));
    b := WriteLines("", HeadLines(enabled));
    RuleTextNothing(lib);
    var i := 0;
    assert rs[..0] == [];
    while i < |rs|
      invariant 0 <= i <= |rs|
      invariant b == head + RuleText(lib, rs[..i])
    {
      b := RenderProtos(lib, b, rs[i]);
      RuleTextSnoc(lib, rs[..i], rs[i]);
      assert rs[..i + 1] == rs[..i] + [rs[i]];
      i := i + 1;
    }
    assert rs[..|rs|] == rs;
    b := WriteLines(b, TailLines());
    ConfTextParts(lib, enabled, rs);
  }

  // ---- the policy and jump searches -----------------------------------------------------------

  function PolicyAt(s: string): Option<bool> {
    if HasPrefix(s, POLICY_ACCEPT) then Some(false)
    else if HasPrefix(s, POLICY_DROP) then Some(true)
    else None
  }

  /** The leftmost match of `policy (accept|drop);`, true for drop. */
  function FindPolicy(s: string): Option<bool>
    decreases |s|
  {
    if PolicyAt(s).Some? then PolicyAt(s)
    else if s == "" then None
    else FindPolicy(s[1..])
  }

  /** Every `p` is followed by something other than `o`, so no match of the policy expression starts here. */
  predicate NoPolicyStart(s: string) {
    forall i | 0 <= i < |s| && s[i] == 'p' :: i + 1 < |s| && s[i + 1] != 'o'
  }

  lemma {:induction false} FindPolicySkips(a: string, b: string)
    requires NoPolicyStart(a)
    ensures FindPolicy(a + b) == FindPolicy(b)
  {
    if a == "" {
      assert a + b == b;
    } else {
      var s := a + b;
      assert s[0] == a[0] && (a[0] == 'p' ==> s[1] == a[1] != 'o');
      assert POLICY_ACCEPT[0] == POLICY_DROP[0] == 'p' && POLICY_ACCEPT[1] == POLICY_DROP[1] == 'o';
      if a[0] == 'p' {
        ClashAt(s, POLICY_ACCEPT, 1);
        ClashAt(s, POLICY_DROP, 1);
      } else {
        ClashAt(s, POLICY_ACCEPT, 0);
        ClashAt(s, POLICY_DROP, 0);
      }
      assert s[1..] == a[1..] + b;
      FindPolicySkips(a[1..], b);
    }
  }

  lemma NoPolicyJoin(a: string, b: string)
    requires NoPolicyStart(a) && NoPolicyStart(b)
    ensures NoPolicyStart(a + b)
  {
    forall i | 0 <= i < |a + b| && (a + b)[i] == 'p' ensures i + 1 < |a + b| && (a + b)[i + 1] != 'o' {
      if i < |a| {
        assert a[i] == 'p';
      } else {
        assert b[i - |a|] == 'p';
      }
    }
  }

  lemma {:induction false} NoPolicyUnlines(lines: seq<string>)
    requires forall i | 0 <= i < |lines| :: NoPolicyStart(lines[i])
    ensures NoPolicyStart(Unlines(lines))
  {
    if lines != [] {
      NoPolicyUnlines(lines[1..]);
      assert NoPolicyStart(NEWLINE);
      NoPolicyJoin(lines[0], NEWLINE);
      NoPolicyJoin(lines[0] + NEWLINE, Unlines(lines[1..]));
    }
  }

  lemma NoPolicyShort()
    ensures NoPolicyStart(SHEBANG) && NoPolicyStart(TABLE) && NoPolicyStart(FLUSH) && NoPolicyStart(TABLE_OPEN)
    ensures NoPolicyStart(INPUT_OPEN) && NoPolicyStart("")
  {
  }

  lemma NoPolicyMarker()
    ensures NoPolicyStart(MARKER + MARKER_REST + MARKER_END)
  {
    var a, b, c := MARKER, MARKER_REST, MARKER_END;
    assert NoPolicyStart(a);
    assert NoPolicyStart(b);
    assert NoPolicyStart(c);
    NoPolicyJoin(a, b);
    NoPolicyJoin(a + b, c);
  }

  lemma NoPolicyBase()
    ensures NoPolicyStart(BASE_TYPE)
  {
    var s := BASE_TEXT;
    assert NoPolicyStart(s);
    assert NoPolicyStart(TABS);
    NoPolicyJoin(TABS, s);
  }

  lemma PolicyFound(enabled: bool, rest: string)
    ensures FindPolicy((if enabled then POLICY_DROP else POLICY_ACCEPT) + rest) == Some(enabled)
  {
    if enabled {
      DropPrefix(POLICY_DROP, rest);
      ClashAt(POLICY_DROP + rest, POLICY_ACCEPT, 7);
    } else {
      DropPrefix(POLICY_ACCEPT, rest);
    }
  }

  lemma ContainsAfter(a: string, sub: string, b: string)
    ensures Contains(a + (sub + b), sub)
  {
    var s := a + (sub + b);
    assert s[|a|..] == sub + b;
    DropPrefix(sub, b);
    assert HasPrefix(s[|a|..], sub);
  }

  lemma LineInText(a: seq<string>, line: string, b: seq<string>)
    ensures Unlines(a + ([line] + b)) == Unlines(a) + (line + (NEWLINE + Unlines(b)))
  {
    UnlinesAppend(a, [line] + b);
    assert ([line] + b)[1..] == b;
    assert Unlines([line] + b) == line + NEWLINE + Unlines(b);
  }

  /** The flag is found where it was written: no earlier line can match the policy expression. */
  lemma FlagFound(enabled: bool, rest: seq<string>)
    ensures FindPolicy(Unlines(PREAMBLE + ([PolicyLine(enabled)] + rest))) == Some(enabled)
  {
    LineInText(PREAMBLE, PolicyLine(enabled), rest);
    NoPolicyPreamble();
    var policy, tail := (if enabled then POLICY_DROP else POLICY_ACCEPT), NEWLINE + Unlines(rest);
    assert PolicyLine(enabled) + tail == BASE_TYPE + (policy + tail);
    FindPolicySkips(Unlines(PREAMBLE), BASE_TYPE + (policy + tail));
    NoPolicyBase();
    FindPolicySkips(BASE_TYPE, policy + tail);
    PolicyFound(enabled, tail);
  }

  lemma NoPolicyPreamble()
    ensures NoPolicyStart(Unlines(PREAMBLE))
  {
    NoPolicyShort();
    NoPolicyMarker();
    NoPolicyUnlines(PREAMBLE);
  }

  lemma JumpFound(before: seq<string>, rest: seq<string>)
    ensures Contains(Unlines(before + ([JUMP_LINE] + rest)), JUMP_TEXT)
  {
    LineInText(before, JUMP_LINE, rest);
    var pre, tail := Unlines(before), NEWLINE + Unlines(rest);
    assert pre + ((TABS + JUMP_TEXT) + tail) == (pre + TABS) + (JUMP_TEXT + tail);
    ContainsAfter(pre + TABS, JUMP_TEXT, tail);
  }

  lemma MarkerFound(before: seq<string>, rest: seq<string>)
    ensures Contains(Unlines(before + ([MARKER + MARKER_REST + MARKER_END] + rest)), MARKER)
  {
    LineInText(before, MARKER + MARKER_REST + MARKER_END, rest);
    var more, tail := MARKER_REST + MARKER_END, NEWLINE + Unlines(rest);
    assert (MARKER + MARKER_REST + MARKER_END) + tail == MARKER + (more + tail);
    ContainsAfter(Unlines(before), MARKER, more + tail);
  }

  lemma MarkerWritten(lib: Lib, enabled: bool, rs: seq<LRule>)
    ensures Contains(ConfText(lib, enabled, rs), MARKER)
  {
    hide RuleLine, Contains, PolicyLine;
    var lines := ConfLines(lib, enabled, rs);
    assert lines == lines[..1] + ([MARKER + MARKER_REST + MARKER_END] + lines[2..]);
    MarkerFound(lines[..1], lines[2..]);
  }

  lemma FlagWritten(lib: Lib, enabled: bool, rs: seq<LRule>)
    ensures FindPolicy(ConfText(lib, enabled, rs)) == Some(enabled)
  {
    hide RuleLine, FindPolicy, PolicyLine;
    var lines := ConfLines(lib, enabled, rs);
    assert lines == PREAMBLE + ([PolicyLine(enabled)] + lines[9..]);
    FlagFound(enabled, lines[9..]);
  }

  lemma JumpWritten(lib: Lib, rs: seq<LRule>)
    ensures Contains(ConfText(lib, true, rs), JUMP_TEXT)
  {
    hide RuleLine, Contains, PolicyLine;
    var lines := ConfLines(lib, true, rs);
    assert lines == lines[..9] + ([JUMP_LINE] + lines[10..]);
    JumpFound(lines[..9], lines[10..]);
  }

  /** Everything the agent writes carries the marker and reads back as the flag it was written with. */
  lemma HeaderReadsBack(lib: Lib, enabled: bool, rs: seq<LRule>)
    ensures Contains(ConfText(lib, enabled, rs), MARKER)
    ensures LoadEnabled(ConfText(lib, enabled, rs)) == enabled
  {
    hide ConfText, FindPolicy, Contains;
    MarkerWritten(lib, enabled, rs);
    FlagWritten(lib, enabled, rs);
    if enabled {
      JumpWritten(lib, rs);
    }
  }

  function LoadEnabled(text: string): bool {
    FindPolicy(text) == Some(true) && Contains(text, JUMP_TEXT)
  }
}
