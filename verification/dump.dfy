/** The INSERT statements of a database dump and reading them back (internal/server/store/backup.go). */
module Dump {
  import opened GoLib
  import opened Text

  /** What a scanned column can hold; reals are not part of the model. */
  datatype Value = Null | Integer(i: int) | Blob(b: string) | Str(s: string)

  predicate ValidValue(v: Value) {
    match v
    case Integer(i) => -0x8000_0000_0000_0000 <= i < 0x8000_0000_0000_0000
    case Blob(b) => forall k | 0 <= k < |b| :: b[k] as int < 256
    case _ => true
  }

  datatype Insert = Insert(table: string, row: seq<Value>)

  /** Tables have at least one column. */
  predicate ValidInsert(n: Insert) {
    n.row != [] && forall k | 0 <= k < |n.row| :: ValidValue(n.row[k])
  }

  // ---- writing ------------------------------------------------------------------------------

  function Hex(d: nat): (c: char)
    requires d < 16
    ensures c != '\''
  {
    if d < 10 then Digit(d) else ('a' as int + d - 10) as char
  }

  /** `%x` on bytes. */
  function HexText(b: string): string
    requires forall k | 0 <= k < |b| :: b[k] as int < 256
  {
    if b == "" then "" else [Hex(b[0] as int / 16), Hex(b[0] as int % 16)] + HexText(b[1..])
  }

  /** `strings.ReplaceAll(s, q, qq)` for a one-byte `q`. */
  function Doubled(s: string, q: char): string {
    if s == "" then "" else (if s[0] == q then [q, q] else [s[0]]) + Doubled(s[1..], q)
  }

  const QUOTE: string := "'"

  /** `sqlVal`. */
  function SqlVal(v: Value): string
    requires ValidValue(v)
  {
    match v
    case Null => "NULL"
    case Integer(i) => if i < 0 then "-" + Itoa(-i) else Itoa(i)
    case Blob(b) => "X'" + (HexText(b) + QUOTE)
    case Str(s) => QUOTE + (Doubled(s, '\'') + QUOTE)
  }

  /** `quoteIdent`. */
  function QuoteIdent(name: string): string {
    "\"" + (Doubled(name, '"') + "\"")
  }

  const COMMA: string := ","

  /** The values of a row, comma-separated, and what follows them. */
  function RowText(row: seq<Value>, rest: string): string
    requires row != [] && forall k | 0 <= k < |row| :: ValidValue(row[k])
  {
    SqlVal(row[0]) + if |row| == 1 then rest else COMMA + RowText(row[1..], rest)
  }

  const INSERT_INTO: string := "INSERT INTO "
  const VALUES: string := " VALUES("
  const CLOSING: string := ");\n"

  /** A sequence of INSERT statements. */
  function DumpText(ns: seq<Insert>): string
    requires forall k | 0 <= k < |ns| :: ValidInsert(ns[k])
  {
    if ns == [] then ""
    else
      assert ValidInsert(ns[0]);
      INSERT_INTO + (QuoteIdent(ns[0].table) + (VALUES + RowText(ns[0].row, CLOSING + DumpText(ns[1..]))))
  }

  lemma {:induction false} RowTextJoin(row: seq<Value>, rest: string)
    requires row != [] && forall k | 0 <= k < |row| :: ValidValue(row[k])
    ensures RowText(row, rest) == Joined(row, |row|) + rest
    decreases |row|
  {
    hide SqlVal;
    if |row| > 1 {
      RowTextJoin(row[1..], rest);
      JoinedTail(row, |row|);
      var a, b, c := SqlVal(row[0]), COMMA + Joined(row[1..], |row| - 1), rest;
      assert (a + b) + c == a + (b + c);
      assert b + c == COMMA + (Joined(row[1..], |row| - 1) + rest);
    }
  }

  /** `strings.Join` of the first `n` values. */
  function Joined(row: seq<Value>, n: nat): string
    requires n <= |row| && forall k | 0 <= k < |row| :: ValidValue(row[k])
  {
    if n == 0 then "" else if n == 1 then SqlVal(row[0]) else Joined(row, n - 1) + (COMMA + SqlVal(row[n - 1]))
  }

  lemma {:induction false} JoinedTail(row: seq<Value>, n: nat)
    requires 2 <= n <= |row| && forall k | 0 <= k < |row| :: ValidValue(row[k])
    ensures Joined(row, n) == SqlVal(row[0]) + (COMMA + Joined(row[1..], n - 1))
  {
    hide SqlVal;
    if n > 2 {
      JoinedTail(row, n - 1);
      assert row[1..][n - 2] == row[n - 1];
    }
  }

  /** The value loop of `Dump` and its `strings.Join`. */
  method JoinValues(row: seq<Value>) returns (text: string)
    requires forall k | 0 <= k < |row| :: ValidValue(row[k])
    ensures text == Joined(row, |row|)
  {
    hide SqlVal;
    text := "";
    for j := 0 to |row|
      invariant text == Joined(row, j)
    {
      var part := SqlVal(row[j]);
      text := if j == 0 then part else text + (COMMA + part);
    }
  }

  lemma Regroup3(t: string, a: string, b: string, c: string, d: string, rest: string)
    ensures t + (a + (b + (c + (d + rest)))) == (t + (a + (b + (c + d)))) + rest
  {
    assert c + (d + rest) == (c + d) + rest;
    assert b + ((c + d) + rest) == (b + (c + d)) + rest;
    assert a + ((b + (c + d)) + rest) == (a + (b + (c + d))) + rest;
  }

  /** The row loop of `Dump`. */
  method DumpRows(table: string, rows: seq<seq<Value>>) returns (text: string)
    requires forall k | 0 <= k < |rows| :: ValidInsert(Insert(table, rows[k]))
    ensures text == DumpText(Inserts(table, rows))
  {
    hide SqlVal, QuoteIdent, RowText, Joined;
    text := "";
    ghost var all := Inserts(table, rows);
    for k := 0 to |rows|
      invariant DumpText(all) == text + DumpText(all[k..])
    {
      var row := rows[k];
      assert all[k] == Insert(table, row) && all[k..][1..] == all[k + 1..];
      var parts := JoinValues(row);
      ghost var rest := DumpText(all[k + 1..]);
      RowTextJoin(row, CLOSING + rest);
      assert parts + (CLOSING + rest) == (parts + CLOSING) + rest;
      Regroup3(text, INSERT_INTO, QuoteIdent(table), VALUES, parts + CLOSING, rest);
      text := text + (INSERT_INTO + (QuoteIdent(table) + (VALUES + (parts + CLOSING))));
    }
    assert all[|rows|..] == [];
  }

  function Inserts(table: string, rows: seq<seq<Value>>): (ns: seq<Insert>)
    ensures |ns| == |rows| && forall k | 0 <= k < |rows| :: ns[k] == Insert(table, rows[k])
  {
    seq(|rows|, k requires 0 <= k < |rows| => Insert(table, rows[k]))
  }

  // ---- reading: SQL's own lexical rules, left to right ---------------------------------------------

  function HexValue(c: char): Option<nat> {
    if '0' <= c <= '9' then Some(c as int - '0' as int)
    else if 'a' <= c <= 'f' then Some(c as int - 'a' as int + 10)
    else if 'A' <= c <= 'F' then Some(c as int - 'A' as int + 10)
    else None
  }

  /** Hex pairs up to a closing quote. */
  function ScanHex(s: string): Option<(string, string)>
    decreases |s|
  {
    if s == "" then None
    else if s[0] == '\'' then Some(("", s[1..]))
    else if |s| < 2 then None
    else match (HexValue(s[0]), HexValue(s[1]))
      case (Some(a), Some(b)) =>
        (match ScanHex(s[2..])
         case Some((t, rest)) => if a < 16 && b < 16 then Some(([(a * 16 + b) as char] + t, rest)) else None
         case None => None)
      case _ => None
  }

  /** A quoted token up to a lone quote; a doubled one stands for itself. SQL text ends at a NUL. */
  function ScanQuoted(s: string, q: char): Option<(string, string)>
    decreases |s|
  {
    if s == "" || s[0] == '\0' then None
    else if s[0] != q then
      (match ScanQuoted(s[1..], q) case Some((t, rest)) => Some(([s[0]] + t, rest)) case None => None)
    else if |s| > 1 && s[1] == q then
      (match ScanQuoted(s[2..], q) case Some((t, rest)) => Some(([q] + t, rest)) case None => None)
    else Some(("", s[1..]))
  }

  function ScanDigits(s: string, negative: bool): Option<(Value, string)> {
    var n := Span(s, NotDigit);
    assert forall k | 0 <= k < n :: !NotDigit(s[..n][k]);
    if n == 0 then None
    else
      var v: int := DigitsValue(s[..n]);
      Some((Integer(if negative then -v else v), s[n..]))
  }

  function ScanValue(s: string): Option<(Value, string)> {
    if s == "" then None
    else if s[0] == 'N' then (if HasPrefix(s, "NULL") then Some((Null, s[4..])) else None)
    else if s[0] == 'X' then
      (if |s| < 2 || s[1] != '\'' then None
       else match ScanHex(s[2..]) case Some((b, rest)) => Some((Blob(b), rest)) case None => None)
    else if s[0] == '\'' then
      (match ScanQuoted(s[1..], '\'') case Some((t, rest)) => Some((Str(t), rest)) case None => None)
    else if s[0] == '-' then ScanDigits(s[1..], true)
    else ScanDigits(s, false)
  }

  /** Values up to the closing parenthesis, which is left in place. */
  function ScanRow(s: string): Option<(seq<Value>, string)>
    decreases |s|
  {
    match ScanValue(s)
    case None => None
    case Some((v, rest)) =>
      if rest == "" || |rest| >= |s| then None
      else if rest[0] == ',' then
        (match ScanRow(rest[1..]) case Some((vs, more)) => Some(([v] + vs, more)) case None => None)
      else Some(([v], rest))
  }

  function ScanInsert(s: string): Option<(Insert, string)> {
    if !HasPrefix(s, "INSERT INTO ") then None
    else
      var s1 := s[12..];
      if s1 == "" || s1[0] != '"' then None
      else match ScanQuoted(s1[1..], '"')
        case None => None
        case Some((table, s2)) =>
          if !HasPrefix(s2, " VALUES(") then None
          else match ScanRow(s2[8..])
            case None => None
            case Some((row, s3)) => if HasPrefix(s3, ");\n") then Some((Insert(table, row), s3[3..])) else None
  }

  function ScanAll(s: string): Option<seq<Insert>>
    decreases |s|
  {
    if s == "" then Some([])
    else match ScanInsert(s)
      case None => None
      case Some((n, rest)) =>
        if |rest| >= |s| then None
        else match ScanAll(rest) case Some(ns) => Some([n] + ns) case None => None
  }

  // ---- the round trip --------------------------------------------------------------------------------

  lemma HexSame(d: nat)
    requires d < 16
    ensures HexValue(Hex(d)) == Some(d)
  {
  }

  lemma {:induction false} ScanHexText(b: string, rest: string)
    requires forall k | 0 <= k < |b| :: b[k] as int < 256
    ensures ScanHex(HexText(b) + (QUOTE + rest)) == Some((b, rest))
    decreases |b|
  {
    hide Hex, HexValue;
    if b == "" {
      assert HexText(b) + (QUOTE + rest) == QUOTE + rest;
      assert (QUOTE + rest)[1..] == rest;
    } else {
      var n := b[0] as int;
      var s := HexText(b) + (QUOTE + rest);
      assert s[0] == Hex(n / 16) && s[1] == Hex(n % 16);
      assert s[2..] == HexText(b[1..]) + (QUOTE + rest);
      HexSame(n / 16);
      HexSame(n % 16);
      ScanHexText(b[1..], rest);
      assert [b[0]] + b[1..] == b;
    }
  }

  /** A doubled text reads back exactly when it holds no NUL; otherwise the scan fails. */
  lemma {:induction false} ScanDoubled(t: string, q: char, rest: string)
    requires q != '\0' && (rest == "" || rest[0] != q)
    ensures ScanQuoted(Doubled(t, q) + ([q] + rest), q) == if Lacks(t, '\0') then Some((t, rest)) else None
    decreases |t|
  {
    var s := Doubled(t, q) + ([q] + rest);
    if t == "" {
      assert s == [q] + rest && s[1..] == rest;
    } else {
      ScanDoubled(t[1..], q, rest);
      assert t == [t[0]] + t[1..];
      assert Lacks(t, '\0') <==> t[0] != '\0' && Lacks(t[1..], '\0');
      if t[0] == q {
        assert s[0] == q && s[1] == q && s[2..] == Doubled(t[1..], q) + ([q] + rest);
      } else {
        assert s[0] == t[0] && s[1..] == Doubled(t[1..], q) + ([q] + rest);
      }
    }
  }

  predicate NulFreeValue(v: Value) {
    v.Str? ==> Lacks(v.s, '\0')
  }

  predicate Ends(rest: string) {
    rest != "" && (rest[0] == ',' || rest[0] == ')')
  }

  lemma ScanInteger(i: int, rest: string)
    requires Ends(rest)
    ensures ScanValue((if i < 0 then "-" + Itoa(-i) else Itoa(i)) + rest) == Some((Integer(i), rest))
  {
    hide ScanDigits, Itoa;
    var digits := Itoa(if i < 0 then -i else i);
    assert IsDigit(digits[0]);
    ScanItoa(i, rest);
    if i < 0 {
      assert ("-" + digits) + rest == "-" + (digits + rest);
      assert ("-" + (digits + rest))[1..] == digits + rest;
    }
  }

  lemma ScanItoa(i: int, rest: string)
    requires Ends(rest)
    ensures ScanDigits(Itoa(if i < 0 then -i else i) + rest, i < 0) == Some((Integer(i), rest))
  {
    hide Itoa, DigitsValue;
    var n: nat := if i < 0 then -i else i;
    SpanStops(Itoa(n), rest, NotDigit);
    DigitsValueItoa(n);
  }

  lemma ScanNull(rest: string)
    ensures ScanValue("NULL" + rest) == Some((Null, rest))
  {
    assert ("NULL" + rest)[..4] == "NULL" && ("NULL" + rest)[4..] == rest;
    assert "NULL"[0] == 'N' && |"NULL"| == 4;
  }

  lemma ScanBlob(b: string, rest: string)
    requires forall k | 0 <= k < |b| :: b[k] as int < 256
    ensures ScanValue("X'" + (HexText(b) + (QUOTE + rest))) == Some((Blob(b), rest))
  {
    hide HexText, ScanHex;
    ScanHexText(b, rest);
    var s := "X'" + (HexText(b) + (QUOTE + rest));
    assert s[0] == 'X' && s[1] == '\'' && s[2..] == HexText(b) + (QUOTE + rest);
  }

  lemma ScanStr(t: string, rest: string)
    requires Ends(rest)
    ensures ScanValue(QUOTE + (Doubled(t, '\'') + (QUOTE + rest))) == if Lacks(t, '\0') then Some((Str(t), rest)) else None
  {
    hide Doubled, ScanQuoted;
    ScanDoubled(t, '\'', rest);
    var s := QUOTE + (Doubled(t, '\'') + (QUOTE + rest));
    assert s[0] == '\'' && s[1..] == Doubled(t, '\'') + (['\''] + rest);
  }

  lemma Regroup(a: string, b: string, c: string, d: string)
    ensures (a + (b + c)) + d == a + (b + (c + d))
  {
  }

  lemma ScanSqlVal(v: Value, rest: string)
    requires ValidValue(v) && Ends(rest)
    ensures ScanValue(SqlVal(v) + rest) == if NulFreeValue(v) then Some((v, rest)) else None
    ensures |SqlVal(v)| > 0
  {
    hide ScanValue, Itoa, HexText, Doubled;
    match v
    case Null => ScanNull(rest);
    case Integer(i) => ScanInteger(i, rest);
    case Blob(b) =>
      ScanBlob(b, rest);
      Regroup("X'", HexText(b), QUOTE, rest);
    case Str(t) =>
      ScanStr(t, rest);
      Regroup(QUOTE, Doubled(t, '\''), QUOTE, rest);
  }

  predicate NulFreeRow(row: seq<Value>) {
    forall k | 0 <= k < |row| :: NulFreeValue(row[k])
  }

  /** One step of the row scanner. */
  lemma ScanRowStep(v: Value, more: string, ok: bool)
    requires ValidValue(v) && Ends(more) && |SqlVal(v)| > 0
    requires ScanValue(SqlVal(v) + more) == if ok then Some((v, more)) else None
    ensures ScanRow(SqlVal(v) + more) ==
            if !ok then None
            else if more[0] == ',' then
              (match ScanRow(more[1..]) case Some((vs, rest)) => Some(([v] + vs, rest)) case None => None)
            else Some(([v], more))
  {
    hide SqlVal, ScanValue, ValidValue;
  }

  lemma {:induction false} ScanRowText(row: seq<Value>, rest: string)
    requires row != [] && (forall k | 0 <= k < |row| :: ValidValue(row[k])) && rest != "" && rest[0] == ')'
    ensures ScanRow(RowText(row, rest)) == if NulFreeRow(row) then Some((row, rest)) else None
    decreases |row|
  {
    hide SqlVal, ScanValue, NulFreeValue;
    var more := if |row| == 1 then rest else COMMA + RowText(row[1..], rest);
    assert |row| > 1 ==> more[0] == COMMA[0];
    assert RowText(row, rest) == SqlVal(row[0]) + more;
    ScanSqlVal(row[0], more);
    assert row == [row[0]] + row[1..];
    NulFreeCons(row);
    if |row| > 1 {
      ScanRowText(row[1..], rest);
      assert more[1..] == RowText(row[1..], rest);
      ScanRowStep(row[0], more, NulFreeValue(row[0]));
    } else {
      ScanRowStep(row[0], more, NulFreeValue(row[0]));
      assert row == [row[0]] && NulFreeRow(row[1..]);
    }
  }

  lemma NulFreeCons(row: seq<Value>)
    requires row != []
    ensures NulFreeRow(row) <==> NulFreeValue(row[0]) && NulFreeRow(row[1..])
  {
    hide NulFreeValue;
    assert row == [row[0]] + row[1..];
  }

  predicate NulFree(n: Insert) {
    Lacks(n.table, '\0') && NulFreeRow(n.row)
  }

  lemma ScanInsertText(n: Insert, rest: string)
    requires ValidInsert(n)
    ensures ScanInsert(INSERT_INTO + (QuoteIdent(n.table) + (VALUES + RowText(n.row, CLOSING + rest)))) ==
            if NulFree(n) then Some((n, rest)) else None
  {
    hide RowText, ScanRow, ScanQuoted, Doubled, NulFreeRow;
    assert CLOSING[0] == ')' && VALUES[0] == ' ';
    ScanRowText(n.row, CLOSING + rest);
    var s2 := VALUES + RowText(n.row, CLOSING + rest);
    ScanDoubled(n.table, '"', s2);
    var s1 := QuoteIdent(n.table) + s2;
    assert s1 == ['"'] + (Doubled(n.table, '"') + (['"'] + s2));
    assert s1[1..] == Doubled(n.table, '"') + (['"'] + s2);
    PrefixDropped(INSERT_INTO, s1);
    PrefixDropped(VALUES, RowText(n.row, CLOSING + rest));
    PrefixDropped(CLOSING, rest);
  }

  lemma PrefixDropped(p: string, rest: string)
    ensures HasPrefix(p + rest, p) && (p + rest)[|p|..] == rest
  {
  }

  lemma {:induction false} DumpReadsBack(ns: seq<Insert>)
    requires forall k | 0 <= k < |ns| :: ValidInsert(ns[k])
    ensures ScanAll(DumpText(ns)) == Some(ns) <==> forall k | 0 <= k < |ns| :: NulFree(ns[k])
    ensures ScanAll(DumpText(ns)).None? || ScanAll(DumpText(ns)) == Some(ns)
    decreases |ns|
  {
    hide RowText, ScanInsert, NulFree, QuoteIdent;
    if ns != [] {
      DumpReadsBack(ns[1..]);
      ScanInsertText(ns[0], DumpText(ns[1..]));
      DumpShrinks(ns);
      assert ns == [ns[0]] + ns[1..];
      assert (forall k | 0 <= k < |ns| :: NulFree(ns[k])) ==> forall k | 0 <= k < |ns[1..]| :: NulFree(ns[1..][k]);
      if NulFree(ns[0]) && forall k | 0 <= k < |ns[1..]| :: NulFree(ns[1..][k]) {
        forall k | 0 <= k < |ns| ensures NulFree(ns[k]) {
          assert k > 0 ==> ns[k] == ns[1..][k - 1];
        }
      }
    }
  }

  lemma DumpShrinks(ns: seq<Insert>)
    requires ns != [] && forall k | 0 <= k < |ns| :: ValidInsert(ns[k])
    ensures |DumpText(ns[1..])| < |DumpText(ns)|
  {
    hide SqlVal;
    RowTextJoin(ns[0].row, CLOSING + DumpText(ns[1..]));
    assert |INSERT_INTO| == 12;
  }

  /** Whatever quotes, commas, parentheses and newlines the values hold, a table's dumped rows read back as they were
      exactly when the name and the texts hold no NUL; a dump never reads back as other rows. */
  lemma TableReadsBack(table: string, rows: seq<seq<Value>>)
    requires forall k | 0 <= k < |rows| :: ValidInsert(Insert(table, rows[k]))
    ensures var ns := Inserts(table, rows);
            && (ScanAll(DumpText(ns)) == Some(ns) <==> forall k | 0 <= k < |rows| :: NulFree(Insert(table, rows[k])))
            && (ScanAll(DumpText(ns)).None? || ScanAll(DumpText(ns)) == Some(ns))
  {
    hide ScanAll, DumpText, NulFree;
    var ns := Inserts(table, rows);
    DumpReadsBack(ns);
    assert (forall k | 0 <= k < |rows| :: NulFree(Insert(table, rows[k]))) <==> forall k | 0 <= k < |ns| :: NulFree(ns[k]) by {
      assert forall k | 0 <= k < |rows| :: ns[k] == Insert(table, rows[k]);
    }
  }
}
