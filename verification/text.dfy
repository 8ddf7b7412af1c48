/** Splitting text, as `strings.Split` and the byte scans of the repository do it. */
module Text {
  import opened GoLib

  // ---- lines ------------------------------------------------------------------------

  const NEWLINE: string := "\n"

  /** Every line followed by a newline. */
  function Unlines(lines: seq<string>): string {
    if lines == [] then "" else lines[0] + NEWLINE + Unlines(lines[1..])
  }

  predicate IsNewline(c: char) { c == '\n' }

  predicate IsQuote(c: char) { c == '"' }

  predicate NotDigit(c: char) { !IsDigit(c) }

  /** The `\s` of Go's regular expressions. */
  predicate RegexpSpace(c: char) {
    c == ' ' || c == '\t' || c == '\n' || c == '\r' || c == '\U{0C}'
  }

  predicate Free(s: string, stop: char -> bool) {
    forall i | 0 <= i < |s| :: !stop(s[i])
  }

  /** The length of the longest prefix on which `stop` fails. */
  function Span(s: string, stop: char -> bool): (n: nat)
    ensures n <= |s| && Free(s[..n], stop) && (n < |s| ==> stop(s[n]))
  {
    if s == "" || stop(s[0]) then 0 else 1 + Span(s[1..], stop)
  }

  lemma {:induction false} SpanStops(a: string, b: string, stop: char -> bool)
    requires Free(a, stop) && b != "" && stop(b[0])
    ensures Span(a + b, stop) == |a| && (a + b)[..|a|] == a && (a + b)[|a|..] == b
  {
    if a == "" {
      assert a + b == b;
    } else {
      assert (a + b)[1..] == a[1..] + b;
      SpanStops(a[1..], b, stop);
    }
  }

  /** `strings.Split(s, "\n")`. */
  function SplitLines(s: string): (ls: seq<string>)
    ensures ls != []
    decreases |s|
  {
    var i := Span(s, IsNewline);
    if i == |s| then [s] else [s[..i]] + SplitLines(s[i + 1..])
  }

  lemma SplitFirst(line: string, rest: string)
    requires Lacks(line, '\n')
    ensures SplitLines(line + NEWLINE + rest) == [line] + SplitLines(rest)
  {
    assert line + NEWLINE + rest == line + (NEWLINE + rest);
    SpanStops(line, NEWLINE + rest, IsNewline);
    assert (line + NEWLINE + rest)[|line| + 1..] == rest;
  }

  lemma {:induction false} SplitUnlines(lines: seq<string>)
    requires forall i | 0 <= i < |lines| :: Lacks(lines[i], '\n')
    ensures SplitLines(Unlines(lines)) == lines + [""]
  {
    if lines != [] {
      SplitUnlines(lines[1..]);
      SplitFirst(lines[0], Unlines(lines[1..]));
    }
  }

  lemma {:induction false} UnlinesAppend(a: seq<string>, b: seq<string>)
    ensures Unlines(a + b) == Unlines(a) + Unlines(b)
  {
    if a == [] {
      assert a + b == b;
    } else {
      assert (a + b)[1..] == a[1..] + b;
      UnlinesAppend(a[1..], b);
    }
  }
}
