/** The log line splitter (internal/agent/docker/client.go: lineWriter). */
module LineWriter {
  import opened GoLib
  import opened Text

  const LIMIT: nat := 65536

  /** The bytes held back and the lines emitted so far. */
  datatype Splitter = Splitter(buf: string, emitted: seq<string>)

  const IDLE := Splitter("", [])

  /** `Write`. */
  function Written(w: Splitter, p: string): Splitter
    decreases |p|
  {
    var i := Span(p, IsNewline);
    if i == |p| then
      (if |w.buf + p| > LIMIT then Splitter("", w.emitted + [w.buf + p]) else Splitter(w.buf + p, w.emitted))
    else Written(Splitter("", w.emitted + [w.buf + p[..i]]), p[i + 1..])
  }

  /** `Flush`. */
  function Flushed(w: Splitter): Splitter {
    if |w.buf| > 0 then Splitter("", w.emitted + [w.buf]) else w
  }

  method IndexByte(b: string, c: char) returns (i: int)
    ensures -1 <= i < |b|
    ensures i >= 0 ==> b[i] == c && Lacks(b[..i], c)
    ensures i < 0 ==> Lacks(b, c)
  {
    for k := 0 to |b|
      invariant Lacks(b[..k], c)
    {
      if b[k] == c {
        return k;
      }
    }
    return -1;
  }

  class Writer {
    var buf: string
    var emitted: seq<string>    // the calls of the emit callback, oldest first

    constructor ()
      ensures Now() == IDLE
    {
      buf, emitted := "", [];
    }

    function Now(): Splitter
      reads this
    {
      Splitter(buf, emitted)
    }

    /** Returns the length of what follows the last newline, as the re-sliced parameter makes it. */
    method Write(data: string) returns (n: nat)
      modifies this
      ensures Now() == Written(old(Now()), data)
      ensures n <= |data| && Lacks(data[|data| - n..], '\n') && (n < |data| ==> data[|data| - n - 1] == '\n')
    {
      hide Written;
      var p := data;
      while true
        invariant |p| <= |data| && p == data[|data| - |p|..]
        invariant |p| < |data| ==> data[|data| - |p| - 1] == '\n'
        invariant Written(Now(), p) == Written(old(Now()), data)
        decreases |p|
      {
        var i := IndexByte(p, '\n');
        if i < 0 {
          WrittenOpen(Now(), p);
          buf := buf + p;
          if |buf| > LIMIT {
            emitted := emitted + [buf];
            buf := "";
          }
          return |p|;
        }
        CutAt(p, i);
        WrittenLine(Now(), p[..i], p[i + 1..]);
        buf := buf + p[..i];
        emitted := emitted + [buf];
        buf := "";
        SuffixOf(data, p, i + 1);
        p := p[i + 1..];
      }
    }

    method Flush()
      modifies this
      ensures Now() == Flushed(old(Now()))
    {
      if |buf| > 0 {
        emitted := emitted + [buf];
        buf := "";
      }
    }
  }

  lemma SuffixOf(data: string, p: string, i: nat)
    requires |p| <= |data| && p == data[|data| - |p|..] && 0 < i <= |p|
    ensures p[i..] == data[|data| - |p[i..]|..] && data[|data| - |p[i..]| - 1] == p[i - 1]
  {
  }

  lemma CutAt(p: string, i: nat)
    requires i < |p| && p[i] == '\n'
    ensures p == p[..i] + NEWLINE + p[i + 1..]
  {
  }

  lemma WrittenOpen(w: Splitter, p: string)
    requires Lacks(p, '\n')
    ensures Written(w, p) == if |w.buf + p| > LIMIT then Splitter("", w.emitted + [w.buf + p]) else Splitter(w.buf + p, w.emitted)
  {
    assert Span(p, IsNewline) == |p|;
  }

  lemma WrittenLine(w: Splitter, line: string, rest: string)
    requires Lacks(line, '\n')
    ensures Written(w, line + NEWLINE + rest) == Written(Splitter("", w.emitted + [w.buf + line]), rest)
  {
    var p := line + NEWLINE + rest;
    assert p == line + (NEWLINE + rest);
    SpanStops(line, NEWLINE + rest, IsNewline);
    assert p[|line| + 1..] == rest;
  }

  // ---- any division into writes ------------------------------------------------------------------

  function Flatten(chunks: seq<string>): string {
    if chunks == [] then "" else Flatten(chunks[..|chunks| - 1]) + chunks[|chunks| - 1]
  }

  /** The splitter after a sequence of writes. */
  function Fed(chunks: seq<string>): Splitter {
    if chunks == [] then IDLE else Written(Fed(chunks[..|chunks| - 1]), chunks[|chunks| - 1])
  }

  function Last<T>(s: seq<T>): T
    requires s != []
  {
    s[|s| - 1]
  }

  function Init<T>(s: seq<T>): seq<T>
    requires s != []
  {
    s[..|s| - 1]
  }

  /** Splitting a stream that grows by `p`: the open line joins the first piece of `p`. */
  lemma {:induction false} SplitGrows(t: string, p: string)
    ensures SplitLines(t + p) == Init(SplitLines(t)) + ([Last(SplitLines(t)) + SplitLines(p)[0]] + SplitLines(p)[1..])
    decreases |t|
  {
    hide SplitLines;
    if Lacks(t, '\n') {
      WholeLine(t);
      SplitGrowsOpen(t, p);
    } else {
      var i := Span(t, IsNewline);
      CutAt(t, i);
      var line, rest := t[..i], t[i + 1..];
      SplitFirst(line, rest);
      assert t + p == line + NEWLINE + (rest + p);
      SplitFirst(line, rest + p);
      SplitGrows(rest, p);
      ConsInit(line, SplitLines(rest));
    }
  }

  lemma ConsInit(line: string, ls: seq<string>)
    requires ls != []
    ensures Init([line] + ls) == [line] + Init(ls) && Last([line] + ls) == Last(ls)
  {
  }

  lemma SplitGrowsOpen(t: string, p: string)
    requires Lacks(t, '\n')
    ensures SplitLines(t + p) == [t + SplitLines(p)[0]] + SplitLines(p)[1..]
  {
    hide SplitLines;
    if Lacks(p, '\n') {
      WholeLine(p);
      WholeLine(t + p);
    } else {
      var i := Span(p, IsNewline);
      CutAt(p, i);
      var line, rest := p[..i], p[i + 1..];
      SplitFirst(line, rest);
      assert t + p == (t + line) + NEWLINE + rest;
      SplitFirst(t + line, rest);
    }
  }

  lemma WholeLine(s: string)
    requires Lacks(s, '\n')
    ensures SplitLines(s) == [s]
  {
  }

  /** The pieces of `p`, the first one continuing the buffer. */
  function Continued(w: Splitter, p: string): (ps: seq<string>)
    ensures ps != []
  {
    [w.buf + SplitLines(p)[0]] + SplitLines(p)[1..]
  }

  /** One write, whatever its length: closed pieces are emitted, the open one is held unless it is too long. */
  lemma {:induction false} WriteShape(w: Splitter, p: string)
    ensures var ps := Continued(w, p);
            Written(w, p) == if |Last(ps)| > LIMIT then Splitter("", w.emitted + ps) else Splitter(Last(ps), w.emitted + Init(ps))
    decreases |p|
  {
    hide SplitLines, Written;
    if Lacks(p, '\n') {
      WholeLine(p);
      WrittenOpen(w, p);
      assert Continued(w, p) == [w.buf + p];
    } else {
      var i := Span(p, IsNewline);
      CutAt(p, i);
      var line, rest := p[..i], p[i + 1..];
      SplitFirst(line, rest);
      WrittenLine(w, line, rest);
      var w1 := Splitter("", w.emitted + [w.buf + line]);
      WriteShape(w1, rest);
      assert "" + SplitLines(rest)[0] == SplitLines(rest)[0];
      assert Continued(w, p) == [w.buf + line] + Continued(w1, rest);
      ConsInit(w.buf + line, Continued(w1, rest));
    }
  }

  /** The splitter holds the open line of the stream and has emitted the lines before it. */
  predicate Follows(w: Splitter, t: string) {
    w.buf == Last(SplitLines(t)) && w.emitted == Init(SplitLines(t))
  }

  /** The open line has just been emitted because it grew past the limit. */
  predicate Overflowed(w: Splitter, t: string) {
    w == Splitter("", SplitLines(t)) && |Last(SplitLines(t))| > LIMIT
  }

  lemma WriteFollows(w: Splitter, t: string, p: string)
    requires Follows(w, t)
    ensures if |Last(SplitLines(t + p))| > LIMIT then Overflowed(Written(w, p), t + p) else Follows(Written(w, p), t + p)
  {
    hide SplitLines, Written;
    SplitGrows(t, p);
    WriteShape(w, p);
    var head, ps := Init(SplitLines(t)), Continued(w, p);
    assert SplitLines(t + p) == head + ps;
    assert Last(head + ps) == Last(ps) && Init(head + ps) == head + Init(ps);
  }

  /** The lines of a stream: its newline-separated pieces, without an empty last one. */
  function Lines(s: string): seq<string> {
    if Last(SplitLines(s)) == "" then Init(SplitLines(s)) else SplitLines(s)
  }

  /** No run that a newline ends is longer than the limit, and the last run is longer by one byte at most. */
  predicate ShortRuns(s: string) {
    && (forall i | 0 <= i < |SplitLines(s)| - 1 :: |SplitLines(s)[i]| <= 65536)
    && |Last(SplitLines(s))| <= 65537
  }

  lemma ShortPrefix(t: string, p: string)
    requires ShortRuns(t + p)
    ensures ShortRuns(t) && (p != "" ==> |Last(SplitLines(t))| <= LIMIT)
  {
    hide SplitLines;
    SplitGrows(t, p);
    var a, b, c := SplitLines(t), SplitLines(t + p), SplitLines(p);
    forall i | 0 <= i < |a| - 1 ensures |a[i]| <= LIMIT {
      assert b[i] == a[i];
    }
    assert b[|a| - 1] == Last(a) + c[0];
    if |c| == 1 {
      OnePiece(p);
    }
  }

  lemma OnePiece(p: string)
    requires |SplitLines(p)| == 1
    ensures SplitLines(p) == [p]
  {
    var i := Span(p, IsNewline);
    assert i < |p| ==> |SplitLines(p[i + 1..])| >= 1;
  }

  lemma {:induction false} FedFollows(chunks: seq<string>)
    requires ShortRuns(Flatten(chunks))
    ensures Follows(Fed(chunks), Flatten(chunks)) || Overflowed(Fed(chunks), Flatten(chunks))
  {
    if chunks == [] {
      WholeLine("");
    } else {
      hide SplitLines, Written;
      var before, p := chunks[..|chunks| - 1], chunks[|chunks| - 1];
      var t := Flatten(before);
      ShortPrefix(t, p);
      FedFollows(before);
      if Follows(Fed(before), t) {
        WriteFollows(Fed(before), t, p);
      } else {
        assert p == "" && t + p == t;
        WrittenOpen(Fed(before), p);
      }
    }
  }

  lemma FlushedLines(w: Splitter, t: string)
    requires Follows(w, t) || Overflowed(w, t)
    ensures Flushed(w) == Splitter("", Lines(t))
  {
    hide SplitLines;
    var pieces := SplitLines(t);
    assert pieces == Init(pieces) + [Last(pieces)];
  }

  lemma ChunkingIrrelevant(chunks: seq<string>)
    requires ShortRuns(Flatten(chunks))
    ensures Flushed(Fed(chunks)) == Splitter("", Lines(Flatten(chunks)))
  {
    FedFollows(chunks);
    FlushedLines(Fed(chunks), Flatten(chunks));
  }

  lemma FedTwo(a: string, b: string)
    ensures Flatten([a, b]) == a + b && Fed([a, b]) == Written(Written(IDLE, a), b)
  {
    hide Written;
    assert [a, b][..1] == [a] && [a][..0] == [];
    assert Flatten([]) == "" && Fed([]) == IDLE;
    assert Flatten([a]) == "" + a && Fed([a]) == Written(IDLE, a);
  }

  lemma FirstWrite(t: string)
    ensures if |Last(SplitLines(t))| > LIMIT then Overflowed(Written(IDLE, t), t) else Follows(Written(IDLE, t), t)
  {
    WholeLine("");
    assert "" + t == t;
    WriteFollows(IDLE, "", t);
  }

  /** A stream whose run is too long, cut where the run has overflowed and something else follows, gains a line. */
  lemma CutGainsLine(t: string, p: string)
    requires p != "" && |Last(SplitLines(t))| > LIMIT
    ensures |Flushed(Fed([t, p])).emitted| == |SplitLines(t)| + |Lines(p)|
    ensures |Lines(t + p)| < |SplitLines(t)| + |Lines(p)|
  {
    hide SplitLines, Written;
    FedTwo(t, p);
    FirstWrite(t);
    var w := Splitter("", SplitLines(t));
    WriteShape(w, p);
    assert "" + SplitLines(p)[0] == SplitLines(p)[0];
    assert Continued(w, p) == SplitLines(p);
    SplitGrows(t, p);
    if |SplitLines(p)| == 1 {
      OnePiece(p);
    }
    var a, b, c := SplitLines(t), SplitLines(t + p), SplitLines(p);
    assert |c| > 1 ==> Last(b) == Last(c);
  }

  predicate ChunkingHarmless(chunks: seq<string>) {
    Flushed(Fed(chunks)) == Splitter("", Lines(Flatten(chunks)))
  }

  /** Independence of chunking, exactly: every division of a stream into writes, then a flush, emits the stream's lines
      if and only if no run that a newline ends exceeds the limit and the last one does by one byte at most. */
  lemma ChunkingIrrelevantExactly(s: string)
    ensures (forall chunks | Flatten(chunks) == s :: ChunkingHarmless(chunks)) <==> ShortRuns(s)
  {
    hide SplitLines, Fed, Flushed;
    if ShortRuns(s) {
      forall chunks | Flatten(chunks) == s ensures ChunkingHarmless(chunks) {
        ChunkingIrrelevant(chunks);
      }
    } else {
      var t, p := LongCut(s);
      CutGainsLine(t, p);
      FedTwo(t, p);
      assert !ChunkingHarmless([t, p]);
    }
  }

  /** Where to cut a stream with a run that is too long. */
  lemma LongCut(s: string) returns (t: string, p: string)
    requires !ShortRuns(s)
    ensures s == t + p && p != "" && |Last(SplitLines(t))| > LIMIT
  {
    hide SplitLines;
    WholeLine("");
    if |Last(SplitLines(s))| > LIMIT + 1 {
      assert s != "";
      t, p := s[..|s| - 1], s[|s| - 1..];
      LastPieceShorter(s);
    } else {
      var i :| 0 <= i < |SplitLines(s)| - 1 && |SplitLines(s)[i]| > LIMIT;
      t, p := CutAfterPiece(s, i);
    }
  }

  /** One byte lengthens the last piece by one at most. */
  lemma LastPieceShorter(s: string)
    requires s != ""
    ensures |Last(SplitLines(s))| <= |Last(SplitLines(s[..|s| - 1]))| + 1
  {
    hide SplitLines;
    var t, c := s[..|s| - 1], s[|s| - 1];
    assert s == t + [c];
    SplitGrows(t, [c]);
    if c == '\n' {
      assert [c] == "" + NEWLINE + "";
      SplitFirst("", "");
      WholeLine("");
    } else {
      WholeLine([c]);
    }
  }

  lemma {:induction false} CutAfterPiece(s: string, i: nat) returns (t: string, p: string)
    requires i < |SplitLines(s)| - 1
    ensures s == t + p && p != "" && Last(SplitLines(t)) == SplitLines(s)[i]
    decreases i
  {
    hide SplitLines;
    if Lacks(s, '\n') {
      WholeLine(s);
      assert false;
    }
    var k := Span(s, IsNewline);
    CutAt(s, k);
    var line, rest := s[..k], s[k + 1..];
    SplitFirst(line, rest);
    if i == 0 {
      t, p := line, NEWLINE + rest;
      WholeLine(line);
    } else {
      var t1, p1 := CutAfterPiece(rest, i - 1);
      t, p := line + NEWLINE + t1, p1;
      SplitFirst(line, t1);
      ConsInit(line, SplitLines(t1));
    }
  }

  // ---- with no bound on runs ------------------------------------------------------------------------

  function Unbroken(s: string): string {
    if s == "" then "" else (if s[0] == '\n' then "" else [s[0]]) + Unbroken(s[1..])
  }

  function Joined(lines: seq<string>): string {
    if lines == [] then "" else Joined(lines[..|lines| - 1]) + lines[|lines| - 1]
  }

  lemma {:induction false} UnbrokenAppend(a: string, b: string)
    ensures Unbroken(a + b) == Unbroken(a) + Unbroken(b)
  {
    if a == "" {
      assert a + b == b;
    } else {
      assert (a + b)[1..] == a[1..] + b;
      UnbrokenAppend(a[1..], b);
    }
  }

  lemma {:induction false} UnbrokenLine(s: string)
    requires Lacks(s, '\n')
    ensures Unbroken(s) == s
  {
    if s != "" {
      UnbrokenLine(s[1..]);
    }
  }

  function Content(w: Splitter): string {
    Joined(w.emitted) + w.buf
  }

  lemma JoinedSnoc(lines: seq<string>, l: string)
    ensures Joined(lines + [l]) == Joined(lines) + l
  {
    assert (lines + [l])[..|lines|] == lines;
  }

  lemma {:induction false} WriteContent(w: Splitter, p: string)
    ensures Content(Written(w, p)) == Content(w) + Unbroken(p)
    ensures |Written(w, p).buf| <= LIMIT
    decreases |p|
  {
    hide Written, Joined, Unbroken;
    if Lacks(p, '\n') {
      WrittenOpen(w, p);
      UnbrokenLine(p);
      JoinedSnoc(w.emitted, w.buf + p);
    } else {
      var i := Span(p, IsNewline);
      CutAt(p, i);
      var line, rest := p[..i], p[i + 1..];
      UnbrokenBreak(line, rest);
      WrittenLine(w, line, rest);
      JoinedSnoc(w.emitted, w.buf + line);
      WriteContent(Splitter("", w.emitted + [w.buf + line]), rest);
    }
  }

  lemma UnbrokenBreak(line: string, rest: string)
    requires Lacks(line, '\n')
    ensures Unbroken(line + NEWLINE + rest) == line + Unbroken(rest)
  {
    hide Unbroken;
    UnbrokenLine(line);
    UnbrokenNewline();
    UnbrokenAppend(line, NEWLINE);
    UnbrokenAppend(line + NEWLINE, rest);
  }

  lemma UnbrokenNewline()
    ensures Unbroken(NEWLINE) == ""
  {
    assert NEWLINE[1..] == "";
  }

  /** Whatever the runs and the chunks, no byte but newlines is lost or reordered, and the buffer is bounded. */
  lemma {:induction false} NothingLost(chunks: seq<string>)
    ensures Content(Fed(chunks)) == Unbroken(Flatten(chunks))
    ensures |Fed(chunks).buf| <= 65536
  {
    if chunks != [] {
      var before, p := chunks[..|chunks| - 1], chunks[|chunks| - 1];
      NothingLost(before);
      WriteContent(Fed(before), p);
      UnbrokenAppend(Flatten(before), p);
    }
  }
}
