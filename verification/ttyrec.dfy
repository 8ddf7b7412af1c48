/** The session recorder's ttyrec framing (internal/agent/terminal/pty.go: Recorder). */
module TtyRec {
  import opened GoLib

  const WORD: nat := 0x1_0000_0000

  function ByteChar(n: nat): (c: char)
    ensures c as int == n % 256
  {
    (n % 256) as char
  }

  /** `binary.LittleEndian.PutUint32` of a value cut to 32 bits. */
  function Le32(n: nat): (b: string)
    ensures |b| == 4
  {
    [ByteChar(n), ByteChar(n / 256), ByteChar(n / 0x1_0000), ByteChar(n / 0x100_0000)]
  }

  function ReadLe32(b: string): nat
    requires |b| >= 4
  {
    b[0] as int % 256 + 256 * (b[1] as int % 256) + 0x1_0000 * (b[2] as int % 256) + 0x100_0000 * (b[3] as int % 256)
  }

  lemma Le32Value(n: nat)
    ensures ReadLe32(Le32(n)) == n % WORD
  {
    Le32Read(n);
    hide Le32, ReadLe32;
    Digits256(n);
    Bounded(n % 256, (n / 256) % 256, (n / 0x1_0000) % 256, (n / 0x100_0000) % 256);
    LowPart(n, ReadLe32(Le32(n)), n / WORD);
  }

  lemma Le32Read(n: nat)
    ensures ReadLe32(Le32(n)) == n % 256 + 256 * ((n / 256) % 256) + 0x1_0000 * ((n / 0x1_0000) % 256) + 0x100_0000 * ((n / 0x100_0000) % 256)
  {
    var b, n1, n2, n3 := Le32(n), n / 256, n / 0x1_0000, n / 0x100_0000;
    assert b == [ByteChar(n), ByteChar(n1), ByteChar(n2), ByteChar(n3)];
    hide Le32, ByteChar;
    ReadBytes(b, n, n1, n2, n3);
  }

  lemma ReadBytes(b: string, n: nat, n1: nat, n2: nat, n3: nat)
    requires b == [ByteChar(n), ByteChar(n1), ByteChar(n2), ByteChar(n3)]
    ensures ReadLe32(b) == n % 256 + 256 * (n1 % 256) + 0x1_0000 * (n2 % 256) + 0x100_0000 * (n3 % 256)
  {
    hide ByteChar;
  }

  lemma Bounded(a: nat, b: nat, c: nat, d: nat)
    requires a < 256 && b < 256 && c < 256 && d < 256
    ensures a + 256 * b + 0x1_0000 * c + 0x100_0000 * d < WORD
  {
  }

  lemma LowPart(n: nat, low: nat, high: nat)
    requires n == low + WORD * high && low < WORD
    ensures n % WORD == low
  {
  }

  lemma Digits256(n: nat)
    ensures n == n % 256 + 256 * ((n / 256) % 256) + 0x1_0000 * ((n / 0x1_0000) % 256) + 0x100_0000 * ((n / 0x100_0000) % 256)
                 + WORD * (n / WORD)
  {
    var a := n / 256;
    var b := n / 0x1_0000;
    var c := n / 0x100_0000;
    assert n == 256 * a + n % 256;
    assert a == 256 * b + a % 256;
    assert b == 256 * c + b % 256;
    assert c == 256 * (n / WORD) + c % 256;
  }

  /** One write: the clock in seconds and microseconds, and the bytes. */
  datatype Record = Record(seconds: nat, micros: nat, data: string)

  function Frame(r: Record): string {
    Le32(r.seconds) + (Le32(r.micros) + (Le32(|r.data|) + r.data))
  }

  function Frames(rs: seq<Record>): string {
    if rs == [] then "" else Frame(rs[0]) + Frames(rs[1..])
  }

  class Recorder {
    var file: string

    constructor ()
      ensures file == ""
    {
      file := "";
    }

    /** `Write`: header, then data. The file takes the first `h` bytes of the header and the first `d` of the data;
        taking fewer than offered is an error (`io.Writer`'s contract), and a short header stops the write. */
    method Write(r: Record, h: nat, d: nat) returns (ok: bool)
      requires h <= 12 && d <= |r.data|
      modifies this
      ensures ok <==> h == 12 && d == |r.data|
      ensures file == old(file) + Frame(r)[..if h < 12 then h else 12 + d]
    {
      var hdr := Le32(r.seconds) + (Le32(r.micros) + Le32(|r.data|));
      assert Frame(r) == hdr + r.data;
      file := file + hdr[..h];
      if h < 12 {
        return false;
      }
      file := file + r.data[..d];
      return d == |r.data|;
    }
  }

  /** Reading frames as ttyplay does; what is left when no whole frame follows comes second. */
  function Read(s: string): (seq<Record>, string)
    decreases |s|
  {
    if |s| < 12 then ([], s)
    else
      var n := ReadLe32(s[8..]);
      if |s| < 12 + n then ([], s)
      else
        var (rs, rest) := Read(s[12 + n..]);
        ([Record(ReadLe32(s), ReadLe32(s[4..]), s[12..12 + n])] + rs, rest)
  }

  /** A record as its header can carry it. */
  function Carried(r: Record): Record {
    r.(seconds := r.seconds % WORD, micros := r.micros % WORD)
  }

  function CarriedAll(rs: seq<Record>): (cs: seq<Record>)
    ensures |cs| == |rs| && forall i | 0 <= i < |rs| :: cs[i] == Carried(rs[i])
  {
    seq(|rs|, i requires 0 <= i < |rs| => Carried(rs[i]))
  }

  lemma HeaderAt(a: string, b: string, c: string, rest: string)
    requires |a| == 4 && |b| == 4 && |c| == 4
    ensures var s := a + (b + (c + rest));
            |s| >= 12 && ReadLe32(s) == ReadLe32(a) && ReadLe32(s[4..]) == ReadLe32(b) && ReadLe32(s[8..]) == ReadLe32(c) && s[12..] == rest
  {
    var s := a + (b + (c + rest));
    assert s[4..] == b + (c + rest) && s[8..] == c + rest;
  }

  /** A frame's header, whatever of the frame's data and of other bytes follows it. */
  lemma FrameHeader(r: Record, rest: string)
    requires |r.data| < WORD
    ensures var s := Le32(r.seconds) + (Le32(r.micros) + (Le32(|r.data|) + rest));
            && |s| >= 12 && s[12..] == rest
            && ReadLe32(s) == Carried(r).seconds && ReadLe32(s[4..]) == Carried(r).micros && ReadLe32(s[8..]) == |r.data|
  {
    hide Le32, ReadLe32;
    Le32Value(r.seconds);
    Le32Value(r.micros);
    Le32Value(|r.data|);
    HeaderAt(Le32(r.seconds), Le32(r.micros), Le32(|r.data|), rest);
  }

  lemma ReadFrame(r: Record, tail: string)
    requires |r.data| < WORD
    ensures Read(Frame(r) + tail) == ([Carried(r)] + Read(tail).0, Read(tail).1)
  {
    hide Le32, ReadLe32;
    var s := Frame(r) + tail;
    var a, b, c := Le32(r.seconds), Le32(r.micros), Le32(|r.data|);
    assert s == a + (b + (c + (r.data + tail)));
    FrameHeader(r, r.data + tail);
    assert s[12..][..|r.data|] == r.data && s[12..][|r.data|..] == tail;
    assert s[12..12 + |r.data|] == s[12..][..|r.data|] && s[12 + |r.data|..] == s[12..][|r.data|..];
  }

  /** The layout: three little-endian words, the seconds, the microseconds and the length, byte by byte, and the bytes. */
  lemma FrameLayout(r: Record)
    ensures var f := Frame(r);
            && |f| == 12 + |r.data| && f[12..] == r.data
            && f[0] as int == r.seconds % 256 && f[1] as int == r.seconds / 256 % 256
            && f[2] as int == r.seconds / 65536 % 256 && f[3] as int == r.seconds / 16777216 % 256
            && f[4] as int == r.micros % 256 && f[5] as int == r.micros / 256 % 256
            && f[6] as int == r.micros / 65536 % 256 && f[7] as int == r.micros / 16777216 % 256
            && f[8] as int == |r.data| % 256 && f[9] as int == |r.data| / 256 % 256
            && f[10] as int == |r.data| / 65536 % 256 && f[11] as int == |r.data| / 16777216 % 256
  {
    var a, b, c := Le32(r.seconds), Le32(r.micros), Le32(|r.data|);
    var f := Frame(r);
    assert f[..4] == a && f[4..8] == b && f[8..12] == c && f[12..] == r.data;
    assert f[1] == a[1] && f[5] == b[1] && f[9] == c[1];
  }

  /** What a short write leaves is no frame. */
  lemma ReadTorn(r: Record, k: nat)
    requires |r.data| < WORD && k < |Frame(r)|
    ensures Read(Frame(r)[..k]) == ([], Frame(r)[..k])
  {
    hide Le32, ReadLe32;
    if k >= 12 {
      FrameHeader(r, r.data[..k - 12]);
      assert Frame(r)[..k] == Le32(r.seconds) + (Le32(r.micros) + (Le32(|r.data|) + r.data[..k - 12]));
    }
  }

  /** Recordings read back: the same headers, cut to 32 bits, and the same bytes, also before a torn last write. */
  lemma {:induction false} FramesReadBack(rs: seq<Record>, torn: string)
    requires forall i | 0 <= i < |rs| :: |rs[i].data| < WORD
    requires Read(torn) == ([], torn)
    ensures Read(Frames(rs) + torn) == (CarriedAll(rs), torn)
  {
    hide Read, Frame, Carried;
    if rs == [] {
      assert Frames(rs) + torn == torn && CarriedAll(rs) == [];
    } else {
      FramesReadBack(rs[1..], torn);
      assert Frames(rs) + torn == Frame(rs[0]) + (Frames(rs[1..]) + torn);
      ReadFrame(rs[0], Frames(rs[1..]) + torn);
      assert CarriedAll(rs) == [Carried(rs[0])] + CarriedAll(rs[1..]);
    }
  }

  /** Records in a recording cut off after `n` bytes. */
  function Fitting(rs: seq<Record>, n: nat): (k: nat)
    ensures k <= |rs|
  {
    if rs == [] || n < |Frame(rs[0])| then 0 else 1 + Fitting(rs[1..], n - |Frame(rs[0])|)
  }

  /** A recording cut off anywhere reads back as its first records, all those that fit. */
  lemma {:induction false} CutRecordingReadsBack(rs: seq<Record>, n: nat)
    requires n <= |Frames(rs)| && forall i | 0 <= i < |rs| :: |rs[i].data| < WORD
    ensures var k := Fitting(rs, n);
            && |Frames(rs[..k])| <= n && (k < |rs| ==> n < |Frames(rs[..k + 1])|)
            && Read(Frames(rs)[..n]) == (CarriedAll(rs[..k]), Frames(rs)[..n][|Frames(rs[..k])|..])
    decreases |rs|
  {
    hide Read, Frame, Carried;
    if rs == [] {
      ReadNothing();
      assert rs[..0] == [] && CarriedAll([]) == [];
    } else if n < |Frame(rs[0])| {
      CutFirst(rs, n);
      assert Fitting(rs, n) == 0 && Frames(rs)[..n][0..] == Frames(rs)[..n];
    } else {
      var f, more, k := Frame(rs[0]), Frames(rs[1..]), Fitting(rs[1..], n - |Frame(rs[0])|);
      CutRecordingReadsBack(rs[1..], n - |f|);
      ReadFrame(rs[0], more[..n - |f|]);
      FramesTake(rs, k);
      if k < |rs| - 1 {
        FramesTake(rs, k + 1);
      }
      CutText(f, more, n, |Frames(rs[1..][..k])|);
      assert CarriedAll(rs[..k + 1]) == [Carried(rs[0])] + CarriedAll(rs[1..][..k]);
    }
  }

  lemma CutText(f: string, more: string, n: nat, done: nat)
    requires |f| <= n <= |f| + |more| && done <= n - |f|
    ensures (f + more)[..n] == f + more[..n - |f|]
    ensures (f + more)[..n][|f| + done..] == more[..n - |f|][done..]
  {
  }

  lemma CutFirst(rs: seq<Record>, n: nat)
    requires rs != [] && n < |Frame(rs[0])| && |rs[0].data| < WORD
    ensures Frames(rs[..0]) == "" && Frames(rs[..1]) == Frame(rs[0]) && CarriedAll(rs[..0]) == []
    ensures n <= |Frames(rs)| && Read(Frames(rs)[..n]) == ([], Frames(rs)[..n])
  {
    hide Read, Frame, Carried;
    ReadTorn(rs[0], n);
    assert rs[..1][1..] == [] && Frame(rs[0]) + "" == Frame(rs[0]);
    assert (Frame(rs[0]) + Frames(rs[1..]))[..n] == Frame(rs[0])[..n];
  }

  lemma FramesTake(rs: seq<Record>, k: nat)
    requires k < |rs|
    ensures Frames(rs[..k + 1]) == Frame(rs[0]) + Frames(rs[1..][..k])
  {
    hide Frame;
    assert rs[..k + 1][1..] == rs[1..][..k];
  }

  lemma ReadNothing()
    ensures Read("") == ([], "")
  {
  }

  // ---- recordings with failed writes -----------------------------------------------------------------

  lemma Le32Back(b: string)
    requires |b| >= 4 && Octets(b)
    ensures Le32(ReadLe32(b)) == b[..4] && ReadLe32(b) < WORD
  {
    var x, y, z, w := b[0] as int, b[1] as int, b[2] as int, b[3] as int;
    var v := ReadLe32(b);
    ShiftDown(y + 256 * (z + 256 * w), x);
    ShiftDown(z + 256 * w, y);
    ShiftDown(w, z);
    assert v == x + 256 * (y + 256 * (z + 256 * w));
    assert v / 0x1_0000 == v / 256 / 256 && v / 0x100_0000 == v / 256 / 256 / 256;
  }

  lemma ShiftDown(high: nat, low: nat)
    requires low < 256
    ensures (low + 256 * high) / 256 == high && (low + 256 * high) % 256 == low
  {
  }

  /** Reading loses nothing: the frames of what was read, and what is left, are the file. */
  lemma {:induction false} ReadSound(s: string)
    requires Octets(s)
    ensures Frames(Read(s).0) + Read(s).1 == s
    decreases |s|
  {
    hide Frame, ReadLe32;
    if |s| >= 12 && |s| >= 12 + ReadLe32(s[8..]) {
      var n := ReadLe32(s[8..]);
      ReadSound(s[12 + n..]);
      FrameRead(s);
      var r := Record(ReadLe32(s), ReadLe32(s[4..]), s[12..12 + n]);
      FramesCons(r, Read(s[12 + n..]).0, Read(s[12 + n..]).1);
      assert s == s[..12 + n] + s[12 + n..];
    }
  }

  lemma FramesCons(r: Record, rs: seq<Record>, rest: string)
    ensures Frames([r] + rs) + rest == Frame(r) + (Frames(rs) + rest)
  {
    hide Frame;
    assert ([r] + rs)[1..] == rs;
  }

  lemma FrameRead(s: string)
    requires Octets(s) && |s| >= 12 && |s| >= 12 + ReadLe32(s[8..])
    ensures var n := ReadLe32(s[8..]); Frame(Record(ReadLe32(s), ReadLe32(s[4..]), s[12..12 + n])) == s[..12 + n]
  {
    hide Le32, ReadLe32;
    var n := ReadLe32(s[8..]);
    Le32Back(s);
    Le32Back(s[4..]);
    Le32Back(s[8..]);
    assert s[4..][..4] == s[4..8] && s[8..][..4] == s[8..12];
    assert s[..12 + n] == s[..4] + (s[4..8] + (s[8..12] + s[12..12 + n]));
  }

  /** A call of Write and how many bytes of its frame came into the file. */
  datatype Attempt = Attempt(record: Record, bytes: nat)

  predicate ValidAttempts(ws: seq<Attempt>) {
    forall i | 0 <= i < |ws| ::
      ws[i].bytes <= |Frame(ws[i].record)| && |ws[i].record.data| < WORD && Octets(ws[i].record.data)
  }

  predicate Complete(w: Attempt) {
    w.bytes == |Frame(w.record)|
  }

  /** What the calls leave in the file. */
  function File(ws: seq<Attempt>): string
    requires ValidAttempts(ws)
  {
    if ws == [] then "" else Frame(ws[0].record)[..ws[0].bytes] + File(ws[1..])
  }

  /** The records that were written whole. */
  function Whole(ws: seq<Attempt>): seq<Record> {
    if ws == [] then [] else (if Complete(ws[0]) then [ws[0].record] else []) + Whole(ws[1..])
  }

  lemma {:induction false} FileOctets(ws: seq<Attempt>)
    requires ValidAttempts(ws)
    ensures Octets(File(ws))
  {
    if ws != [] {
      FileOctets(ws[1..]);
      var f := Frame(ws[0].record);
      assert Octets(f);
    }
  }

  lemma FrameCarried(r: Record)
    ensures Frame(Carried(r)) == Frame(r)
  {
    Le32Mod(r.seconds);
    Le32Mod(r.micros);
    hide Le32;
  }

  lemma Le32Mod(n: nat)
    ensures Le32(n % WORD) == Le32(n)
  {
    var m := n % WORD;
    var q := n / WORD;
    assert n == m + WORD * q;
    assert n / 256 == m / 256 + 0x100_0000 * q;
    assert n / 0x1_0000 == m / 0x1_0000 + 0x1_0000 * q;
    assert n / 0x100_0000 == m / 0x100_0000 + 256 * q;
    SameByte(m, n, WORD / 256 * q);
    SameByte(m / 256, n / 256, 0x1_0000 * q);
    SameByte(m / 0x1_0000, n / 0x1_0000, 256 * q);
    SameByte(m / 0x100_0000, n / 0x100_0000, q);
  }

  lemma SameByte(a: nat, b: nat, k: nat)
    requires b == a + 256 * k
    ensures ByteChar(a) == ByteChar(b)
  {
  }

  lemma {:induction false} FramesCarried(rs: seq<Record>)
    ensures Frames(CarriedAll(rs)) == Frames(rs)
  {
    hide Frame, Carried;
    if rs != [] {
      FrameCarried(rs[0]);
      FramesCarried(rs[1..]);
      assert CarriedAll(rs)[1..] == CarriedAll(rs[1..]);
    }
  }

  /** With failed writes anywhere, a recording reads back as the records written whole exactly when the file starts with
      their frames and no frame follows them. */
  lemma WritesReadBackExactly(ws: seq<Attempt>)
    requires ValidAttempts(ws)
    ensures Read(File(ws)).0 == CarriedAll(Whole(ws))
            <==> Frames(Whole(ws)) <= File(ws) && Read(File(ws)[|Frames(Whole(ws))|..]).0 == []
  {
    hide Read, Frame, Carried;
    var file, rs := File(ws), Whole(ws);
    FileOctets(ws);
    WholeShort(ws);
    FramesCarried(rs);
    if Read(file).0 == CarriedAll(rs) {
      ReadSound(file);
      var rest := file[|Frames(rs)|..];
      assert file == Frames(rs) + Read(file).1;
      assert rest == Read(file).1;
      LeftoverReads(file);
    }
    if Frames(rs) <= file && Read(file[|Frames(rs)|..]).0 == [] {
      var rest := file[|Frames(rs)|..];
      assert file == Frames(rs) + rest;
      NoFrameLeft(rest);
      FramesReadBack(rs, rest);
    }
  }

  lemma {:induction false} WholeShort(ws: seq<Attempt>)
    requires ValidAttempts(ws)
    ensures forall i | 0 <= i < |Whole(ws)| :: |Whole(ws)[i].data| < WORD
  {
    if ws != [] {
      WholeShort(ws[1..]);
    }
  }

  lemma {:induction false} LeftoverReads(s: string)
    ensures Read(Read(s).1) == ([], Read(s).1)
    decreases |s|
  {
    if |s| >= 12 && |s| >= 12 + ReadLe32(s[8..]) {
      LeftoverReads(s[12 + ReadLe32(s[8..])..]);
    }
  }

  lemma NoFrameLeft(s: string)
    requires Read(s).0 == []
    ensures Read(s) == ([], s)
  {
  }

  /** It does so when every write that failed before a later one left nothing. */
  lemma {:induction false} CleanFailuresReadBack(ws: seq<Attempt>)
    requires ValidAttempts(ws) && forall i | 0 <= i < |ws| - 1 :: Complete(ws[i]) || ws[i].bytes == 0
    ensures Read(File(ws)).0 == CarriedAll(Whole(ws))
  {
    hide Read, Frame, Carried;
    if ws == [] {
      ReadNothing();
      assert CarriedAll([]) == [];
    } else {
      forall i | 0 <= i < |ws[1..]| - 1 ensures Complete(ws[1..][i]) || ws[1..][i].bytes == 0 { assert ws[1..][i] == ws[i + 1]; }
      CleanFailuresReadBack(ws[1..]);
      var r, rest := ws[0].record, File(ws[1..]);
      if Complete(ws[0]) {
        assert Frame(r)[..ws[0].bytes] == Frame(r);
        ReadFrame(r, rest);
        assert CarriedAll(Whole(ws)) == [Carried(r)] + CarriedAll(Whole(ws[1..]));
      } else if |ws| == 1 {
        assert ws[1..] == [] && File(ws) == Frame(r)[..ws[0].bytes];
        ReadTorn(r, ws[0].bytes);
        assert CarriedAll(Whole(ws)) == [];
      } else {
        assert Complete(ws[0]) || ws[0].bytes == 0;
        assert File(ws) == rest && Whole(ws) == Whole(ws[1..]);
      }
    }
  }

  lemma ValidAppend(a: seq<Attempt>, b: seq<Attempt>)
    ensures ValidAttempts(a + b) <==> ValidAttempts(a) && ValidAttempts(b)
  {
    hide Frame;
    if ValidAttempts(a + b) {
      forall i | 0 <= i < |a| ensures a[i].bytes <= |Frame(a[i].record)| && |a[i].record.data| < WORD && Octets(a[i].record.data) {
        assert (a + b)[i] == a[i];
      }
      forall i | 0 <= i < |b| ensures b[i].bytes <= |Frame(b[i].record)| && |b[i].record.data| < WORD && Octets(b[i].record.data) {
        assert (a + b)[|a| + i] == b[i];
      }
    }
  }

  lemma {:induction false} WholeAppend(a: seq<Attempt>, b: seq<Attempt>)
    ensures Whole(a + b) == Whole(a) + Whole(b)
    decreases |a|
  {
    hide Complete;
    if a == [] {
      assert a + b == b;
    } else {
      WholeAppend(a[1..], b);
      var first := if Complete(a[0]) then [a[0].record] else [];
      assert (a + b)[1..] == a[1..] + b && (a + b)[0] == a[0];
      assert Whole(a + b) == first + Whole(a[1..] + b) && Whole(a) == first + Whole(a[1..]);
    }
  }

  lemma {:induction false} FileAppend(a: seq<Attempt>, b: seq<Attempt>)
    requires ValidAttempts(a) && ValidAttempts(b) && ValidAttempts(a + b)
    ensures File(a + b) == File(a) + File(b)
    decreases |a|
  {
    hide Frame, Octets;
    if a == [] {
      assert a + b == b;
    } else {
      var first, rest := [a[0]], a[1..];
      assert a == first + rest;
      ValidAppend(first, rest);
      ValidAppend(rest, b);
      assert (a + b)[1..] == rest + b && (a + b)[0] == a[0];
      hide ValidAttempts;
      FileAppend(rest, b);
      assert a[0].bytes <= |Frame(a[0].record)| by { FirstFits(a); }
      var f := Frame(a[0].record)[..a[0].bytes];
      assert File(a) == f + File(rest) && File(a + b) == f + File(rest + b);
    }
  }

  lemma FirstFits(ws: seq<Attempt>)
    requires ws != [] && ValidAttempts(ws)
    ensures ws[0].bytes <= |Frame(ws[0].record)|
  {
  }

  lemma {:induction false} AllComplete(ws: seq<Attempt>)
    requires ValidAttempts(ws) && forall i | 0 <= i < |ws| :: Complete(ws[i])
    ensures File(ws) == Frames(Whole(ws))
  {
    hide Frame;
    if ws != [] {
      AllComplete(ws[1..]);
    }
  }

  lemma {:induction false} FramesAppend(a: seq<Record>, b: seq<Record>)
    ensures Frames(a + b) == Frames(a) + Frames(b)
  {
    hide Frame;
    if a == [] {
      assert a + b == b;
    } else {
      assert (a + b)[1..] == a[1..] + b;
      FramesAppend(a[1..], b);
    }
  }

  lemma StampOf(r: Record, n: nat)
    requires 8 <= n <= |Frame(r)|
    ensures Frame(r)[..n][..8] == Le32(r.seconds) + Le32(r.micros)
  {
  }

  lemma SameStamp(r: Record, q: Record)
    requires Le32(r.seconds) + Le32(r.micros) == Le32(q.seconds) + Le32(q.micros)
    ensures Carried(r).seconds == Carried(q).seconds && Carried(r).micros == Carried(q).micros
  {
    hide Le32, ReadLe32;
    var a, b := Le32(r.seconds) + Le32(r.micros), Le32(q.seconds) + Le32(q.micros);
    assert a[..4] == Le32(r.seconds) && b[..4] == Le32(q.seconds) && a[4..] == Le32(r.micros) && b[4..] == Le32(q.micros);
    Le32Value(r.seconds);
    Le32Value(q.seconds);
    Le32Value(r.micros);
    Le32Value(q.micros);
  }

  /** And a recording is lost from a write on that left its time stamp or more without its end, if a record with another
      time stamp is written whole next. */
  lemma TornWriteLoses(before: seq<Attempt>, torn: Attempt, next: Attempt, after: seq<Attempt>)
    requires var ws := before + [torn, next] + after; ValidAttempts(ws)
    requires (forall i | 0 <= i < |before| :: Complete(before[i])) && !Complete(torn) && torn.bytes >= 8 && Complete(next)
    requires Carried(torn.record).seconds != Carried(next.record).seconds
             || Carried(torn.record).micros != Carried(next.record).micros
    ensures var ws := before + [torn, next] + after; Read(File(ws)).0 != CarriedAll(Whole(ws))
  {
    hide Read, Frame, Carried, ValidAttempts;
    var mid := [torn, next];
    var ws := before + mid + after;
    assert ws == before + (mid + after);
    ValidAppend(before, mid + after);
    ValidAppend(mid, after);
    WholeAppend(mid, after);
    WholeAppend(before, mid + after);
    FileAppend(mid, after);
    FileAppend(before, mid + after);
    AllComplete(before);
    WholeTorn(torn, next);
    WritesReadBackExactly(ws);
    if Read(File(ws)).0 == CarriedAll(Whole(ws)) {
      FramesAppend(Whole(before), [next.record] + Whole(after));
      TornStamps(torn, next, File(ws), Frames(Whole(before)), Whole(after), File(after));
    }
  }

  lemma WholeTorn(torn: Attempt, next: Attempt)
    requires !Complete(torn) && Complete(next)
    ensures Whole([torn, next]) == [next.record]
  {
    hide Complete;
    assert [next][1..] == [] && Whole([]) == [];
    assert Whole([next]) == [next.record];
    assert [torn, next][1..] == [next] && [torn, next][0] == torn;
  }

  lemma TornStamps(torn: Attempt, next: Attempt, file: string, front: string, later: seq<Record>, rest: string)
    requires ValidAttempts([torn, next]) && !Complete(torn) && Complete(next) && 8 <= torn.bytes
    requires file == front + (File([torn, next]) + rest)
    requires front + Frames([next.record] + later) <= file
    ensures Carried(torn.record).seconds == Carried(next.record).seconds
    ensures Carried(torn.record).micros == Carried(next.record).micros
  {
    hide Carried;
    var t, f := Frame(torn.record)[..torn.bytes], Frame(next.record);
    assert [torn, next][0] == torn && [torn, next][1..] == [next] && [next][1..] == [];
    assert ([next.record] + later)[1..] == later;
    assert ValidAttempts([next]);
    assert File([torn, next]) == t + File([next]);
    hide Frame;
    StampOf(torn.record, torn.bytes);
    FrameLong(next.record);
    StampOf(next.record, |f|);
    assert f[..|f|] == f;
    var tail := file[|front|..];
    assert tail == t + File([next]) + rest;
    assert (front + Frames([next.record] + later))[|front|..] == f + Frames(later);
    assert f + Frames(later) <= tail;
    assert tail[..8] == t[..8] && tail[..8] == f[..8];
    SameStamp(torn.record, next.record);
  }

  lemma FrameLong(r: Record)
    ensures |Frame(r)| >= 12
  {
  }
}
