/** The laws assumed of Go's library are consistent: a library that obeys them exists. */
module LibWitness {
  import opened GoLib
  import opened Text

  lemma {:induction false} ItoaSame(a: nat, b: nat)
    requires Itoa(a) == Itoa(b)
    ensures a == b
    decreases a
  {
    var s := Itoa(a);
    if a < 10 && b < 10 {
      assert s[0] == Digit(a) && s[0] == Digit(b);
    } else if a >= 10 && b >= 10 {
      assert s[..|s| - 1] == Itoa(a / 10) && s[..|s| - 1] == Itoa(b / 10);
      assert s[|s| - 1] == Digit(a % 10) && s[|s| - 1] == Digit(b % 10);
      ItoaSame(a / 10, b / 10);
    }
  }

  /** Octets as dotted numbers. */
  function Dotted(b: string): string {
    if b == "" then "" else Itoa(b[0] as int) + ("." + Dotted(b[1..]))
  }

  lemma {:induction false} DottedSame(a: string, b: string)
    requires Dotted(a) == Dotted(b)
    ensures a == b
  {
    if a != "" && b != "" {
      SpanStops(Itoa(a[0] as int), "." + Dotted(a[1..]), NotDigit);
      SpanStops(Itoa(b[0] as int), "." + Dotted(b[1..]), NotDigit);
      ItoaSame(a[0] as int, b[0] as int);
      assert ("." + Dotted(a[1..]))[1..] == Dotted(a[1..]) && ("." + Dotted(b[1..]))[1..] == Dotted(b[1..]);
      DottedSame(a[1..], b[1..]);
      assert a == [a[0]] + a[1..] && b == [b[0]] + b[1..];
    }
  }

  lemma {:induction false} DottedText(b: string)
    ensures b != "" ==> AddressText(Dotted(b)) && IsDigit(Dotted(b)[0])
  {
    if b != "" {
      DottedText(b[1..]);
      var t := Itoa(b[0] as int);
      forall i | 0 <= i < |t| ensures AddressChar(t[i]) {
        assert IsDigit(t[i]);
      }
    }
  }

  function Show(ip: IP): string {
    match ip
    case V4(b) => Dotted(b)
    case V6(b) => ":" + Dotted(b)
  }

  lemma ShowSame(a: IP, b: IP)
    requires ValidIP(a) && ValidIP(b) && Show(a) == Show(b)
    ensures a == b
  {
    DottedText(a.octets);
    DottedText(b.octets);
    if a.V6? && b.V6? {
      assert Show(a)[1..] == Dotted(a.octets) && Show(b)[1..] == Dotted(b.octets);
    }
    assert a.V6? <==> Show(a)[0] == ':';
    assert b.V6? <==> Show(b)[0] == ':';
    DottedSame(a.octets, b.octets);
  }

  predicate ShowsAs(ip: IP, s: string) {
    ValidIP(ip) && Show(ip) == s
  }

  ghost function Parse(s: string): (r: Option<IP>)
    ensures r.Some? ==> ShowsAs(r.value, s)
    ensures r.None? ==> !exists ip :: ShowsAs(ip, s)
  {
    if exists ip :: ShowsAs(ip, s) then var ip :| ShowsAs(ip, s); Some(ip) else None
  }

  lemma LawfulLibExists()
    ensures exists lib :: Lawful(lib)
  {
    var lib := Lib(s => Parse(s), ip => Show(ip), s => s, s => (1, "\\"));
    forall ip | ValidIP(ip) ensures lib.parseIP(lib.showIP(ip)) == Some(ip) {
      assert ShowsAs(ip, Show(ip));
      ShowSame(ip, Parse(Show(ip)).value);
    }
    forall s | lib.parseIP(s).Some? ensures ValidIP(lib.parseIP(s).value) && AddressText(s) {
      DottedText(Parse(s).value.octets);
    }
    assert Lawful(lib);
  }
}
