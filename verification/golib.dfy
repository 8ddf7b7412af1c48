/** The few pieces of Go's runtime and standard library that the firewall backend leans on.

    Go strings and byte slices are both modelled as `string`, one `char` per byte.
    Decimal formatting and the conf reader's own `atoi` are defined here; `net.ParseIP`,
    `net.IP.String`, `strings.TrimSpace` and the treatment of non-ASCII runes by `%q` are
    library code outside the repository, so they are the fields of a `Lib` record of which
    only the laws in `Lawful` are assumed.
  */
module GoLib {

  datatype Option<+T> = None | Some(value: T)

  datatype Result<+T> = Ok(value: T) | Err(message: string)

  // ---- addresses and library functions --------------------------------------

  /** An address as `net.IP` sees it: `To4` succeeds on `V4`, including v4-mapped 16-byte forms. */
  datatype IP = V4(octets: string) | V6(octets: string)

  const V4_MAPPED: string := "\0\0\0\0\0\0\0\0\0\0\U{FF}\U{FF}"

  /** Every character is a byte. */
  predicate Octets(s: string) {
    forall i | 0 <= i < |s| :: s[i] as int < 256
  }

  predicate ValidIP(ip: IP) {
    Octets(ip.octets) &&
    match ip
    case V4(b) => |b| == 4
    case V6(b) => |b| == 16 && b[..12] != V4_MAPPED
  }

  /** `net.IP(data)` for the two lengths the decoder accepts. */
  function IPFromBytes(data: string): (ip: IP)
    requires |data| == 4 || |data| == 16
    ensures Octets(data) ==> ValidIP(ip)
  {
    if |data| == 4 then V4(data)
    else if data[..12] == V4_MAPPED then V4(data[12..])
    else V6(data)
  }

  datatype Lib = Lib(
    parseIP: string -> Option<IP>,
    showIP: IP -> string,
    trimSpace: string -> string,
    // For a string that starts with a byte >= 0x80: how many bytes `%q` consumes and what it prints for them.
    wideRune: string -> (nat, string))

  predicate AddressChar(c: char) {
    '0' <= c <= '9' || 'a' <= c <= 'f' || 'A' <= c <= 'F' || c == ':' || c == '.'
  }

  predicate AddressText(s: string) {
    s != "" && forall i | 0 <= i < |s| :: AddressChar(s[i])
  }

  predicate Printable(c: char) {
    ' ' <= c <= '~'
  }

  predicate Wide(c: char) {
    c >= '\U{80}'
  }

  ghost predicate LawfulIP(lib: Lib) {
    && (forall ip | ValidIP(ip) :: lib.parseIP(lib.showIP(ip)) == Some(ip))
    && (forall s | lib.parseIP(s).Some? :: ValidIP(lib.parseIP(s).value) && AddressText(s))
  }

  ghost predicate LawfulTrim(lib: Lib) {
    && (forall s :: lib.trimSpace(lib.trimSpace(s)) == lib.trimSpace(s))
    && (forall s | AddressText(s) :: lib.trimSpace(s) == s)
    && lib.trimSpace("") == ""
  }

  /** A non-ASCII rune is printed either as itself, all of its bytes being non-ASCII, or as a backslash escape. */
  predicate LawfulRune(s: string, rune: (nat, string)) {
    && 1 <= rune.0 <= |s|
    && (forall i | 0 <= i < |rune.1| :: rune.1[i] != '"' && rune.1[i] != '\n')
    && rune.1 != ""
    && (rune.1 != s[..rune.0] ==> rune.1[0] == '\\')
    && (rune.1 == s[..rune.0] ==> forall i | 0 <= i < rune.0 :: Wide(s[i]))
  }

  ghost predicate Lawful(lib: Lib) {
    && LawfulIP(lib)
    && LawfulTrim(lib)
    && (forall s: string | s != "" && Wide(s[0]) :: LawfulRune(s, lib.wideRune(s)))
  }

  /** Addresses print to distinct, non-empty address texts. */
  lemma ShowIPText(lib: Lib, ip: IP)
    requires Lawful(lib) && ValidIP(ip)
    ensures AddressText(lib.showIP(ip)) && lib.parseIP(lib.showIP(ip)) == Some(ip)
  {
    assert lib.parseIP(lib.showIP(ip)).Some?;
  }

  // ---- decimal numbers ------------------------------------------------------

  predicate IsDigit(c: char) {
    '0' <= c <= '9'
  }

  function Digit(d: nat): (c: char)
    requires d < 10
    ensures IsDigit(c) && c as int - '0' as int == d
  {
    ('0' as int + d) as char
  }

  predicate AllDigits(s: string) {
    forall i | 0 <= i < |s| :: IsDigit(s[i])
  }

  /** `strconv.Itoa` / `%d` on a non-negative number. */
  function Itoa(n: nat): (s: string)
    ensures s != "" && AllDigits(s)
    ensures n <= 9 ==> |s| == 1
    ensures n <= 99 ==> |s| <= 2
    ensures n <= 999 ==> |s| <= 3
    ensures n <= 9999 ==> |s| <= 4
    ensures n <= 99999 ==> |s| <= 5
  {
    if n < 10 then [Digit(n)] else Itoa(n / 10) + [Digit(n % 10)]
  }

  /** The conf reader's digit loop from a partial value `n`. */
  function AtoiFrom(s: string, n: nat): (v: nat)
    requires n <= 65535
    ensures v <= 65535
    decreases |s|
  {
    if s == "" || !IsDigit(s[0]) then n
    else
      var m := n * 10 + (s[0] as int - '0' as int);
      if m > 65535 then 0 else AtoiFrom(s[1..], m)
  }

  function AtoiValue(s: string): (v: nat)
    ensures v <= 65535
  {
    if |s| > 5 then 0 else AtoiFrom(s, 0)
  }

  method Atoi(s: string) returns (n: nat)
    ensures n == AtoiValue(s)
  {
    if |s| > 5 {
      return 0;
    }
    n := 0;
    var i := 0;
    while i < |s|
      invariant 0 <= i <= |s| && n <= 65535
      invariant AtoiFrom(s[i..], n) == AtoiFrom(s, 0)
    {
      if s[i] < '0' || s[i] > '9' {
        return n;
      }
      assert s[i..][1..] == s[i + 1..];
      n := n * 10 + (s[i] as int - '0' as int);
      if n > 65535 {
        return 0;
      }
      i := i + 1;
    }
  }

  lemma {:induction false} AtoiFromItoa(n: nat, rest: string)
    requires n <= 65535
    ensures AtoiFrom(Itoa(n) + rest, 0) == AtoiFrom(rest, n)
    decreases n
  {
    if n < 10 {
      assert ([Digit(n)] + rest)[1..] == rest;
    } else {
      var tail := [Digit(n % 10)] + rest;
      assert Itoa(n) + rest == Itoa(n / 10) + tail;
      AtoiFromItoa(n / 10, tail);
      assert tail[1..] == rest;
    }
  }

  /** Every port number survives being written and read back. */
  lemma AtoiItoa(n: nat)
    requires n <= 65535
    ensures AtoiValue(Itoa(n)) == n
  {
    AtoiFromItoa(n, "");
    assert Itoa(n) + "" == Itoa(n);
  }

  function DigitValue(c: char): nat
    requires IsDigit(c)
  {
    c as int - '0' as int
  }

  /** The number that decimal digits denote. */
  function DigitsValue(s: string): (n: nat)
    requires AllDigits(s)
  {
    if s == "" then 0
    else DigitsValue(s[..|s| - 1]) * 10 + DigitValue(s[|s| - 1])
  }

  lemma {:induction false} DigitsValueItoa(n: nat)
    ensures DigitsValue(Itoa(n)) == n
    decreases n
  {
    if n >= 10 {
      DigitsValueItoa(n / 10);
      var s := Itoa(n);
      assert s[..|s| - 1] == Itoa(n / 10);
    } else {
      assert Itoa(n)[..0] == "";
    }
  }

  /** The same, taken up digit by digit. */
  function DigitsOnto(s: string, n: nat): (v: nat)
    requires AllDigits(s)
    ensures v >= n
    decreases |s|
  {
    if s == "" then n else DigitsOnto(s[1..], n * 10 + DigitValue(s[0]))
  }

  lemma {:induction false} DigitsOntoSnoc(s: string, n: nat)
    requires AllDigits(s) && s != ""
    ensures DigitsOnto(s, n) == DigitsOnto(s[..|s| - 1], n) * 10 + DigitValue(s[|s| - 1])
    decreases |s|
  {
    if |s| > 1 {
      DigitsOntoSnoc(s[1..], n * 10 + DigitValue(s[0]));
      assert s[1..][..|s| - 2] == s[..|s| - 1][1..];
    } else {
      assert s[1..] == "" && s[..0] == "";
    }
  }

  lemma {:induction false} DigitsOntoNothing(s: string)
    requires AllDigits(s)
    ensures DigitsOnto(s, 0) == DigitsValue(s)
  {
    if s != "" {
      DigitsOntoNothing(s[..|s| - 1]);
      DigitsOntoSnoc(s, 0);
    }
  }

  lemma {:induction false} AtoiFromDigits(s: string, n: nat)
    requires AllDigits(s) && n <= 65535
    ensures AtoiFrom(s, n) == if DigitsOnto(s, n) <= 65535 then DigitsOnto(s, n) else 0
    decreases |s|
  {
    if s != "" {
      var m := n * 10 + DigitValue(s[0]);
      if m <= 65535 {
        AtoiFromDigits(s[1..], m);
      }
    }
  }

  /** A text of digits is read as the number it denotes, or as 0 if it has more than five digits or exceeds 65535. */
  lemma AtoiExactly(s: string)
    requires AllDigits(s)
    ensures AtoiValue(s) == if |s| <= 5 && DigitsValue(s) <= 65535 then DigitsValue(s) else 0
  {
    AtoiFromDigits(s, 0);
    DigitsOntoNothing(s);
  }

  // ---- small string facts ---------------------------------------------------

  predicate HasPrefix(s: string, p: string) {
    |p| <= |s| && s[..|p|] == p
  }

  predicate Lacks(s: string, c: char) {
    forall i | 0 <= i < |s| :: s[i] != c
  }

  predicate Contains(s: string, sub: string) {
    exists i :: 0 <= i <= |s| && HasPrefix(s[i..], sub)
  }

  /** Some number is not a key yet. */
  lemma FreshKey<V>(m: map<nat, V>) returns (k: nat)
    ensures k !in m
  {
    k := 0;
    var seen: set<nat> := {};
    while k in m
      invariant seen <= m.Keys && forall i :: i in seen <==> 0 <= i < k
      decreases |m.Keys - seen|
    {
      ghost var before := m.Keys - seen;
      assert k in before;
      seen := seen + {k};
      assert m.Keys - seen == before - {k};
      k := k + 1;
    }
  }
}
