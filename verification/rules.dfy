/** Logical firewall rules and their normal form (internal/agent/nftfw). */
module Rules {
  import opened GoLib

  datatype Proto = Tcp | Udp | Both

  datatype Action = Allow | Deny | Reject

  /** `lrule`: `from` is "" for anywhere, `iface` is "" for any interface. */
  datatype LRule = LRule(proto: Proto, port: nat, action: Action, from: string, iface: string)

  /** What `addRule` lets into the list: port range checked by `Call`, address parsed, interface name checked. */
  predicate InterfaceAccepted(iface: string) {
    iface == "" || (|iface| <= 15 && Lacks(iface, '"') && Lacks(iface, '\\') && Lacks(iface, ' ') && Lacks(iface, '\t'))
  }

  predicate ValidRule(lib: Lib, r: LRule) {
    && 1 <= r.port <= 65535
    && (r.from == "" || lib.parseIP(r.from).Some?)
    && InterfaceAccepted(r.iface)
  }

  predicate ValidRules(lib: Lib, rs: seq<LRule>) {
    forall i | 0 <= i < |rs| :: ValidRule(lib, rs[i])
  }

  /** What both encodings carry, whatever the interface name has become on the way: the boot file may give a name back
      longer than it was. */
  predicate Storable(lib: Lib, r: LRule) {
    && 1 <= r.port <= 65535
    && (r.from == "" || lib.parseIP(r.from).Some?)
    && Lacks(r.iface, '"')
  }

  predicate StorableRules(lib: Lib, rs: seq<LRule>) {
    forall i | 0 <= i < |rs| :: Storable(lib, rs[i])
  }

  lemma ValidStorable(lib: Lib, rs: seq<LRule>)
    requires ValidRules(lib, rs)
    ensures StorableRules(lib, rs)
  {
  }

  // ---- expansion and merging --------------------------------------------------

  function WithProto(r: LRule, p: Proto): LRule {
    r.(proto := p)
  }

  function Protos(p: Proto): (ps: seq<Proto>)
    ensures forall i | 0 <= i < |ps| :: ps[i] != Both
  {
    if p == Both then [Tcp, Udp] else [p]
  }

  function ExpandRule(r: LRule): seq<LRule> {
    if r.proto == Both then [WithProto(r, Tcp), WithProto(r, Udp)] else [r]
  }

  /** One entry per protocol, in order. */
  function Expand(rs: seq<LRule>): seq<LRule> {
    if rs == [] then [] else ExpandRule(rs[0]) + Expand(rs[1..])
  }

  /** `a` and `b` are the two halves of one "both" rule. */
  predicate Twin(a: LRule, b: LRule) {
    a.proto == Tcp && b.proto == Udp && WithProto(a, Both) == WithProto(b, Both)
  }

  /** Adjacent tcp/udp twins become one "both" rule, greedily from the left. */
  function Merge(rs: seq<LRule>): seq<LRule> {
    if rs == [] then []
    else if |rs| > 1 && Twin(rs[0], rs[1]) then [WithProto(rs[0], Both)] + Merge(rs[2..])
    else [rs[0]] + Merge(rs[1..])
  }

  predicate NoTwins(rs: seq<LRule>) {
    forall i | 0 <= i < |rs| - 1 :: !Twin(rs[i], rs[i + 1])
  }

  lemma ExpandCons(r: LRule, rest: seq<LRule>)
    ensures Expand([r] + rest) == ExpandRule(r) + Expand(rest)
  {
    assert ([r] + rest)[1..] == rest;
  }

  lemma {:induction false} ExpandAppend(a: seq<LRule>, b: seq<LRule>)
    ensures Expand(a + b) == Expand(a) + Expand(b)
  {
    if a == [] {
      assert a + b == b;
    } else {
      assert (a + b)[1..] == a[1..] + b;
      ExpandAppend(a[1..], b);
    }
  }

  lemma {:induction false} ExpandSingles(rs: seq<LRule>)
    ensures forall i | 0 <= i < |Expand(rs)| :: Expand(rs)[i].proto != Both
  {
    if rs != [] {
      ExpandSingles(rs[1..]);
    }
  }

  lemma TwinHalves(a: LRule, b: LRule)
    requires Twin(a, b)
    ensures ExpandRule(WithProto(a, Both)) == ExpandRule(a) + ExpandRule(b)
  {
  }

  /** Merging loses nothing: both lists stand for the same single-protocol rules in the same order. */
  lemma {:induction false} ExpandMerge(rs: seq<LRule>)
    ensures Expand(Merge(rs)) == Expand(rs)
  {
    hide Twin, ExpandRule, WithProto;
    if rs == [] {
    } else if |rs| > 1 && Twin(rs[0], rs[1]) {
      ExpandMerge(rs[2..]);
      assert rs == [rs[0]] + ([rs[1]] + rs[2..]);
      ExpandCons(rs[0], [rs[1]] + rs[2..]);
      ExpandCons(rs[1], rs[2..]);
      ExpandCons(WithProto(rs[0], Both), Merge(rs[2..]));
      TwinHalves(rs[0], rs[1]);
    } else {
      ExpandMerge(rs[1..]);
      ExpandCons(rs[0], Merge(rs[1..]));
    }
  }

  /** Expanding first does not change what merging gives. */
  lemma {:induction false} MergeExpand(rs: seq<LRule>)
    ensures Merge(Expand(rs)) == Merge(rs)
    decreases |rs|
  {
    if rs == [] {
      return;
    }
    var r, rest := rs[0], rs[1..];
    var e := Expand(rs);
    MergeExpand(rest);
    if r.proto == Both {
      assert e[2..] == Expand(rest);
      assert Twin(e[0], e[1]) && WithProto(e[0], Both) == r;
    } else {
      assert e == [r] + Expand(rest) && e[1..] == Expand(rest);
      if |rs| > 1 {
        assert Expand(rest) == ExpandRule(rest[0]) + Expand(rest[1..]);
        if Twin(r, rest[0]) {
          MergeExpand(rs[2..]);
          assert rest[1..] == rs[2..];
          assert e[1] == rest[0] && e[2..] == Expand(rs[2..]);
        } else {
          assert e[1] == ExpandRule(rest[0])[0];
          assert !Twin(r, e[1]);
        }
      }
    }
  }

  /** Lists with the same expansion have the same merged form. */
  lemma MergeOfSameExpansion(a: seq<LRule>, b: seq<LRule>)
    requires Expand(a) == Expand(b)
    ensures Merge(a) == Merge(b)
  {
    MergeExpand(a);
    MergeExpand(b);
  }

  lemma {:induction false} MergeIdempotent(rs: seq<LRule>)
    ensures Merge(Merge(rs)) == Merge(rs)
  {
    ExpandMerge(rs);
    MergeOfSameExpansion(Merge(rs), rs);
  }

  lemma {:induction false} MergeFixesTwinFree(rs: seq<LRule>)
    requires NoTwins(rs)
    ensures Merge(rs) == rs
  {
    if rs != [] {
      assert NoTwins(rs[1..]) by {
        forall i | 0 <= i < |rs[1..]| - 1 ensures !Twin(rs[1..][i], rs[1..][i + 1]) {
          assert rs[1..][i] == rs[i + 1] && rs[1..][i + 1] == rs[i + 2];
        }
      }
      MergeFixesTwinFree(rs[1..]);
      assert |rs| > 1 ==> !Twin(rs[0], rs[0 + 1]);
    }
  }

  lemma {:induction false} MergeTwinFree(rs: seq<LRule>)
    ensures NoTwins(Merge(rs))
    ensures rs != [] ==> Merge(rs) != [] && (Merge(rs)[0] == rs[0] || (|rs| > 1 && Twin(rs[0], rs[1]) && Merge(rs)[0] == WithProto(rs[0], Both)))
  {
    if rs == [] {
    } else if |rs| > 1 && Twin(rs[0], rs[1]) {
      MergeTwinFree(rs[2..]);
    } else {
      MergeTwinFree(rs[1..]);
      var m := Merge(rs);
      assert m[1..] == Merge(rs[1..]);
      forall i | 0 <= i < |m| - 1 ensures !Twin(m[i], m[i + 1]) {
        if i > 0 {
          assert m[i] == m[1..][i - 1] && m[i + 1] == m[1..][i];
        }
      }
    }
  }

  /** Merging leaves a list alone exactly when it has no adjacent tcp/udp twin. */
  lemma {:induction false} MergeIdentityExactly(rs: seq<LRule>)
    ensures Merge(rs) == rs <==> NoTwins(rs)
  {
    MergeTwinFree(rs);
    if NoTwins(rs) {
      MergeFixesTwinFree(rs);
    }
  }

  /** Lists that agree on protocols and have the same expansion are equal. */
  lemma {:induction false} SameShapeExpansion(a: seq<LRule>, b: seq<LRule>)
    requires |a| == |b| && forall i | 0 <= i < |a| :: a[i].proto == b[i].proto
    requires Expand(a) == Expand(b)
    ensures a == b
  {
    if a != [] {
      var x, y := ExpandRule(a[0]), ExpandRule(b[0]);
      assert Expand(a)[..|x|] == x && Expand(b)[..|y|] == y;
      assert Expand(a)[|x|..] == Expand(a[1..]) && Expand(b)[|y|..] == Expand(b[1..]);
      assert x[0] == y[0] && |x| == |y|;
      assert a[0] == b[0];
      SameShapeExpansion(a[1..], b[1..]);
      assert a == [a[0]] + a[1..] && b == [b[0]] + b[1..];
    }
  }

  // ---- canonical addresses and the normal form ----------------------------------

  /** The address spelling the kernel path gives back. */
  function CanonFrom(lib: Lib, from: string): string {
    if from == "" then ""
    else match lib.parseIP(from)
      case Some(ip) => lib.showIP(ip)
      case None => from
  }

  function CanonRule(lib: Lib, r: LRule): LRule {
    r.(from := CanonFrom(lib, r.from))
  }

  function Canon(lib: Lib, rs: seq<LRule>): (cs: seq<LRule>)
    ensures |cs| == |rs|
    ensures forall i | 0 <= i < |rs| :: cs[i] == CanonRule(lib, rs[i])
  {
    seq(|rs|, i requires 0 <= i < |rs| => CanonRule(lib, rs[i]))
  }

  /** The list that Status shows for a rule list: canonical addresses, twins merged. */
  function Norm(lib: Lib, rs: seq<LRule>): seq<LRule> {
    Merge(Canon(lib, rs))
  }

  lemma CanonFromIdempotent(lib: Lib, from: string)
    requires Lawful(lib)
    ensures CanonFrom(lib, CanonFrom(lib, from)) == CanonFrom(lib, from)
    ensures CanonFrom(lib, from) == "" <==> from == ""
  {
    if from != "" && lib.parseIP(from).Some? {
      ShowIPText(lib, lib.parseIP(from).value);
    }
  }

  lemma {:induction false} CanonExpand(lib: Lib, rs: seq<LRule>)
    ensures Canon(lib, Expand(rs)) == Expand(Canon(lib, rs))
  {
    if rs == [] {
      assert Canon(lib, rs) == [];
    } else {
      var cs := Canon(lib, rs);
      CanonExpand(lib, rs[1..]);
      assert cs[1..] == Canon(lib, rs[1..]);
      var a, b := ExpandRule(rs[0]), Expand(rs[1..]);
      assert Canon(lib, a + b) == Canon(lib, a) + Canon(lib, b);
      assert Canon(lib, a) == ExpandRule(cs[0]);
    }
  }

  /** The normal form only depends on the expanded list. */
  lemma NormOfSameExpansion(lib: Lib, a: seq<LRule>, b: seq<LRule>)
    requires Expand(a) == Expand(b)
    ensures Norm(lib, a) == Norm(lib, b)
  {
    CanonExpand(lib, a);
    CanonExpand(lib, b);
    MergeOfSameExpansion(Canon(lib, a), Canon(lib, b));
  }

  predicate CanonicalRules(lib: Lib, rs: seq<LRule>) {
    forall i | 0 <= i < |rs| :: rs[i].from == CanonFrom(lib, rs[i].from)
  }

  lemma {:induction false} MergeKeepsCanonical(lib: Lib, rs: seq<LRule>)
    requires CanonicalRules(lib, rs)
    ensures CanonicalRules(lib, Merge(rs))
  {
    if rs == [] {
    } else if |rs| > 1 && Twin(rs[0], rs[1]) {
      MergeKeepsCanonical(lib, rs[2..]);
    } else {
      MergeKeepsCanonical(lib, rs[1..]);
    }
  }

  lemma NormCanonical(lib: Lib, rs: seq<LRule>)
    requires Lawful(lib)
    ensures CanonicalRules(lib, Norm(lib, rs)) && Canon(lib, Norm(lib, rs)) == Norm(lib, rs)
  {
    var c := Canon(lib, rs);
    forall i | 0 <= i < |c| ensures c[i].from == CanonFrom(lib, c[i].from) {
      CanonFromIdempotent(lib, rs[i].from);
    }
    MergeKeepsCanonical(lib, c);
  }

  lemma NormIdempotent(lib: Lib, rs: seq<LRule>)
    requires Lawful(lib)
    ensures Norm(lib, Norm(lib, rs)) == Norm(lib, rs)
  {
    NormCanonical(lib, rs);
    MergeIdempotent(Canon(lib, rs));
  }

  /** Normalising a prefix first changes nothing: this is what lets the agent append to what it reads back. */
  lemma NormAppend(lib: Lib, rs: seq<LRule>, r: LRule)
    requires Lawful(lib)
    ensures Norm(lib, Norm(lib, rs) + [r]) == Norm(lib, rs + [r])
  {
    var n := Norm(lib, rs);
    NormCanonical(lib, rs);
    assert Canon(lib, n + [r]) == n + [CanonRule(lib, r)];
    assert Canon(lib, rs + [r]) == Canon(lib, rs) + [CanonRule(lib, r)];
    ExpandMerge(Canon(lib, rs));
    ExpandAppend(n, [CanonRule(lib, r)]);
    ExpandAppend(Canon(lib, rs), [CanonRule(lib, r)]);
    MergeOfSameExpansion(n + [CanonRule(lib, r)], Canon(lib, rs) + [CanonRule(lib, r)]);
  }

  /** Appending to a normal list: the new rule either joins the last entry as its udp twin or is added as it stands. */
  lemma {:induction false} MergeSnoc(rs: seq<LRule>, r: LRule)
    requires NoTwins(rs)
    ensures Merge(rs + [r]) ==
            if rs != [] && Twin(rs[|rs| - 1], r)
            then rs[..|rs| - 1] + [WithProto(r, Both)]
            else rs + [r]
  {
    var s := rs + [r];
    if rs == [] {
      assert s == [r] && s[1..] == [];
    } else if |rs| == 1 {
      assert s == [rs[0], r] && s[2..] == [] && s[1..] == [r];
      assert [r][1..] == [];
    } else {
      assert !Twin(rs[0], rs[0 + 1]) && s[1] == rs[1];
      assert s[1..] == rs[1..] + [r];
      forall i | 0 <= i < |rs[1..]| - 1 ensures !Twin(rs[1..][i], rs[1..][i + 1]) {
        assert rs[1..][i] == rs[i + 1] && rs[1..][i + 1] == rs[i + 2];
      }
      MergeSnoc(rs[1..], r);
      assert [rs[0]] + rs[1..][..|rs| - 2] == rs[..|rs| - 1];
    }
  }

  lemma {:induction false} ExpandStorable(lib: Lib, rs: seq<LRule>)
    requires StorableRules(lib, rs)
    ensures StorableRules(lib, Expand(rs))
  {
    if rs != [] {
      ExpandStorable(lib, rs[1..]);
    }
  }

  lemma {:induction false} MergeStorable(lib: Lib, rs: seq<LRule>)
    requires StorableRules(lib, rs)
    ensures StorableRules(lib, Merge(rs))
  {
    if rs == [] {
    } else if |rs| > 1 && Twin(rs[0], rs[1]) {
      MergeStorable(lib, rs[2..]);
    } else {
      MergeStorable(lib, rs[1..]);
    }
  }

  lemma NormStorable(lib: Lib, rs: seq<LRule>)
    requires Lawful(lib) && StorableRules(lib, rs)
    ensures StorableRules(lib, Norm(lib, rs))
  {
    forall i | 0 <= i < |rs| ensures Storable(lib, CanonRule(lib, rs[i])) {
      assert Storable(lib, rs[i]);
      if rs[i].from != "" {
        ShowIPText(lib, lib.parseIP(rs[i].from).value);
      }
    }
    MergeStorable(lib, Canon(lib, rs));
  }

  lemma {:induction false} MergeValid(lib: Lib, rs: seq<LRule>)
    requires ValidRules(lib, rs)
    ensures ValidRules(lib, Merge(rs))
  {
    if rs == [] {
    } else if |rs| > 1 && Twin(rs[0], rs[1]) {
      MergeValid(lib, rs[2..]);
    } else {
      MergeValid(lib, rs[1..]);
    }
  }

  lemma NormValid(lib: Lib, rs: seq<LRule>)
    requires Lawful(lib) && ValidRules(lib, rs)
    ensures ValidRules(lib, Norm(lib, rs))
  {
    forall i | 0 <= i < |rs| ensures ValidRule(lib, CanonRule(lib, rs[i])) {
      if rs[i].from != "" {
        ShowIPText(lib, lib.parseIP(rs[i].from).value);
      }
    }
    MergeValid(lib, Canon(lib, rs));
  }
}
