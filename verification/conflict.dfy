/** Refusing to manage next to chains that could decide packets first (nftfw.go: conflictScan). */
module Conflict {
  import opened GoLib
  import K = Kernel

  datatype Family = INet | IPv4 | IPv6 | Bridge | Netdev | OtherFamily

  /** A chain as ListChains reports it; only base chains have a hook and a priority. */
  datatype Chain = Chain(family: Family, table: string, name: string,
                         hook: Option<int>, priority: Option<int>, policy: Option<K.Policy>, rules: seq<K.Program>)

  const TABLE_NAME := "gopit"
  const HOOK_INPUT: int := 1
  const PRIORITY_FILTER: int := 0

  predicate Own(ch: Chain) {
    ch.table == TABLE_NAME && ch.family == INet
  }

  /** Sees input packets no later than the gopit base chain. */
  predicate SeesInput(ch: Chain) {
    ch.hook == Some(HOOK_INPUT) && ch.priority.Some? && ch.priority.value <= PRIORITY_FILTER
  }

  predicate Shadows(ch: Chain) {
    !Own(ch) && SeesInput(ch) && (ch.rules != [] || ch.policy == Some(K.PolicyDrop))
  }

  predicate Clear(chains: seq<Chain>) {
    forall i | 0 <= i < |chains| :: !Shadows(chains[i])
  }

  /** Not a chain of table gopit in family inet, and run at the input hook (number 1) at filter priority (0) or before. */
  predicate Ahead(ch: Chain) {
    !Gopits(ch) && ch.hook == Some(1) && ch.priority.Some? && ch.priority.value <= 0
  }

  predicate Gopits(ch: Chain) {
    ch.table == "gopit" && ch.family == INet
  }

  /** `conflictScan`: no error exactly when no chain shadows. */
  method ConflictScan(chains: seq<Chain>) returns (ok: bool, foreign: seq<Chain>)
    ensures ok <==> Clear(chains)
    ensures forall ch :: ch in foreign <==>
              ch in chains && Ahead(ch) && (ch.rules != [] || ch.policy == Some(K.PolicyDrop))
  {
    foreign := [];
    var i := 0;
    while i < |chains|
      invariant 0 <= i <= |chains|
      invariant forall ch :: ch in foreign <==> ch in chains[..i] && Shadows(ch)
    {
      var ch := chains[i];
      assert chains[..i + 1] == chains[..i] + [ch];
      if (ch.table == TABLE_NAME && ch.family == INet) || ch.hook.None? || ch.hook.value != HOOK_INPUT ||
         ch.priority.None? || ch.priority.value > PRIORITY_FILTER {
        i := i + 1;
        continue;
      }
      var shadow := |ch.rules| > 0 || (ch.policy.Some? && ch.policy.value == K.PolicyDrop);
      if shadow {
        foreign := foreign + [ch];
      }
      i := i + 1;
    }
    assert chains[..i] == chains;
    ok := |foreign| == 0;
    assert forall j | 0 <= j < |chains| :: chains[j] in chains;
    assert !ok ==> foreign[0] in foreign;
  }

  // ---- why a clear scan is enough ---------------------------------------------------------

  function DefaultOutcome(ch: Chain): K.Outcome {
    if ch.policy == Some(K.PolicyDrop) then K.Dropped else K.Accepted
  }

  /** How the kernel runs some base chain on a packet: unknown, except that an empty chain gives its policy. */
  type ChainRunner = (Chain, K.Packet) -> K.Outcome

  ghost predicate RunsEmptyChains(run: ChainRunner) {
    forall ch: Chain, pkt: K.Packet | ch.rules == [] :: run(ch, pkt) == DefaultOutcome(ch)
  }

  /** Base chains of the input hook, in ascending priority. */
  predicate Ascending(order: seq<Chain>) {
    && (forall i | 0 <= i < |order| :: order[i].hook == Some(1) && order[i].priority.Some?)
    && (forall i, j | 0 <= i < j < |order| :: order[i].priority.value <= order[j].priority.value)
  }

  /** The order in which the kernel runs the chains at the input hook: all those that were listed, gopit's own, and no
      others; chains of equal priority in any order. */
  predicate KernelOrder(order: seq<Chain>, chains: seq<Chain>) {
    && Ascending(order)
    && (forall ch | ch in order :: Gopits(ch) || ch in chains)
    && (forall ch | ch in chains && !Gopits(ch) && ch.hook == Some(1) && ch.priority.Some? :: ch in order)
  }

  /** An accept only ends the chain, anything else ends the traversal. */
  function Fate(order: seq<Chain>, run: ChainRunner, own: K.Outcome, pkt: K.Packet): K.Outcome {
    if order == [] then K.Accepted
    else
      var o := if Gopits(order[0]) then own else run(order[0], pkt);
      if o == K.Accepted then Fate(order[1..], run, own, pkt) else o
  }

  predicate Late(ch: Chain) {
    ch.priority.Some? && ch.priority.value > 0
  }

  /** The chains run at filter priority or before. */
  function Front(order: seq<Chain>): seq<Chain> {
    if order == [] || Late(order[0]) then [] else [order[0]] + Front(order[1..])
  }

  /** The chains run after it. */
  function Behind(order: seq<Chain>): seq<Chain> {
    if order == [] || Late(order[0]) then order else Behind(order[1..])
  }

  /** A chain of gopit's is among the first. */
  predicate Hooked(order: seq<Chain>) {
    order != [] && !Late(order[0]) && (Gopits(order[0]) || Hooked(order[1..]))
  }

  lemma {:induction false} FateSplit(order: seq<Chain>, run: ChainRunner, own: K.Outcome, pkt: K.Packet)
    ensures var first := Fate(Front(order), run, own, pkt);
            Fate(order, run, own, pkt) == if first == K.Accepted then Fate(Behind(order), run, own, pkt) else first
  {
    if order != [] && !Late(order[0]) {
      FateSplit(order[1..], run, own, pkt);
      assert Front(order)[1..] == Front(order[1..]);
    }
  }

  lemma AscendingTail(order: seq<Chain>)
    requires Ascending(order) && order != []
    ensures Ascending(order[1..])
  {
    var rest := order[1..];
    forall i, j | 0 <= i < j < |rest| ensures rest[i].priority.value <= rest[j].priority.value {
      assert rest[i] == order[i + 1] && rest[j] == order[j + 1];
    }
  }

  /** A chain of filter priority is among the first. */
  lemma {:induction false} HookedAt(order: seq<Chain>, g: nat)
    requires Ascending(order) && g < |order| && Gopits(order[g]) && order[g].priority == Some(0)
    ensures Hooked(order)
  {
    if g > 0 {
      AscendingTail(order);
      assert order[1..][g - 1] == order[g] && order[0].priority.value <= order[g].priority.value;
      HookedAt(order[1..], g - 1);
    }
  }

  lemma {:induction false} ClearFront(order: seq<Chain>, run: ChainRunner, own: K.Outcome, pkt: K.Packet)
    requires RunsEmptyChains(run) && Ascending(order) && forall i | 0 <= i < |order| :: !Shadows(order[i])
    ensures Fate(Front(order), run, own, pkt) == if Hooked(order) then own else K.Accepted
  {
    if order != [] && !Late(order[0]) {
      AscendingTail(order);
      ClearFront(order[1..], run, own, pkt);
      assert Front(order)[1..] == Front(order[1..]);
      assert !Shadows(order[0]);
      assert Gopits(order[0]) || run(order[0], pkt) == K.Accepted;
    }
  }

  /** The scan is sound: once it passes, no packet is decided by a chain that runs before gopit's or beside it, whatever
      those chains are; gopit's verdict stands, and what it accepts goes on to the chains of later priority. */
  lemma ClearFate(chains: seq<Chain>, order: seq<Chain>, run: ChainRunner, own: K.Outcome, pkt: K.Packet)
    requires Clear(chains) && KernelOrder(order, chains) && RunsEmptyChains(run)
    ensures forall i | 0 <= i < |order| && Ahead(order[i]) :: run(order[i], pkt) == K.Accepted
    ensures Fate(order, run, own, pkt) ==
            if Hooked(order) && own != K.Accepted then own else Fate(Behind(order), run, own, pkt)
  {
    forall i | 0 <= i < |order| ensures !Shadows(order[i]) {
      assert order[i] in order;
      if !Gopits(order[i]) {
        var j :| 0 <= j < |chains| && chains[j] == order[i];
        assert !Shadows(chains[j]);
      }
    }
    ClearFront(order, run, own, pkt);
    FateSplit(order, run, own, pkt);
    forall i | 0 <= i < |order| && Ahead(order[i]) ensures run(order[i], pkt) == K.Accepted {
      assert !Shadows(order[i]);
      assert run(order[i], pkt) == DefaultOutcome(order[i]);
    }
  }

  // ---- how conservative the scan is ----------------------------------------------------------

  /** No packet that gopit accepts is lost to a chain that runs before gopit's or beside it. */
  ghost predicate GopitDecides(order: seq<Chain>, run: ChainRunner) {
    forall pkt: K.Packet :: Fate(Front(order), run, K.Accepted, pkt) == K.Accepted
  }

  ghost predicate AllPass(order: seq<Chain>, run: ChainRunner) {
    forall i, pkt: K.Packet | 0 <= i < |order| && Ahead(order[i]) :: run(order[i], pkt) == K.Accepted
  }

  lemma {:induction false} PassingFront(order: seq<Chain>, run: ChainRunner, pkt: K.Packet)
    requires Ascending(order) && forall i | 0 <= i < |order| && Ahead(order[i]) :: run(order[i], pkt) == K.Accepted
    ensures Fate(Front(order), run, K.Accepted, pkt) == K.Accepted
  {
    if order != [] && !Late(order[0]) {
      AscendingTail(order);
      var rest := order[1..];
      forall i | 0 <= i < |rest| && Ahead(rest[i]) ensures run(rest[i], pkt) == K.Accepted { assert rest[i] == order[i + 1]; }
      PassingFront(rest, run, pkt);
      assert Front(order)[1..] == Front(rest);
      assert Gopits(order[0]) || Ahead(order[0]);
    }
  }

  lemma {:induction false} BlockedFront(order: seq<Chain>, run: ChainRunner, i: nat, pkt: K.Packet)
    requires Ascending(order) && i < |order| && Ahead(order[i]) && run(order[i], pkt) != K.Accepted
    ensures Fate(Front(order), run, K.Accepted, pkt) != K.Accepted
    decreases |order|
  {
    assert i > 0 ==> order[0].priority.value <= order[i].priority.value;
    assert Front(order)[1..] == Front(order[1..]);
    if i > 0 {
      AscendingTail(order);
      assert order[1..][i - 1] == order[i];
      BlockedFront(order[1..], run, i - 1, pkt);
    }
  }

  /** However the kernel runs chains, gopit decides what it accepts exactly when every foreign chain ahead of it lets
      every packet through. */
  lemma GopitDecidesExactly(order: seq<Chain>, run: ChainRunner)
    requires Ascending(order)
    ensures GopitDecides(order, run) <==> AllPass(order, run)
  {
    if AllPass(order, run) {
      forall pkt: K.Packet ensures Fate(Front(order), run, K.Accepted, pkt) == K.Accepted {
        PassingFront(order, run, pkt);
      }
    }
    if GopitDecides(order, run) {
      forall i, pkt: K.Packet | 0 <= i < |order| && Ahead(order[i]) ensures run(order[i], pkt) == K.Accepted {
        if run(order[i], pkt) != K.Accepted {
          BlockedFront(order, run, i, pkt);
          assert Fate(Front(order), run, K.Accepted, pkt) != K.Accepted;
        }
      }
    }
  }

  predicate NoRulesAhead(order: seq<Chain>) {
    forall i | 0 <= i < |order| && Ahead(order[i]) :: order[i].rules == []
  }

  /** The scan asks for more than that, and for exactly this: besides letting every packet through, the foreign chains
      ahead must have no rules. */
  lemma ClearExactly(chains: seq<Chain>, order: seq<Chain>, run: ChainRunner)
    requires RunsEmptyChains(run) && KernelOrder(order, chains)
    ensures Clear(chains) <==> GopitDecides(order, run) && NoRulesAhead(order)
  {
    hide GopitDecides;
    GopitDecidesExactly(order, run);
    if Clear(chains) {
      forall i | 0 <= i < |order| && Ahead(order[i]) ensures order[i].rules == [] && order[i].policy != Some(K.PolicyDrop) {
        ClearAhead(chains, order, i);
      }
      forall i, pkt: K.Packet | 0 <= i < |order| && Ahead(order[i]) ensures run(order[i], pkt) == K.Accepted {
        assert run(order[i], pkt) == DefaultOutcome(order[i]);
      }
    }
    if AllPass(order, run) && NoRulesAhead(order) {
      forall i | 0 <= i < |chains| ensures !Shadows(chains[i]) {
        if Ahead(chains[i]) {
          assert chains[i] in order;
          var j :| 0 <= j < |order| && order[j] == chains[i];
          var pkt := K.Packet("", K.CtNew, 0, "", "");
          assert run(order[j], pkt) == DefaultOutcome(order[j]);
        }
      }
    }
  }

  lemma ClearAhead(chains: seq<Chain>, order: seq<Chain>, i: nat)
    requires Clear(chains) && KernelOrder(order, chains) && i < |order| && Ahead(order[i])
    ensures order[i].rules == [] && order[i].policy != Some(K.PolicyDrop)
  {
    assert order[i] in order;
    var j :| 0 <= j < |chains| && chains[j] == order[i];
    assert !Shadows(chains[j]);
  }

  /** A chain run by its own rules, then its policy; the chains it may jump to are not followed. */
  function ByRules(): ChainRunner {
    (ch: Chain, pkt: K.Packet) =>
      match K.RunChain(ch.rules, pkt)
      case Continue => DefaultOutcome(ch)
      case Jumped(_) => DefaultOutcome(ch)
      case o => o
  }

  const ACCEPTING: Chain :=
    Chain(IPv4, "filter", "INPUT", Some(1), Some(0), Some(K.PolicyAccept), [[K.Verdict(K.VerdictAccept, "")]])

  /** The scan refuses a foreign chain whose only rule is an accept, although no packet is lost to it. */
  lemma HarmlessChainRefused()
    ensures !Clear([ACCEPTING]) && KernelOrder([ACCEPTING], [ACCEPTING]) && RunsEmptyChains(ByRules())
    ensures GopitDecides([ACCEPTING], ByRules())
  {
    assert Shadows([ACCEPTING][0]);
    forall p: K.Packet ensures Fate(Front([ACCEPTING]), ByRules(), K.Accepted, p) == K.Accepted {
      assert K.Run(ACCEPTING.rules[0], p, map[]) == K.Accepted;
      PassingFront([ACCEPTING], ByRules(), p);
    }
  }
}
