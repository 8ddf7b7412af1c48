/** The login limiter and the order in which Login consults it, under concurrent requests
    (internal/server/api/auth.go). */
module LoginLimiter {
  import opened GoLib

  /** `loginLimiter` without its lock. Times are clock readings in any fixed unit. */
  datatype Limits = Limits(windowStart: int, failures: map<string, nat>)

  function Count(m: map<string, nat>, ip: string): nat {
    if ip in m then m[ip] else 0
  }

  /** The lazy roll: `since` is the reading inside time.Since, `now` the later one inside time.Now. */
  function Rolled(l: Limits, window: int, since: int, now: int): Limits {
    if since - l.windowStart >= window then Limits(now, map[]) else l
  }

  function AfterFail(l: Limits, window: int, ip: string, since: int, now: int): Limits {
    var r := Rolled(l, window, since, now);
    r.(failures := r.failures[ip := Count(r.failures, ip) + 1])
  }

  class Limiter {
    const limit: nat
    const window: int
    var windowStart: int
    var failures: map<string, nat>

    constructor (limit: nat, window: int, start: int)
      ensures this.limit == limit && this.window == window && Now() == Limits(start, map[])
    {
      this.limit, this.window := limit, window;
      windowStart, failures := start, map[];
    }

    function Now(): Limits
      reads this
    {
      Limits(windowStart, failures)
    }

    method Blocked(ip: string, since: int, now: int) returns (blocked: bool)
      modifies this
      ensures Now() == Rolled(old(Now()), window, since, now)
      ensures blocked <==> Count(Now().failures, ip) >= limit
    {
      if since - windowStart >= window {
        windowStart := now;
        failures := map[];
      }
      blocked := Count(failures, ip) >= limit;
    }

    method Fail(ip: string, since: int, now: int)
      modifies this
      ensures Now() == AfterFail(old(Now()), window, ip, since, now)
    {
      if since - windowStart >= window {
        windowStart := now;
        failures := map[];
      }
      failures := failures[ip := Count(failures, ip) + 1];
    }

    method Reset(ip: string)
      modifies this
      ensures Now() == old(Now()).(failures := old(failures) - {ip})
    {
      failures := failures - {ip};
    }

    /** `Login`: consult, check the credentials, record. Answers whether a credential failure was recorded. */
    method Login(a: Attempt) returns (failed: bool)
      modifies this
      ensures Handled(old(Now()), limit, window, a) == (Now(), failed)
    {
      var blocked := Blocked(a.ip, a.t0, a.t1);
      if blocked || a.outcome == Malformed {
        return false;
      }
      if a.outcome == BadCredentials {
        Fail(a.ip, a.t2, a.t3);
        return true;
      }
      Reset(a.ip);
      return false;
    }
  }

  // ---- one request, undisturbed ------------------------------------------------------------------------

  datatype Verdict = Malformed | BadCredentials | Success

  /** One request, with the clock readings it would make: two when consulting, two when recording a failure. */
  datatype Attempt = Attempt(ip: string, outcome: Verdict, t0: int, t1: int, t2: int, t3: int)

  function Handled(l: Limits, limit: nat, window: int, a: Attempt): (Limits, bool) {
    var b := Rolled(l, window, a.t0, a.t1);
    if Count(b.failures, a.ip) >= limit || a.outcome == Malformed then (b, false)
    else if a.outcome == BadCredentials then (AfterFail(b, window, a.ip, a.t2, a.t3), true)
    else (b.(failures := b.failures - {a.ip}), false)
  }

  // ---- interleaved requests -------------------------------------------------------------------------------

  type RequestId = nat

  /** A recorded failure: whose, when (the reading that decided, or the start of the window it opened), and in the window
      started when. */
  datatype Failure = Failure(ip: string, at: int, windowStart: int)

  /** `open` are the requests that `blocked` let through and that have not been answered, with their addresses. */
  datatype State = State(limits: Limits, clock: int, open: map<RequestId, string>, fails: seq<Failure>, succeeded: set<string>)

  /** The locked sections of requests, any number of which may be under way; readings are made under the lock. */
  datatype Step =
    | Consult(id: RequestId, ip: string, since: int, now: int)   // blocked
    | Reject(id: RequestId)                                      // malformed request
    | Wrong(id: RequestId, since: int, now: int)                 // wrong credentials: fail
    | Right(id: RequestId)                                       // right credentials: reset

  function Start(start: int): State {
    State(Limits(start, map[]), start, map[], [], {})
  }

  function Next(s: State, limit: nat, window: int, step: Step): Option<State> {
    match step
    case Consult(id, ip, since, now) =>
      if id in s.open || !(s.clock <= since <= now) then None
      else
        var r := Rolled(s.limits, window, since, now);
        Some(s.(limits := r, clock := now, open := if Count(r.failures, ip) >= limit then s.open else s.open[id := ip]))
    case Reject(id) => if id in s.open then Some(s.(open := s.open - {id})) else None
    case Wrong(id, since, now) =>
      if id !in s.open || !(s.clock <= since <= now) then None
      else
        var ip, l := s.open[id], AfterFail(s.limits, window, s.open[id], since, now);
        var at := if since - s.limits.windowStart >= window then now else since;
        Some(s.(limits := l, clock := now, open := s.open - {id}, fails := s.fails + [Failure(ip, at, l.windowStart)]))
    case Right(id) =>
      if id !in s.open then None
      else Some(s.(limits := s.limits.(failures := s.limits.failures - {s.open[id]}), open := s.open - {id},
                   succeeded := s.succeeded + {s.open[id]}))
  }

  function Run(start: int, limit: nat, window: int, steps: seq<Step>): Option<State> {
    if steps == [] then Some(Start(start))
    else match Run(start, limit, window, steps[..|steps| - 1])
      case Some(s) => Next(s, limit, window, steps[|steps| - 1])
      case None => None
  }

  /** The requests of an address that are under way. */
  function Open(s: State, ip: string): set<RequestId> {
    set id | id in s.open && s.open[id] == ip
  }

  /** At no time are more than `k` requests of the address under way. */
  predicate AtMostAtOnce(start: int, limit: nat, window: int, steps: seq<Step>, ip: string, k: nat)
    requires Run(start, limit, window, steps).Some?
  {
    |Open(Run(start, limit, window, steps).value, ip)| <= k
    && (steps == [] || AtMostAtOnce(start, limit, window, steps[..|steps| - 1], ip, k))
  }

  function InWindow(fails: seq<Failure>, ip: string, w: int): nat {
    if fails == [] then 0
    else
      var f := fails[|fails| - 1];
      InWindow(fails[..|fails| - 1], ip, w) + if f.ip == ip && f.windowStart == w then 1 else 0
  }

  function Within(fails: seq<Failure>, ip: string, from: int, window: int): nat {
    if fails == [] then 0
    else
      var f := fails[|fails| - 1];
      Within(fails[..|fails| - 1], ip, from, window) + if f.ip == ip && from <= f.at < from + window then 1 else 0
  }

  // ---- the bookkeeping -----------------------------------------------------------------------------------

  /** Failures lie inside their window, windows come in order and at least a window length apart. */
  predicate Windows(fails: seq<Failure>, current: int, window: int) {
    && (forall i | 0 <= i < |fails| :: fails[i].windowStart <= fails[i].at < fails[i].windowStart + window)
    && (forall i, j | 0 <= i < |fails| && 0 <= j < |fails| && fails[i].windowStart < fails[j].windowStart ::
          fails[i].windowStart + window <= fails[j].windowStart)
    && (forall i | 0 <= i < |fails| ::
          fails[i].windowStart == current || fails[i].windowStart + window <= current)
  }

  ghost predicate Counted(s: State, ip: string) {
    ip !in s.succeeded ==> InWindow(s.fails, ip, s.limits.windowStart) == Count(s.limits.failures, ip)
  }

  /** What holds of every state of a run, for one address. */
  ghost predicate Inv(s: State, limit: nat, window: int, ip: string, k: nat) {
    && s.limits.windowStart <= s.clock && Windows(s.fails, s.limits.windowStart, window) && Counted(s, ip)
    && (Open(s, ip) != {} ==> limit > 0)
    && (ip !in s.succeeded ==>
          && (forall w :: InWindow(s.fails, ip, w) <= limit + k - 1)
          && InWindow(s.fails, ip, s.limits.windowStart) + |Open(s, ip)| <= limit + k - 1)
  }

  lemma InWindowSnoc(fails: seq<Failure>, f: Failure, ip: string, w: int)
    ensures InWindow(fails + [f], ip, w) == InWindow(fails, ip, w) + if f.ip == ip && f.windowStart == w then 1 else 0
  {
    assert (fails + [f])[..|fails|] == fails;
  }

  lemma {:induction false} NoneInNewWindow(fails: seq<Failure>, ip: string, w: int)
    requires forall i | 0 <= i < |fails| :: fails[i].windowStart != w
    ensures InWindow(fails, ip, w) == 0
  {
    if fails != [] {
      NoneInNewWindow(fails[..|fails| - 1], ip, w);
    }
  }

  /** Rolling keeps the bookkeeping: a new window starts empty, a window length or more after the old one. */
  lemma RollKeeps(s: State, limit: nat, window: int, ip: string, k: nat, since: int, now: int)
    requires Inv(s, limit, window, ip, k) && window > 0 && s.clock <= since <= now && |Open(s, ip)| <= k
    ensures var t := s.(limits := Rolled(s.limits, window, since, now), clock := now); Inv(t, limit, window, ip, k)
  {
    var t := s.(limits := Rolled(s.limits, window, since, now), clock := now);
    assert Open(t, ip) == Open(s, ip);
    if since - s.limits.windowStart >= window {
      NoneInNewWindow(s.fails, ip, now);
      if Open(s, ip) == {} {
        assert |Open(s, ip)| == 0;
      }
    }
  }

  lemma OpenGains(s: State, id: RequestId, ip: string, other: string)
    requires id !in s.open
    ensures Open(s.(open := s.open[id := other]), ip) == if ip == other then Open(s, ip) + {id} else Open(s, ip)
    ensures id !in Open(s, ip)
  {
  }

  lemma OpenLoses(s: State, id: RequestId, ip: string)
    requires id in s.open
    ensures Open(s.(open := s.open - {id}), ip) == Open(s, ip) - {id}
    ensures s.open[id] == ip ==> id in Open(s, ip)
    ensures |Open(s.(open := s.open - {id}), ip)| == |Open(s, ip)| - if s.open[id] == ip then 1 else 0
  {
    assert s.open[id] != ip ==> Open(s, ip) - {id} == Open(s, ip);
  }

  lemma ConsultKeeps(s: State, limit: nat, window: int, step: Step, ip: string, k: nat)
    requires Inv(s, limit, window, ip, k) && window > 0 && |Open(s, ip)| <= k && step.Consult?
    requires Next(s, limit, window, step).Some? && |Open(Next(s, limit, window, step).value, ip)| <= k
    ensures Inv(Next(s, limit, window, step).value, limit, window, ip, k)
  {
    hide InWindow, Windows;
    RollKeeps(s, limit, window, ip, k, step.since, step.now);
    var r := s.(limits := Rolled(s.limits, window, step.since, step.now), clock := step.now);
    var t := Next(s, limit, window, step).value;
    if Count(r.limits.failures, step.ip) < limit {
      OpenGains(r, step.id, ip, step.ip);
      assert Open(t, ip) == Open(r.(open := r.open[step.id := step.ip]), ip);
    } else {
      assert Open(t, ip) == Open(r, ip);
    }
  }

  lemma WrongKeeps(s: State, limit: nat, window: int, step: Step, ip: string, k: nat)
    requires Inv(s, limit, window, ip, k) && window > 0 && |Open(s, ip)| <= k && step.Wrong?
    requires Next(s, limit, window, step).Some?
    ensures Inv(Next(s, limit, window, step).value, limit, window, ip, k)
  {
    hide InWindow, Windows;
    RollKeeps(s, limit, window, ip, k, step.since, step.now);
    var r := s.(limits := Rolled(s.limits, window, step.since, step.now), clock := step.now);
    var t := Next(s, limit, window, step).value;
    var f := t.fails[|s.fails|];
    assert t.fails == s.fails + [f];
    WindowsSnoc(s.fails, f, r.limits.windowStart, window);
    InWindowSnoc(s.fails, f, ip, r.limits.windowStart);
    OpenLoses(r, step.id, ip);
    assert Open(t, ip) == Open(r.(open := r.open - {step.id}), ip);
    if ip !in t.succeeded {
      forall w ensures InWindow(t.fails, ip, w) <= limit + k - 1 {
        InWindowSnoc(s.fails, f, ip, w);
      }
    }
  }

  lemma WindowsSnoc(fails: seq<Failure>, f: Failure, current: int, window: int)
    requires Windows(fails, current, window) && f.windowStart == current && current <= f.at < current + window
    ensures Windows(fails + [f], current, window)
  {
  }

  lemma LeaveKeeps(s: State, limit: nat, window: int, step: Step, ip: string, k: nat)
    requires Inv(s, limit, window, ip, k) && (step.Reject? || step.Right?) && Next(s, limit, window, step).Some?
    ensures Inv(Next(s, limit, window, step).value, limit, window, ip, k)
  {
    hide InWindow, Windows;
    var t := Next(s, limit, window, step).value;
    OpenLoses(s, step.id, ip);
    assert Open(t, ip) == Open(s.(open := s.open - {step.id}), ip);
  }

  lemma {:induction false} RunKeeps(start: int, limit: nat, window: int, steps: seq<Step>, ip: string, k: nat)
    requires window > 0 && k > 0 && Run(start, limit, window, steps).Some? && AtMostAtOnce(start, limit, window, steps, ip, k)
    ensures Inv(Run(start, limit, window, steps).value, limit, window, ip, k)
  {
    if steps == [] {
      StartKeeps(start, limit, window, ip, k);
    } else {
      hide Next, Inv, Open;
      var before, step := steps[..|steps| - 1], steps[|steps| - 1];
      RunKeeps(start, limit, window, before, ip, k);
      var s := Run(start, limit, window, before).value;
      assert |Open(s, ip)| <= k;
      match step
      case Consult(_, _, _, _) => ConsultKeeps(s, limit, window, step, ip, k);
      case Wrong(_, _, _) => WrongKeeps(s, limit, window, step, ip, k);
      case _ => LeaveKeeps(s, limit, window, step, ip, k);
    }
  }

  lemma StartKeeps(start: int, limit: nat, window: int, ip: string, k: nat)
    requires k > 0
    ensures Inv(Start(start), limit, window, ip, k)
  {
    assert Open(Start(start), ip) == {};
  }

  // ---- the bounds -------------------------------------------------------------------------------------------

  /** Per window: in every interleaving, an address that never logs in and has at most `k` requests under way at a time
      gets at most `limit + k - 1` recorded failures; one request at a time, `limit`. */
  lemma AtMostLimitPerWindow(start: int, limit: nat, window: int, steps: seq<Step>, ip: string, k: nat, w: int)
    requires window > 0 && k > 0 && Run(start, limit, window, steps).Some? && AtMostAtOnce(start, limit, window, steps, ip, k)
    requires ip !in Run(start, limit, window, steps).value.succeeded
    ensures InWindow(Run(start, limit, window, steps).value.fails, ip, w) <= limit + k - 1
  {
    hide Run;
    RunKeeps(start, limit, window, steps, ip, k);
  }

  /** Failures of an interval of one window length belong to two windows at most. */
  lemma {:induction false} TwoWindows(fails: seq<Failure>, ip: string, from: int, window: int, w1: int, w2: int)
    requires forall i | 0 <= i < |fails| && from <= fails[i].at < from + window ::
               fails[i].windowStart == w1 || fails[i].windowStart == w2
    ensures Within(fails, ip, from, window) <= InWindow(fails, ip, w1) + InWindow(fails, ip, w2)
  {
    if fails != [] {
      TwoWindows(fails[..|fails| - 1], ip, from, window, w1, w2);
    }
  }

  /** Per interval: at most twice that in any half-open interval of window length, wherever it lies and even when the
      window rolls between a consultation and its recording. */
  lemma AtMostTwiceLimit(start: int, limit: nat, window: int, steps: seq<Step>, ip: string, k: nat, from: int)
    requires window > 0 && k > 0 && Run(start, limit, window, steps).Some? && AtMostAtOnce(start, limit, window, steps, ip, k)
    requires ip !in Run(start, limit, window, steps).value.succeeded
    ensures Within(Run(start, limit, window, steps).value.fails, ip, from, window) <= 2 * (limit + k - 1)
  {
    hide Run, InWindow, Within;
    var s := Run(start, limit, window, steps).value;
    RunKeeps(start, limit, window, steps, ip, k);
    var w1, w2 := s.limits.windowStart, s.limits.windowStart;
    if i :| 0 <= i < |s.fails| && from <= s.fails[i].at < from + window {
      w1 := s.fails[i].windowStart;
      w2 := w1;
      if j :| 0 <= j < |s.fails| && from <= s.fails[j].at < from + window && s.fails[j].windowStart != w1 {
        w2 := s.fails[j].windowStart;
      }
    }
    TwoWindows(s.fails, ip, from, window, w1, w2);
  }

  /** And no fewer: in every interleaving, a request of an address that never logged in is let through exactly when the
      window is over or holds fewer than `limit` of its failures. */
  lemma LetThroughExactly(start: int, limit: nat, window: int, steps: seq<Step>, step: Step)
    requires window > 0 && limit > 0 && step.Consult? && Run(start, limit, window, steps).Some?
    requires Next(Run(start, limit, window, steps).value, limit, window, step).Some?
    requires step.ip !in Run(start, limit, window, steps).value.succeeded
    ensures var s := Run(start, limit, window, steps).value;
            step.id in Next(s, limit, window, step).value.open
            <==> step.since - s.limits.windowStart >= window || InWindow(s.fails, step.ip, s.limits.windowStart) < limit
  {
    hide InWindow;
    var k := ManyEnough(start, limit, window, steps, step.ip);
    RunKeeps(start, limit, window, steps, step.ip, k);
  }

  /** A login with right credentials forgets the address's failures and nobody else's: its next request is let through,
      whatever was counted before. */
  lemma SuccessForgets(s: State, limit: nat, window: int, id: RequestId)
    requires Next(s, limit, window, Right(id)).Some? && limit > 0
    ensures var t := Next(s, limit, window, Right(id)).value;
            && (forall ip :: Count(t.limits.failures, ip) == if ip == s.open[id] then 0 else Count(s.limits.failures, ip))
            && t.fails == s.fails && t.limits.windowStart == s.limits.windowStart
            && forall next, since, now | Next(t, limit, window, Consult(next, s.open[id], since, now)).Some? ::
                 next in Next(t, limit, window, Consult(next, s.open[id], since, now)).value.open
  {
  }

  lemma {:induction false} ManyEnough(start: int, limit: nat, window: int, steps: seq<Step>, ip: string) returns (k: nat)
    requires Run(start, limit, window, steps).Some?
    ensures k > 0 && AtMostAtOnce(start, limit, window, steps, ip, k)
  {
    hide Next, Open;
    var now := |Open(Run(start, limit, window, steps).value, ip)|;
    if steps == [] {
      k := now + 1;
    } else {
      var before := ManyEnough(start, limit, window, steps[..|steps| - 1], ip);
      k := if before > now then before else now + 1;
      Wider(start, limit, window, steps[..|steps| - 1], ip, before, k);
    }
  }

  lemma {:induction false} Wider(start: int, limit: nat, window: int, steps: seq<Step>, ip: string, k: nat, m: nat)
    requires Run(start, limit, window, steps).Some? && AtMostAtOnce(start, limit, window, steps, ip, k) && k <= m
    ensures AtMostAtOnce(start, limit, window, steps, ip, m)
  {
    hide Next, Open;
    if steps != [] {
      Wider(start, limit, window, steps[..|steps| - 1], ip, k, m);
    }
  }

  // ---- the bound is reached ---------------------------------------------------------------------------------

  /** A state of one address at one time: `c` failures recorded, requests `lo..hi` under way. */
  ghost predicate Stage(s: State, ip: string, c: nat, lo: nat, hi: nat) {
    && lo <= hi && s.limits == Limits(0, if c == 0 then map[] else map[ip := c]) && s.clock == 0 && s.succeeded == {}
    && (forall id :: id in s.open <==> lo <= id < hi) && (forall id | id in s.open :: s.open[id] == ip)
    && InWindow(s.fails, ip, 0) == c
  }

  /** The numbers `lo..hi`. */
  function Range(lo: nat, hi: nat): (r: set<nat>)
    requires lo <= hi
    ensures |r| == hi - lo && forall i :: i in r <==> lo <= i < hi
    decreases hi - lo
  {
    if lo == hi then {} else Range(lo, hi - 1) + {hi - 1}
  }

  lemma OpenStage(s: State, ip: string, c: nat, lo: nat, hi: nat)
    requires Stage(s, ip, c, lo, hi)
    ensures |Open(s, ip)| == hi - lo
  {
    assert Open(s, ip) == Range(lo, hi);
  }

  lemma ConsultStage(s: State, limit: nat, window: int, ip: string, c: nat, lo: nat, hi: nat)
    requires Stage(s, ip, c, lo, hi) && c < limit && window > 0
    ensures Next(s, limit, window, Consult(hi, ip, 0, 0)).Some?
    ensures Stage(Next(s, limit, window, Consult(hi, ip, 0, 0)).value, ip, c, lo, hi + 1)
  {
  }

  lemma WrongStage(s: State, limit: nat, window: int, ip: string, c: nat, lo: nat, hi: nat)
    requires Stage(s, ip, c, lo, hi) && lo < hi && window > 0
    ensures Next(s, limit, window, Wrong(lo, 0, 0)).Some?
    ensures Stage(Next(s, limit, window, Wrong(lo, 0, 0)).value, ip, c + 1, lo + 1, hi)
  {
    hide InWindow;
    var t := Next(s, limit, window, Wrong(lo, 0, 0)).value;
    InWindowSnoc(s.fails, Failure(ip, 0, 0), ip, 0);
    assert map[ip := c][ip := c + 1] == map[ip := c + 1] && map[][ip := 1] == map[ip := 1];
  }

  lemma RunThen(start: int, limit: nat, window: int, steps: seq<Step>, step: Step)
    requires Run(start, limit, window, steps).Some?
    ensures Run(start, limit, window, steps + [step]) == Next(Run(start, limit, window, steps).value, limit, window, step)
  {
    hide Next;
    assert (steps + [step])[..|steps|] == steps;
  }

  /** `steps` is a run that stays within `k` requests at once and ends in such a state. */
  ghost predicate Reaches(steps: seq<Step>, limit: nat, window: int, ip: string, k: nat, c: nat, lo: nat, hi: nat) {
    && Run(0, limit, window, steps).Some? && AtMostAtOnce(0, limit, window, steps, ip, k)
    && Stage(Run(0, limit, window, steps).value, ip, c, lo, hi)
  }

  lemma MoreOpen(steps: seq<Step>, limit: nat, window: int, ip: string, k: nat, c: nat, lo: nat, hi: nat)
    requires Reaches(steps, limit, window, ip, k, c, lo, hi) && c < limit && window > 0 && hi - lo < k
    ensures Reaches(steps + [Consult(hi, ip, 0, 0)], limit, window, ip, k, c, lo, hi + 1)
  {
    hide Next, Stage, Open;
    var more := steps + [Consult(hi, ip, 0, 0)];
    RunThen(0, limit, window, steps, Consult(hi, ip, 0, 0));
    ConsultStage(Run(0, limit, window, steps).value, limit, window, ip, c, lo, hi);
    OpenStage(Run(0, limit, window, more).value, ip, c, lo, hi + 1);
    assert more[..|more| - 1] == steps;
  }

  lemma OneWrong(steps: seq<Step>, limit: nat, window: int, ip: string, k: nat, c: nat, lo: nat, hi: nat)
    requires Reaches(steps, limit, window, ip, k, c, lo, hi) && lo < hi && window > 0 && hi - lo <= k
    ensures Reaches(steps + [Wrong(lo, 0, 0)], limit, window, ip, k, c + 1, lo + 1, hi)
  {
    hide Next, Stage, Open;
    var more := steps + [Wrong(lo, 0, 0)];
    RunThen(0, limit, window, steps, Wrong(lo, 0, 0));
    WrongStage(Run(0, limit, window, steps).value, limit, window, ip, c, lo, hi);
    OpenStage(Run(0, limit, window, more).value, ip, c + 1, lo + 1, hi);
    assert more[..|more| - 1] == steps;
  }

  lemma {:induction false} OneByOne(limit: nat, window: int, ip: string, k: nat, c: nat) returns (steps: seq<Step>)
    requires c < limit && window > 0 && k > 0
    ensures Reaches(steps, limit, window, ip, k, c, c, c)
    decreases c
  {
    if c == 0 {
      steps := [];
      assert Open(Start(0), ip) == {};
    } else {
      var before := OneByOne(limit, window, ip, k, c - 1);
      hide Reaches;
      MoreOpen(before, limit, window, ip, k, c - 1, c - 1, c - 1);
      OneWrong(before + [Consult(c - 1, ip, 0, 0)], limit, window, ip, k, c - 1, c - 1, c);
      steps := before + [Consult(c - 1, ip, 0, 0)] + [Wrong(c - 1, 0, 0)];
    }
  }

  lemma {:induction false} AllConsult(limit: nat, window: int, ip: string, k: nat, n: nat) returns (steps: seq<Step>)
    requires limit > 0 && window > 0 && n <= k && k > 0
    ensures Reaches(steps, limit, window, ip, k, limit - 1, limit - 1, limit - 1 + n)
    decreases n
  {
    hide Reaches;
    if n == 0 {
      steps := OneByOne(limit, window, ip, k, limit - 1);
    } else {
      var before := AllConsult(limit, window, ip, k, n - 1);
      MoreOpen(before, limit, window, ip, k, limit - 1, limit - 1, limit - 1 + n - 1);
      steps := before + [Consult(limit - 1 + n - 1, ip, 0, 0)];
    }
  }

  lemma {:induction false} AllWrong(limit: nat, window: int, ip: string, k: nat, n: nat) returns (steps: seq<Step>)
    requires limit > 0 && window > 0 && n <= k && k > 0
    ensures Reaches(steps, limit, window, ip, k, limit - 1 + n, limit - 1 + n, limit - 1 + k)
    decreases n
  {
    hide Reaches;
    if n == 0 {
      steps := AllConsult(limit, window, ip, k, k);
    } else {
      var before := AllWrong(limit, window, ip, k, n - 1);
      OneWrong(before, limit, window, ip, k, limit - 1 + n - 1, limit - 1 + n - 1, limit - 1 + k);
      steps := before + [Wrong(limit - 1 + n - 1, 0, 0)];
    }
  }

  /** The bound is the best there is: `limit - 1` failures one after the other, then `k` requests that are all let
      through before any of them fails. With two at once and limit 1, two failures are recorded. */
  lemma BoundReached(limit: nat, window: int, ip: string, k: nat) returns (steps: seq<Step>)
    requires limit > 0 && window > 0 && k > 0
    ensures Run(0, limit, window, steps).Some? && AtMostAtOnce(0, limit, window, steps, ip, k)
    ensures var s := Run(0, limit, window, steps).value;
            ip !in s.succeeded && InWindow(s.fails, ip, 0) == limit + k - 1
  {
    steps := AllWrong(limit, window, ip, k, k);
  }

  // ---- one request after the other ---------------------------------------------------------------------------

  /** The steps a request takes when nothing comes between them. */
  function InARow(l: Limits, limit: nat, window: int, a: Attempt, id: RequestId): seq<Step> {
    var consult := Consult(id, a.ip, a.t0, a.t1);
    if Count(Rolled(l, window, a.t0, a.t1).failures, a.ip) >= limit then [consult]
    else match a.outcome
      case Malformed => [consult, Reject(id)]
      case BadCredentials => [consult, Wrong(id, a.t2, a.t3)]
      case Success => [consult, Right(id)]
  }

  /** An undisturbed login is its steps in a row. */
  lemma LoginInARow(start: int, limit: nat, window: int, steps: seq<Step>, a: Attempt, id: RequestId)
    requires Run(start, limit, window, steps).Some? && id !in Run(start, limit, window, steps).value.open
    requires Run(start, limit, window, steps).value.clock <= a.t0 <= a.t1 <= a.t2 <= a.t3
    ensures var s := Run(start, limit, window, steps).value;
            var done := Run(start, limit, window, steps + InARow(s.limits, limit, window, a, id));
            && done.Some? && done.value.open == s.open
            && done.value.limits == Handled(s.limits, limit, window, a).0
            && (|done.value.fails| == |s.fails| + 1 <==> Handled(s.limits, limit, window, a).1)
  {
    hide Run;
    var s := Run(start, limit, window, steps).value;
    var row := InARow(s.limits, limit, window, a, id);
    RunThen(start, limit, window, steps, row[0]);
    if |row| > 1 {
      assert s.open[id := a.ip] - {id} == s.open;
      RunThen(start, limit, window, steps + [row[0]], row[1]);
      assert steps + row == steps + [row[0]] + [row[1]];
    } else {
      assert row == [row[0]];
    }
  }
}
