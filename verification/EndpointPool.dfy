/** The RPC endpoint pool: priority failover with a circuit breaker. */
module EndpointPool {
  import opened Common

  // Times are in a discrete unit; 0 in `until` means healthy.
  datatype Endpoint = Endpoint(failures: nat, until: int)

  datatype Limits = Limits(threshold: nat, cooldown: int)

  ghost predicate Sane(l: Limits) {
    l.threshold >= 1 && l.cooldown >= 1
  }

  function MarkSuccess(e: Endpoint): Endpoint {
    if e.failures != 0 || e.until != 0 then Endpoint(0, 0) else e
  }

  function MarkFailure(l: Limits, e: Endpoint, now: int): Endpoint {
    Endpoint(e.failures + 1, if e.failures + 1 >= l.threshold then now + l.cooldown else e.until)
  }

  // Tripped exactly from the threshold-th consecutive failure on.
  ghost predicate Coherent(l: Limits, e: Endpoint) {
    e.until >= 0 && (e.until == 0 <==> e.failures < l.threshold)
  }

  // Indices of the endpoints not cooling down, in priority order.
  function Healthy(eps: seq<Endpoint>, now: int, from: nat): (r: seq<nat>)
    requires from <= |eps|
    ensures forall i :: i in r <==> from <= i < |eps| && eps[i].until <= now
    ensures forall j, k :: 0 <= j < k < |r| ==> r[j] < r[k]
    decreases |eps| - from
  {
    if from == |eps| then []
    else
      var rest := Healthy(eps, now, from + 1);
      assert forall k :: 0 <= k < |rest| ==> rest[k] in rest;
      (if eps[from].until <= now then [from] else []) + rest
  }

  function All(n: nat): (r: seq<nat>)
    ensures |r| == n && (forall i :: 0 <= i < n ==> r[i] == i) && forall i: nat :: i in r <==> i < n
  {
    var r := seq(n, i requires 0 <= i < n => i);
    forall i: nat | i < n ensures i in r {
      assert r[i] == i;
    }
    r
  }

  // The healthy endpoints, or all of them when none is.
  function Candidates(eps: seq<Endpoint>, now: int): (r: seq<nat>)
    ensures forall i :: i in r ==> i < |eps|
    ensures forall j, k :: 0 <= j < k < |r| ==> r[j] < r[k]
    ensures eps != [] ==> r != []
    ensures (exists i :: 0 <= i < |eps| && eps[i].until <= now) ==>
              forall i: nat :: i in r <==> i < |eps| && eps[i].until <= now
    ensures (forall i :: 0 <= i < |eps| ==> eps[i].until > now) ==> forall i: nat :: i in r <==> i < |eps|
  {
    var h := Healthy(eps, now, 0);
    assert h != [] ==> h[0] in h;
    if h != [] then h else All(|eps|)
  }

  // One call: when it starts, whether each endpoint would answer it, and the time
  // at which an attempt on an endpoint fails.
  datatype Call = Call(start: int, answers: nat -> bool, failsAt: nat -> int)

  // The position of the first candidate that answers.
  function FirstAnswer(cs: seq<nat>, answers: nat -> bool): (r: nat)
    ensures r <= |cs|
    ensures forall i :: 0 <= i < r ==> !answers(cs[i])
    ensures r < |cs| ==> answers(cs[r])
  {
    if cs == [] then 0 else if answers(cs[0]) then 0 else 1 + FirstAnswer(cs[1..], answers)
  }

  // The endpoints after a call: tried ones before the answer failed, the one that
  // answered is healthy again, the others are as they were.
  function AfterCall(l: Limits, eps: seq<Endpoint>, c: Call): (r: seq<Endpoint>)
    ensures |r| == |eps|
  {
    var cs := Candidates(eps, c.start);
    var n := FirstAnswer(cs, c.answers);
    seq(|eps|, i requires 0 <= i < |eps| =>
      if i in cs[..n] then MarkFailure(l, eps[i], c.failsAt(i))
      else if n < |cs| && i == cs[n] then MarkSuccess(eps[i])
      else eps[i])
  }

  // One failure more, at the given time, of an endpoint that was coherent.
  function OneFailureMore(l: Limits, e: Endpoint, at: int): Endpoint {
    Endpoint(e.failures + 1, if e.failures + 1 < l.threshold then 0 else at + l.cooldown)
  }

  class EndpointPool {
    const limits: Limits
    var eps: seq<Endpoint>

    ghost predicate Valid()
      reads this
    {
      Sane(limits) && eps != [] && forall i :: 0 <= i < |eps| ==> Coherent(limits, eps[i])
    }

    constructor (n: nat, limits: Limits)
      requires n >= 1 && Sane(limits)
      ensures Valid() && this.limits == limits && |eps| == n
      ensures forall i :: 0 <= i < n ==> eps[i] == Endpoint(0, 0)
    {
      this.limits := limits;
      eps := seq(n, _ => Endpoint(0, 0));
    }

    // `None` is AllEndpointsFailed.
    method Call(c: Call) returns (r: Option<nat>)
      requires Valid() && c.start >= 0 && forall i :: c.failsAt(i) >= c.start
      modifies this
      ensures Valid() && eps == AfterCall(limits, old(eps), c)
      // the first candidate in priority order that answers, and none only when all fail
      ensures var cs := Candidates(old(eps), c.start);
              && (r.Some? ==> r.value in cs && c.answers(r.value)
                              && forall i :: i in cs && i < r.value ==> !c.answers(i))
              && (r.None? <==> forall i :: i in cs ==> !c.answers(i))
      // the one that answered is as good as new, those tried before it have one failure
      // more and cool down from the threshold on, and the others are as they were
      ensures |eps| == |old(eps)|
      ensures var cs := Candidates(old(eps), c.start);
              forall i :: 0 <= i < |eps| ==>
                eps[i] == if r == Some(i) then Endpoint(0, 0)
                          else if i in cs && (r.None? || i < r.value)
                          then OneFailureMore(limits, old(eps)[i], c.failsAt(i))
                          else old(eps)[i]
    {
      hide Candidates, MarkSuccess, MarkFailure, FirstAnswer, OneFailureMore;
      var cs := Candidates(eps, c.start);
      ghost var n := FirstAnswer(cs, c.answers);
      ghost var before := eps;
      for i := 0 to |cs|
        invariant i <= n && |eps| == |before| && Valid()
        invariant forall j :: 0 <= j < |eps| ==>
                    eps[j] == if j in cs[..i] then MarkFailure(limits, before[j], c.failsAt(j)) else before[j]
      {
        assert cs[i] in cs;
        assert cs[i] !in cs[..i];
        if c.answers(cs[i]) {
          assert i == n;
          SuccessIsCoherent(limits, eps[cs[i]]);
          eps := eps[cs[i] := MarkSuccess(eps[cs[i]])];
          assert forall j :: j in cs && j < cs[i] ==> j in cs[..i];
          assert eps == AfterCall(limits, before, c);
          AfterCallMeans(limits, before, c);
          return Some(cs[i]);
        }
        assert cs[..i + 1] == cs[..i] + [cs[i]];
        FailureIsCoherent(limits, eps[cs[i]], c.failsAt(cs[i]));
        eps := eps[cs[i] := MarkFailure(limits, eps[cs[i]], c.failsAt(cs[i]))];
      }
      assert n == |cs| && cs[..|cs|] == cs;
      assert eps == AfterCall(limits, before, c);
      AfterCallMeans(limits, before, c);
      return None;
    }
  }

  // What the two marks do to coherent endpoints.
  lemma MarksMean(l: Limits, eps: seq<Endpoint>)
    requires Sane(l) && forall i :: 0 <= i < |eps| ==> Coherent(l, eps[i])
    ensures forall i :: 0 <= i < |eps| ==> MarkSuccess(eps[i]) == Endpoint(0, 0)
    ensures forall i, at :: 0 <= i < |eps| ==> MarkFailure(l, eps[i], at) == OneFailureMore(l, eps[i], at)
  {
  }

  lemma AfterCallMeans(l: Limits, eps: seq<Endpoint>, c: Call)
    requires Sane(l) && forall i :: 0 <= i < |eps| ==> Coherent(l, eps[i])
    ensures var cs := Candidates(eps, c.start);
            var n := FirstAnswer(cs, c.answers);
            forall i :: 0 <= i < |eps| ==>
              AfterCall(l, eps, c)[i] == if n < |cs| && i == cs[n] then Endpoint(0, 0)
                                         else if i in cs && (n == |cs| || i < cs[n])
                                         then OneFailureMore(l, eps[i], c.failsAt(i))
                                         else eps[i]
  {
    hide Candidates, FirstAnswer, MarkSuccess, MarkFailure, OneFailureMore;
    MarksMean(l, eps);
    var cs := Candidates(eps, c.start);
    var n := FirstAnswer(cs, c.answers);
    forall i ensures i in cs[..n] <==> i in cs && (n == |cs| || i < cs[n]) {
      if n == |cs| {
        assert cs[..n] == cs;
      }
    }
  }

  lemma SuccessIsCoherent(l: Limits, e: Endpoint)
    requires Sane(l) && Coherent(l, e)
    ensures Coherent(l, MarkSuccess(e))
  {
  }

  lemma FailureIsCoherent(l: Limits, e: Endpoint, now: int)
    requires Sane(l) && Coherent(l, e) && now >= 0
    ensures Coherent(l, MarkFailure(l, e, now))
  {
  }

  // ----- Interleaved calls -----

  // One try of one endpoint, and whether it answered.
  datatype Attempt = Attempt(endpoint: nat, ok: bool)

  // A call in flight: its candidates, fixed when it started, and what happened so far.
  datatype Flight = Flight(cs: seq<nat>, attempts: seq<Attempt>)

  datatype State = State(eps: seq<Endpoint>, flights: map<nat, Flight>)

  datatype Step =
    | Begin(id: nat, now: int)
    | Succeed(id: nat)
    | Fail(id: nat, now: int)

  function Answer(f: Flight): Option<nat> {
    if f.attempts != [] && f.attempts[|f.attempts| - 1].ok then Some(f.attempts[|f.attempts| - 1].endpoint) else None
  }

  // A call whose next attempt is still to end.
  predicate Pending(s: State, id: nat) {
    id in s.flights && Answer(s.flights[id]).None? && |s.flights[id].attempts| < |s.flights[id].cs|
  }

  // The endpoint a pending call is trying.
  function Trying(f: Flight): nat
    requires |f.attempts| < |f.cs|
  {
    f.cs[|f.attempts|]
  }

  predicate Enabled(s: State, step: Step) {
    match step
    case Begin(id, now) => id !in s.flights && now >= 0
    case Succeed(id) => Pending(s, id) && Trying(s.flights[id]) < |s.eps|
    case Fail(id, now) => Pending(s, id) && Trying(s.flights[id]) < |s.eps| && now >= 0
  }

  function Tried(f: Flight, ok: bool): Flight
    requires |f.attempts| < |f.cs|
  {
    f.(attempts := f.attempts + [Attempt(Trying(f), ok)])
  }

  function After(l: Limits, s: State, step: Step): State
    requires Enabled(s, step)
  {
    match step
    case Begin(id, now) => s.(flights := s.flights[id := Flight(Candidates(s.eps, now), [])])
    case Succeed(id) =>
      var f := s.flights[id];
      var i := Trying(f);
      State(s.eps[i := MarkSuccess(s.eps[i])], s.flights[id := Tried(f, true)])
    case Fail(id, now) =>
      var f := s.flights[id];
      var i := Trying(f);
      State(s.eps[i := MarkFailure(l, s.eps[i], now)], s.flights[id := Tried(f, false)])
  }

  // A call tries its candidates in order, whatever the other calls do to the
  // endpoints meanwhile. Its answer is that of the first candidate that answered:
  // every candidate before it failed. It ends without one only when all failed.
  ghost predicate FlightOk(n: nat, f: Flight) {
    && |f.attempts| <= |f.cs|
    && (forall i :: i in f.cs ==> i < n)
    && (forall k :: 0 <= k < |f.attempts| ==> f.attempts[k].endpoint == f.cs[k])
    && (forall k :: 0 <= k < |f.attempts| - 1 ==> !f.attempts[k].ok)
    && (Answer(f).Some? ==>
          exists k :: 0 <= k < |f.cs| && f.attempts == AllFailed(f.cs[..k]) + [Attempt(f.cs[k], true)])
    && (Answer(f).None? && |f.attempts| == |f.cs| ==> f.attempts == AllFailed(f.cs))
  }

  function AllFailed(cs: seq<nat>): seq<Attempt> {
    seq(|cs|, k requires 0 <= k < |cs| => Attempt(cs[k], false))
  }

  ghost predicate Inv(l: Limits, s: State) {
    && (forall i :: 0 <= i < |s.eps| ==> Coherent(l, s.eps[i]))
    && (forall id :: id in s.flights ==> FlightOk(|s.eps|, s.flights[id]))
  }

  lemma TriedIsOk(n: nat, f: Flight, ok: bool)
    requires FlightOk(n, f) && Answer(f).None? && |f.attempts| < |f.cs|
    ensures FlightOk(n, Tried(f, ok))
  {
    var g, k := Tried(f, ok), |f.attempts|;
    assert forall j :: 0 <= j < k ==> !f.attempts[j].ok;
    assert f.attempts == AllFailed(f.cs[..k]);
    if ok {
      assert g.attempts == AllFailed(f.cs[..k]) + [Attempt(f.cs[k], true)];
    } else if k + 1 == |f.cs| {
      assert g.attempts == AllFailed(f.cs);
    }
  }

  // Under every interleaving of concurrent calls an endpoint is tripped exactly
  // when it has failed `threshold` times in a row.
  lemma InterleavingKeepsCoherent(l: Limits, s: State, step: Step)
    requires Sane(l) && Inv(l, s) && Enabled(s, step)
    ensures Inv(l, After(l, s, step))
  {
    hide Candidates, FlightOk;
    match step
    case Begin(_, now) => BegunIsOk(s.eps, now);
    case Succeed(id) =>
      SuccessIsCoherent(l, s.eps[Trying(s.flights[id])]);
      TriedIsOk(|s.eps|, s.flights[id], true);
    case Fail(id, now) =>
      FailureIsCoherent(l, s.eps[Trying(s.flights[id])], now);
      TriedIsOk(|s.eps|, s.flights[id], false);
  }

  lemma BegunIsOk(eps: seq<Endpoint>, now: int)
    ensures FlightOk(|eps|, Flight(Candidates(eps, now), []))
  {
    hide Candidates;
    assert Candidates(eps, now) == [] ==> AllFailed(Candidates(eps, now)) == [];
  }

  ghost predicate CanRun(l: Limits, s: State, steps: seq<Step>)
    decreases |steps|
  {
    steps == [] || (Enabled(s, steps[0]) && CanRun(l, After(l, s, steps[0]), steps[1..]))
  }

  ghost function Final(l: Limits, s: State, steps: seq<Step>): State
    requires CanRun(l, s, steps)
    decreases |steps|
  {
    if steps == [] then s else Final(l, After(l, s, steps[0]), steps[1..])
  }

  lemma {:induction false} EveryRunIsCoherent(l: Limits, s: State, steps: seq<Step>)
    requires Sane(l) && Inv(l, s) && CanRun(l, s, steps)
    ensures Inv(l, Final(l, s, steps))
    decreases |steps|
  {
    hide Inv, After;
    if steps != [] {
      InterleavingKeepsCoherent(l, s, steps[0]);
      EveryRunIsCoherent(l, After(l, s, steps[0]), steps[1..]);
    }
  }

  // ----- What an endpoint's state says about its attempts -----

  datatype Outcome = Answered | Failed(at: int)

  // The outcomes of the attempts on endpoint e in a run, in order.
  ghost function LogOf(l: Limits, s: State, steps: seq<Step>, e: nat): seq<Outcome>
    requires CanRun(l, s, steps)
    decreases |steps|
  {
    if steps == [] then []
    else OutcomeOf(s, steps[0], e) + LogOf(l, After(l, s, steps[0]), steps[1..], e)
  }

  function OutcomeOf(s: State, step: Step, e: nat): seq<Outcome>
    requires Enabled(s, step)
  {
    match step
    case Begin(_, _) => []
    case Succeed(id) => if Trying(s.flights[id]) == e then [Answered] else []
    case Fail(id, now) => if Trying(s.flights[id]) == e then [Failed(now)] else []
  }

  // The number of failed attempts since the last one that was answered.
  function Streak(log: seq<Outcome>): nat {
    if log == [] || log[|log| - 1].Answered? then 0 else 1 + Streak(log[..|log| - 1])
  }

  // Failures in a row, and a cooldown from the last of them once they reach the threshold.
  ghost predicate Reflects(l: Limits, e: Endpoint, log: seq<Outcome>)
    requires l.threshold >= 1
  {
    && e.failures == Streak(log)
    && e.until == if Streak(log) < l.threshold then 0 else log[|log| - 1].at + l.cooldown
  }

  lemma StepReflects(l: Limits, s: State, step: Step, e: nat, log: seq<Outcome>)
    requires Sane(l) && Enabled(s, step) && e < |s.eps| && Reflects(l, s.eps[e], log)
    ensures |After(l, s, step).eps| == |s.eps|
    ensures Reflects(l, After(l, s, step).eps[e], log + OutcomeOf(s, step, e))
  {
    hide Candidates, Reflects, MarkSuccess, MarkFailure;
    assert log + [] == log;
    AnswerReflects(l, s.eps[e], log);
    if step.Fail? {
      FailureReflects(l, s.eps[e], log, step.now);
    }
  }

  lemma AnswerReflects(l: Limits, e: Endpoint, log: seq<Outcome>)
    requires Sane(l) && Reflects(l, e, log)
    ensures Reflects(l, MarkSuccess(e), log + [Answered])
  {
    assert (log + [Answered])[..|log|] == log;
  }

  lemma FailureReflects(l: Limits, e: Endpoint, log: seq<Outcome>, now: int)
    requires Sane(l) && Reflects(l, e, log)
    ensures Reflects(l, MarkFailure(l, e, now), log + [Failed(now)])
  {
    assert (log + [Failed(now)])[..|log|] == log;
  }

  lemma {:induction false} EveryRunReflects(l: Limits, s: State, steps: seq<Step>, e: nat, log: seq<Outcome>)
    requires Sane(l) && CanRun(l, s, steps) && e < |s.eps| && Reflects(l, s.eps[e], log)
    ensures e < |Final(l, s, steps).eps|
    ensures Reflects(l, Final(l, s, steps).eps[e], log + LogOf(l, s, steps, e))
    decreases |steps|
  {
    hide Reflects, After, OutcomeOf;
    if steps == [] {
      assert log + [] == log;
    } else {
      var more := OutcomeOf(s, steps[0], e);
      StepReflects(l, s, steps[0], e, log);
      EveryRunReflects(l, After(l, s, steps[0]), steps[1..], e, log + more);
      ConcatAssociates(log, more, LogOf(l, After(l, s, steps[0]), steps[1..], e));
    }
  }

  // Under every interleaving of concurrent calls on a new endpoint: its counter is the
  // number of failed attempts since its last answer, and it cools down from the last of
  // them exactly when they reach the threshold.
  lemma FreshEndpointReflects(l: Limits, s: State, steps: seq<Step>, e: nat)
    requires Sane(l) && CanRun(l, s, steps) && e < |s.eps| && s.eps[e] == Endpoint(0, 0)
    ensures e < |Final(l, s, steps).eps|
    ensures Reflects(l, Final(l, s, steps).eps[e], LogOf(l, s, steps, e))
  {
    EveryRunReflects(l, s, steps, e, []);
    assert [] + LogOf(l, s, steps, e) == LogOf(l, s, steps, e);
  }

  // ----- How often a dead endpoint is tried -----

  // Sequential calls: each starts after everything before it has ended.
  ghost predicate Sequential(cs: seq<Call>, from: int) {
    forall i {:trigger cs[i]} :: 0 <= i < |cs| ==>
      && cs[i].start >= from
      && (forall j :: cs[i].failsAt(j) >= cs[i].start)
      && (forall k, j :: i < k < |cs| ==> cs[k].start >= cs[i].failsAt(j))
  }

  // Whether a call tries endpoint e.
  predicate Tries(eps: seq<Endpoint>, c: Call, e: nat) {
    var cs := Candidates(eps, c.start);
    e in cs[..Min(FirstAnswer(cs, c.answers) + 1, |cs|)]
  }

  ghost function Attempts(l: Limits, eps: seq<Endpoint>, cs: seq<Call>, e: nat): nat
    decreases |cs|
  {
    if cs == [] then 0
    else (if Tries(eps, cs[0], e) then 1 else 0) + Attempts(l, AfterCall(l, eps, cs[0]), cs[1..], e)
  }

  // Each call starts with some endpoint not cooling down.
  ghost predicate SomeHealthy(l: Limits, eps: seq<Endpoint>, cs: seq<Call>)
    decreases |cs|
  {
    cs == [] || (Healthy(eps, cs[0].start, 0) != [] && SomeHealthy(l, AfterCall(l, eps, cs[0]), cs[1..]))
  }

  // Attempts still possible from `now` until `end`: the failures left before the
  // endpoint trips, then one per cooldown.
  function Budget(l: Limits, e: Endpoint, now: int, end: int): int
    requires l.cooldown >= 1
  {
    if e.failures < l.threshold then l.threshold - e.failures + Cooldowns(l, end - now)
    else if end < e.until then 0
    else 1 + Cooldowns(l, end - Max(now, e.until))
  }

  // floor(span / cooldown)
  function Cooldowns(l: Limits, span: int): nat
    requires l.cooldown >= 1
    decreases Max(0, span)
  {
    if span < l.cooldown then 0 else 1 + Cooldowns(l, span - l.cooldown)
  }

  lemma {:induction false} CooldownsIsFloor(l: Limits, span: nat)
    requires l.cooldown >= 1
    ensures Cooldowns(l, span) * l.cooldown <= span < (Cooldowns(l, span) + 1) * l.cooldown
    decreases span
  {
    if span >= l.cooldown {
      CooldownsIsFloor(l, span - l.cooldown);
    }
  }

  lemma {:induction false} CooldownsMonotone(l: Limits, a: int, b: int)
    requires l.cooldown >= 1 && a <= b
    ensures Cooldowns(l, a) <= Cooldowns(l, b)
    decreases Max(0, b)
  {
    if a >= l.cooldown {
      CooldownsMonotone(l, a - l.cooldown, b - l.cooldown);
    }
  }

  lemma BudgetShrinks(l: Limits, e: Endpoint, now: int, later: int, end: int)
    requires l.cooldown >= 1 && now <= later
    ensures Budget(l, e, later, end) <= Budget(l, e, now, end)
  {
    CooldownsMonotone(l, end - later, end - now);
    CooldownsMonotone(l, end - Max(later, e.until), end - Max(now, e.until));
  }

  // A failed attempt uses up one unit of the budget.
  lemma AttemptCosts(l: Limits, e: Endpoint, now: int, start: int, failed: int, end: int)
    requires Sane(l) && now <= start <= failed && start <= end
    requires e.failures >= l.threshold ==> e.until <= start
    ensures 1 + Budget(l, MarkFailure(l, e, failed), failed, end) <= Budget(l, e, now, end)
  {
    CooldownsMonotone(l, end - failed, end - now);
    if e.failures >= l.threshold {
      CooldownsMonotone(l, end - failed, end - Max(now, e.until));
    }
  }

  lemma UntriedUnchanged(l: Limits, eps: seq<Endpoint>, c: Call, e: nat)
    requires e < |eps| && !c.answers(e)
    ensures AfterCall(l, eps, c)[e] == if Tries(eps, c, e) then MarkFailure(l, eps[e], c.failsAt(e)) else eps[e]
  {
    hide Candidates;
    var cs := Candidates(eps, c.start);
    var n := FirstAnswer(cs, c.answers);
    if n < |cs| {
      assert cs[..n + 1] == cs[..n] + [cs[n]];
    }
  }

  lemma TriedIsHealthy(eps: seq<Endpoint>, c: Call, e: nat)
    requires Healthy(eps, c.start, 0) != [] && Tries(eps, c, e)
    ensures e < |eps| && eps[e].until <= c.start
  {
    assert e in Candidates(eps, c.start);
  }

  // In sequential calls that each start with some healthy endpoint, an endpoint
  // that never answers is tried at most its budget's times.
  lemma {:induction false} DeadEndpointBudget(l: Limits, eps: seq<Endpoint>, cs: seq<Call>, e: nat, now: int, end: int)
    requires Sane(l) && e < |eps| && Sequential(cs, now) && SomeHealthy(l, eps, cs)
    requires forall i :: 0 <= i < |cs| ==> !cs[i].answers(e) && cs[i].start <= end
    ensures Attempts(l, eps, cs, e) <= Max(0, Budget(l, eps[e], now, end))
    decreases |cs|
  {
    hide AfterCall, Tries, Budget, MarkFailure;
    if cs != [] {
      var c, rest := cs[0], cs[1..];
      var next := AfterCall(l, eps, c);
      UntriedUnchanged(l, eps, c, e);
      var later := if Tries(eps, c, e) then c.failsAt(e) else c.start;
      assert c.start >= now && c.failsAt(e) >= c.start;
      RestIsSequential(cs, now, e, later);
      DeadEndpointBudget(l, next, rest, e, later, end);
      if Tries(eps, c, e) {
        TriedIsHealthy(eps, c, e);
        AttemptCosts(l, eps[e], now, c.start, later, end);
        BudgetIsNat(l, next[e], later, end);
      } else {
        BudgetShrinks(l, eps[e], now, later, end);
      }
    }
  }

  lemma BudgetIsNat(l: Limits, e: Endpoint, now: int, end: int)
    requires l.cooldown >= 1
    ensures Budget(l, e, now, end) >= 0
  {
  }

  lemma RestIsSequential(cs: seq<Call>, now: int, e: nat, later: int)
    requires cs != [] && Sequential(cs, now) && (later == cs[0].start || later == cs[0].failsAt(e))
    ensures Sequential(cs[1..], later)
  {
    var rest := cs[1..];
    assert cs[0].failsAt(e) >= cs[0].start;
    forall i | 0 <= i < |rest|
      ensures rest[i].start >= later
      ensures forall j :: rest[i].failsAt(j) >= rest[i].start
      ensures forall k, j :: i < k < |rest| ==> rest[k].start >= rest[i].failsAt(j)
    {
      assert rest[i] == cs[i + 1];
      assert cs[i + 1].start >= cs[0].failsAt(e);
      forall k, j | i < k < |rest| ensures rest[k].start >= rest[i].failsAt(j) {
        assert rest[k] == cs[k + 1];
      }
    }
  }

  // From a fresh pool: at most threshold + floor(span / cooldown) attempts over a span.
  lemma DeadEndpointBound(l: Limits, eps: seq<Endpoint>, cs: seq<Call>, e: nat, now: int, end: int)
    requires Sane(l) && e < |eps| && eps[e] == Endpoint(0, 0) && Sequential(cs, now) && SomeHealthy(l, eps, cs)
    requires forall i :: 0 <= i < |cs| ==> !cs[i].answers(e) && cs[i].start <= end
    ensures Attempts(l, eps, cs, e) <= l.threshold + Cooldowns(l, end - now)
  {
    DeadEndpointBudget(l, eps, cs, e, now, end);
  }
}
