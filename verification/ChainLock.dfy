/** The per-chain Redis lock, as timed steps of any number of workers over one key. */
module ChainLock {

  // Durations: key TTL, sleep between renewals, the most a renewal attempt takes
  // beyond it, and the most a release takes; at most `misses` renewals in a row fail.
  datatype Params = Params(ttl: int, interval: nat, delay: nat, release: nat, misses: nat)

  const TTL_S := 30
  const RENEW_INTERVAL_S := 10

  datatype Key = Absent | Key(holder: string, expires: int)

  datatype Phase =
    | Out
    // renewed: time of the last SET or EXPIRE; attempt: end of the last renewal
    // attempt; checked: the GET of the current attempt returned our id
    | Held(renewed: int, attempt: int, failures: nat, checked: bool)
    // the renew loop ended with `chain_lock.lost`; nothing else changes
    | Lost
    // renewing cancelled at `since`; checked: the GET returned our id
    | Releasing(since: int, checked: bool)
    | Dead

  datatype Worker = Worker(phase: Phase, running: bool)

  datatype State = State(now: int, key: Key, workers: map<string, Worker>)

  predicate KeyLive(s: State) {
    s.key.Key? && s.now < s.key.expires
  }

  predicate Owns(s: State, w: string) {
    KeyLive(s) && s.key.holder == w
  }

  datatype Step =
    | Tick(d: nat)
    | Acquire(w: string)         // SET NX EX succeeds
    | AcquireOwn(w: string)      // SET NX EX fails, GET returns our own id
    | StartRunner(w: string)
    | StopRunner(w: string)
    | RenewGet(w: string)
    | RenewExpire(w: string)
    | RenewFail(w: string)
    | BeginRelease(w: string)    // cancel the renew loop
    | ReleaseGet(w: string)
    | ReleaseDelete(w: string)
    | Crash(w: string)

  // Time does not run past a renewal attempt or a release that is due.
  predicate InTime(p: Params, w: Worker, at: int) {
    match w.phase
    case Held(_, attempt, _, _) => at <= attempt + p.interval + p.delay
    case Releasing(since, _) => at <= since + p.release
    case _ => true
  }

  // What Redis, the clock and the renew and release tasks permit, whatever order a
  // worker calls its lock and its runner in.
  predicate Can(p: Params, s: State, step: Step) {
    match step
    case Tick(d) => forall w :: w in s.workers ==> InTime(p, s.workers[w], s.now + d)
    case Acquire(w) => Up(s, w) && !KeyLive(s)
    case AcquireOwn(w) => Up(s, w) && Owns(s, w)
    case StartRunner(w) => Up(s, w)
    case StopRunner(w) => Up(s, w)
    case RenewGet(w) => && w in s.workers && s.workers[w].phase.Held? && !s.workers[w].phase.checked
                        && s.now >= s.workers[w].phase.attempt + p.interval
    case RenewExpire(w) => w in s.workers && s.workers[w].phase.Held? && s.workers[w].phase.checked
    case RenewFail(w) => && w in s.workers && s.workers[w].phase.Held? && s.workers[w].phase.failures < p.misses
                         && s.now >= s.workers[w].phase.attempt + p.interval
    case BeginRelease(w) => Up(s, w)
    case ReleaseGet(w) => w in s.workers && s.workers[w].phase.Releasing? && !s.workers[w].phase.checked
    case ReleaseDelete(w) => w in s.workers && s.workers[w].phase.Releasing? && s.workers[w].phase.checked
    case Crash(w) => w in s.workers
  }

  predicate Up(s: State, w: string) {
    w in s.workers && !s.workers[w].phase.Dead?
  }

  // The order a worker keeps: acquire, start the runner, stop it, release. Losing
  // the lock ends the renew loop only, so the runner may start or go on after that.
  predicate InOrder(s: State, step: Step) {
    match step
    case Acquire(w) => w in s.workers && s.workers[w].phase.Out?
    case AcquireOwn(w) => w in s.workers && s.workers[w].phase.Out?
    case StartRunner(w) => w in s.workers && HasLock(s.workers[w]) && !s.workers[w].running
    case StopRunner(w) => w in s.workers && HasLock(s.workers[w]) && s.workers[w].running
    case BeginRelease(w) => w in s.workers && HasLock(s.workers[w]) && !s.workers[w].running
    case _ => true
  }

  // The worker counts on the lock.
  predicate HasLock(w: Worker) {
    w.phase.Held? || w.phase.Lost?
  }

  predicate Enabled(p: Params, s: State, step: Step) {
    Can(p, s, step) && InOrder(s, step)
  }

  function Put(s: State, w: string, phase: Phase, running: bool): State {
    s.(workers := s.workers[w := Worker(phase, running)])
  }

  function After(p: Params, s: State, step: Step): State
    requires Can(p, s, step)
  {
    match step
    case Tick(d) => s.(now := s.now + d)
    case Acquire(w) => Put(s, w, Held(s.now, s.now, 0, false), s.workers[w].running).(key := Key(w, s.now + p.ttl))
    // the TTL is not refreshed on this path
    case AcquireOwn(w) => Put(s, w, Held(s.key.expires - p.ttl, s.now, 0, false), s.workers[w].running)
    case StartRunner(w) => Put(s, w, s.workers[w].phase, true)
    case StopRunner(w) => Put(s, w, s.workers[w].phase, false)
    case RenewGet(w) =>
      var h := s.workers[w].phase;
      Put(s, w, if Owns(s, w) then Held(h.renewed, h.attempt, h.failures, true) else Lost, s.workers[w].running)
    case RenewExpire(w) =>
      var h := s.workers[w].phase;
      // EXPIRE extends the key whoever holds it by now
      var key := if KeyLive(s) then s.key.(expires := s.now + p.ttl) else s.key;
      Put(s, w, Held(if Owns(s, w) then s.now else h.renewed, s.now, 0, false), s.workers[w].running).(key := key)
    case RenewFail(w) =>
      var h := s.workers[w].phase;
      Put(s, w, Held(h.renewed, s.now, h.failures + 1, false), s.workers[w].running)
    case BeginRelease(w) => Put(s, w, Releasing(s.now, false), s.workers[w].running)
    case ReleaseGet(w) =>
      Put(s, w, if Owns(s, w) then Releasing(s.workers[w].phase.since, true) else Out, s.workers[w].running)
    // DELETE removes the key whoever holds it by now
    case ReleaseDelete(w) => Put(s, w, Out, s.workers[w].running).(key := Absent)
    case Crash(w) => Put(s, w, Dead, false)
  }

  predicate Checked(w: Worker) {
    (w.phase.Held? || w.phase.Releasing?) && w.phase.checked
  }

  // Only four things change the key: taking it while it is free, for the whole TTL;
  // extending it after a check; and deleting it after a check. The last two act on the
  // key whoever holds it by then.
  lemma KeyRules(p: Params, s: State, step: Step)
    requires Can(p, s, step)
    ensures var key := After(p, s, step).key;
            || key == s.key
            || (step.Acquire? && !KeyLive(s) && key == Key(step.w, s.now + p.ttl))
            || (step.RenewExpire? && Checked(s.workers[step.w]) && KeyLive(s)
                && key == Key(s.key.holder, s.now + p.ttl))
            || (step.ReleaseDelete? && Checked(s.workers[step.w]) && key == Absent)
    ensures step.Acquire? ==> After(p, s, step).key == Key(step.w, s.now + p.ttl)
    ensures step.RenewExpire? && KeyLive(s) ==> After(p, s, step).key == Key(s.key.holder, s.now + p.ttl)
    ensures step.ReleaseDelete? ==> After(p, s, step).key == Absent
  {
  }

  // A check succeeds only for the owner of the live key, at that moment; a worker that
  // is not the owner stops renewing, or leaves the key alone when it releases.
  lemma CheckRules(p: Params, s: State, step: Step)
    requires Can(p, s, step)
    ensures forall w :: w in s.workers && Checked(After(p, s, step).workers[w]) && !Checked(s.workers[w]) ==> Owns(s, w)
    ensures step.RenewGet? ==>
              After(p, s, step).workers[step.w].phase.Lost? == !Owns(s, step.w)
    ensures step.ReleaseGet? ==>
              After(p, s, step).workers[step.w].phase.Out? == !Owns(s, step.w)
    ensures step.RenewFail? ==> !Checked(After(p, s, step).workers[step.w])
  {
  }

  ghost predicate Takes(p: Params, s: State, step: Step, s': State) {
    Enabled(p, s, step) && s' == After(p, s, step)
  }

  function Start(ids: set<string>): State {
    State(0, Absent, map w | w in ids :: Worker(Out, false))
  }

  ghost predicate Reach(p: Params, ids: set<string>, s: State, n: nat)
    decreases n
  {
    if n == 0 then s == Start(ids)
    else exists mid, step :: Reach(p, ids, mid, n - 1) && Takes(p, mid, step, s)
  }

  ghost predicate Reachable(p: Params, ids: set<string>, s: State) {
    exists n: nat :: Reach(p, ids, s, n)
  }

  ghost predicate Exclusive(s: State) {
    forall v, w :: v in s.workers && w in s.workers && s.workers[v].running && s.workers[w].running ==> v == w
  }

  // ----- Safety under the timing bound -----

  // n periods of length m.
  function Times(n: nat, m: nat): (r: nat)
    ensures r == n * m
  {
    if n == 0 then 0 else m + Times(n - 1, m)
  }

  lemma {:induction false} TimesMonotone(a: nat, b: nat, m: nat)
    requires a <= b
    ensures Times(a, m) <= Times(b, m)
    decreases b
  {
    if a < b {
      TimesMonotone(a, b - 1, m);
    }
  }

  function Period(p: Params): nat {
    p.interval + p.delay
  }

  // The longest a key goes unrenewed while its holder still counts on it.
  function Exposure(p: Params): nat {
    Times(p.misses + 1, Period(p)) + p.release
  }

  ghost predicate WorkerOk(p: Params, s: State, id: string, w: Worker) {
    && (w.running ==> w.phase.Held?)
    && match w.phase
       case Out => !Owns(s, id)
       case Held(renewed, attempt, failures, _) =>
         && renewed <= attempt <= s.now <= attempt + Period(p)
         && failures <= p.misses && attempt - renewed <= Times(failures, Period(p))
         && s.key == Key(id, renewed + p.ttl)
       case Lost => false
       case Releasing(since, _) =>
         && since <= s.now <= since + p.release
         && s.key.Key? && s.key.holder == id && since + p.release < s.key.expires
       case Dead => true
  }

  ghost predicate Inv(p: Params, s: State) {
    forall w :: w in s.workers ==> WorkerOk(p, s, w, s.workers[w])
  }

  // While a worker holds or releases, its own key is live with time to spare.
  lemma HolderHasTime(p: Params, s: State, w: string)
    requires Exposure(p) < p.ttl && Inv(p, s) && w in s.workers
    ensures s.workers[w].phase.Held? ==> Owns(s, w) && s.now + p.release < s.key.expires
    ensures s.workers[w].phase.Releasing? ==> Owns(s, w)
  {
    assert WorkerOk(p, s, w, s.workers[w]);
    if s.workers[w].phase.Held? {
      TimesMonotone(s.workers[w].phase.failures, p.misses, Period(p));
    }
  }

  // A step touches one worker; the others keep their guarantees as long as the
  // key they rely on is left alone.
  lemma OthersUnaffected(p: Params, s: State, s': State, w: string)
    requires Inv(p, s) && w in s.workers
    requires s'.now == s.now && s'.workers.Keys == s.workers.Keys
    requires forall v :: v in s.workers && v != w ==> s'.workers[v] == s.workers[v]
    requires s'.key == s.key || forall v :: v in s.workers && v != w ==>
               !s.workers[v].phase.Held? && !s.workers[v].phase.Releasing? && !Owns(s', v)
    requires WorkerOk(p, s', w, s'.workers[w])
    ensures Inv(p, s')
  {
    forall v | v in s'.workers ensures WorkerOk(p, s', v, s'.workers[v]) {
      assert WorkerOk(p, s, v, s.workers[v]);
    }
  }

  lemma {:induction false} StepKeepsInv(p: Params, s: State, step: Step)
    requires Exposure(p) < p.ttl && Inv(p, s) && Enabled(p, s, step)
    ensures Inv(p, After(p, s, step))
  {
    hide Times;
    var s' := After(p, s, step);
    if step.Tick? {
      forall v | v in s'.workers ensures WorkerOk(p, s', v, s'.workers[v]) {
        assert WorkerOk(p, s, v, s.workers[v]) && InTime(p, s.workers[v], s.now + step.d);
      }
    } else {
      var w := step.w;
      assert WorkerOk(p, s, w, s.workers[w]);
      HolderHasTime(p, s, w);
      if s'.key != s.key {
        KeyIsFree(p, s, w);
      }
      StepKeepsWorker(p, s, step);
      OthersUnaffected(p, s, s', w);
    }
  }

  // A worker other than the live key's owner neither holds nor releases.
  lemma KeyIsFree(p: Params, s: State, w: string)
    requires Exposure(p) < p.ttl && Inv(p, s)
    requires !KeyLive(s) || Owns(s, w)
    ensures forall v :: v in s.workers && v != w ==> !s.workers[v].phase.Held? && !s.workers[v].phase.Releasing?
  {
    forall v | v in s.workers && v != w ensures !s.workers[v].phase.Held? && !s.workers[v].phase.Releasing? {
      HolderHasTime(p, s, v);
    }
  }

  lemma StepKeepsWorker(p: Params, s: State, step: Step)
    requires Exposure(p) < p.ttl && Inv(p, s) && Enabled(p, s, step) && !step.Tick?
    ensures WorkerOk(p, After(p, s, step), step.w, After(p, s, step).workers[step.w])
  {
    var w := step.w;
    assert WorkerOk(p, s, w, s.workers[w]);
    HolderHasTime(p, s, w);
  }

  lemma {:induction false} ReachKeepsInv(p: Params, ids: set<string>, s: State, n: nat)
    requires Exposure(p) < p.ttl && Reach(p, ids, s, n)
    ensures Inv(p, s)
    decreases n
  {
    if n > 0 {
      var mid, step :| Reach(p, ids, mid, n - 1) && Takes(p, mid, step, s);
      ReachKeepsInv(p, ids, mid, n - 1);
      StepKeepsInv(p, mid, step);
    }
  }

  // Under the bound: at most one running chain runner, whoever runs it owns the
  // live key, no renew loop ever ends with a lost lock, and a worker without the
  // lock never finds its own id in the key.
  lemma LockIsSafe(p: Params, ids: set<string>, s: State)
    requires Exposure(p) < p.ttl && Reachable(p, ids, s)
    ensures Exclusive(s)
    ensures forall w :: w in s.workers ==> !s.workers[w].phase.Lost? && !Enabled(p, s, AcquireOwn(w))
    ensures forall w :: w in s.workers && s.workers[w].running ==> Owns(s, w)
  {
    var n: nat :| Reach(p, ids, s, n);
    ReachKeepsInv(p, ids, s, n);
    forall w | w in s.workers
      ensures !s.workers[w].phase.Lost? && !Enabled(p, s, AcquireOwn(w)) && (s.workers[w].running ==> Owns(s, w))
    {
      assert WorkerOk(p, s, w, s.workers[w]);
      HolderHasTime(p, s, w);
    }
  }

  // ----- The bound is tight -----

  lemma Extend(p: Params, ids: set<string>, s: State, step: Step) returns (s': State)
    requires Reachable(p, ids, s) && Enabled(p, s, step)
    ensures s' == After(p, s, step) && Reachable(p, ids, s')
  {
    var n: nat :| Reach(p, ids, s, n);
    s' := After(p, s, step);
    assert Takes(p, s, step, s');
    assert Reach(p, ids, s', n + 1);
  }

  // Only `a` has done anything: it acquired at time 0 and is in the given phase.
  function Alone(ids: set<string>, now: int, ttl: int, a: string, phase: Phase, running: bool): State {
    State(now, Key(a, ttl), Start(ids).workers[a := Worker(phase, running)])
  }

  lemma AloneInTime(p: Params, ids: set<string>, s: State, a: string, d: nat)
    requires a in ids && s.workers.Keys == ids
    requires forall v :: v in ids && v != a ==> s.workers[v].phase.Out?
    requires InTime(p, s.workers[a], s.now + d)
    ensures Enabled(p, s, Tick(d))
  {
  }

  lemma FirstHolder(p: Params, ids: set<string>, a: string, running: bool) returns (s: State)
    requires a in ids && p.ttl >= 1
    ensures s == Alone(ids, 0, p.ttl, a, Held(0, 0, 0, false), running)
    ensures Reachable(p, ids, s)
  {
    s := Start(ids);
    assert Reach(p, ids, s, 0);
    s := Extend(p, ids, s, Acquire(a));
    assert s == Alone(ids, 0, p.ttl, a, Held(0, 0, 0, false), false);
    if running {
      s := Extend(p, ids, s, StartRunner(a));
      assert s.workers == Alone(ids, 0, p.ttl, a, Held(0, 0, 0, false), running).workers;
    }
  }

  lemma OneFailure(p: Params, ids: set<string>, a: string, running: bool, now: int, n: nat) returns (s: State)
    requires a in ids && n < p.misses
    requires Reachable(p, ids, Alone(ids, now, p.ttl, a, Held(0, now, n, false), running))
    ensures s == Alone(ids, now + Period(p), p.ttl, a, Held(0, now + Period(p), n + 1, false), running)
    ensures Reachable(p, ids, s)
  {
    hide Reachable;
    var before := Alone(ids, now, p.ttl, a, Held(0, now, n, false), running);
    AloneInTime(p, ids, before, a, Period(p));
    s := Extend(p, ids, before, Tick(Period(p)));
    s := Extend(p, ids, s, RenewFail(a));
    assert s.workers == Alone(ids, now, p.ttl, a, Held(0, now + Period(p), n + 1, false), running).workers;
  }

  // `a` acquires, may start its runner, and every renewal fails, n <= misses times.
  lemma {:induction false} FailRenewals(p: Params, ids: set<string>, a: string, running: bool,
                                        n: nat) returns (s: State)
    requires a in ids && n <= p.misses && p.ttl >= 1
    ensures s == Alone(ids, Times(n, Period(p)), p.ttl, a, Held(0, Times(n, Period(p)), n, false), running)
    ensures Reachable(p, ids, s)
    decreases n
  {
    hide Alone, Reachable;
    if n == 0 {
      s := FirstHolder(p, ids, a, running);
    } else {
      s := FailRenewals(p, ids, a, running, n - 1);
      s := OneFailure(p, ids, a, running, Times(n - 1, Period(p)), n - 1);
    }
  }

  // The number of whole periods that end before time t.
  lemma {:induction false} PeriodsBefore(t: int, m: nat, k: nat) returns (n: nat)
    requires t >= 1 && t <= Times(k + 1, m)
    ensures n <= k && Times(n, m) < t <= Times(n, m) + m
    decreases k
  {
    if k == 0 || t > Times(k, m) {
      n := k;
    } else {
      n := PeriodsBefore(t, m, k - 1);
    }
  }

  // If renewals alone can miss the TTL: the key expires under a live runner.
  lemma ExpiresWhileRunning(p: Params, ids: set<string>, a: string, b: string) returns (s: State)
    requires a in ids && b in ids && a != b && p.ttl >= 1
    requires Times(p.misses + 1, Period(p)) >= p.ttl
    ensures Reachable(p, ids, s) && !Exclusive(s)
  {
    hide Times;
    var n := PeriodsBefore(p.ttl, Period(p), p.misses);
    s := FailRenewals(p, ids, a, true, n);
    var d := p.ttl - Times(n, Period(p));
    AloneInTime(p, ids, s, a, d);
    s := Extend(p, ids, s, Tick(d));
    s := Extend(p, ids, s, Acquire(b));
    s := Extend(p, ids, s, StartRunner(b));
    assert s.workers[a].running && s.workers[b].running;
  }

  // `a` has checked the key for its release as late as the bound allows.
  lemma LateRelease(p: Params, ids: set<string>, a: string) returns (s: State)
    requires a in ids && p.ttl >= 1 && Times(p.misses + 1, Period(p)) < p.ttl
    ensures var now := Times(p.misses + 1, Period(p));
            s == Alone(ids, now, p.ttl, a, Releasing(now, true), false)
    ensures Reachable(p, ids, s)
  {
    hide Reachable;
    var now := Times(p.misses + 1, Period(p));
    s := FailRenewals(p, ids, a, false, p.misses);
    AloneInTime(p, ids, s, a, Period(p));
    s := Extend(p, ids, s, Tick(Period(p)));
    s := Extend(p, ids, s, BeginRelease(a));
    s := Extend(p, ids, s, ReleaseGet(a));
    assert s.workers == Alone(ids, now, p.ttl, a, Releasing(now, true), false).workers;
  }

  // Then the release is late: its DELETE removes the next holder's key.
  lemma DeletesTheNextHolder(p: Params, ids: set<string>, a: string, b: string) returns (s: State)
    requires a in ids && b in ids && a != b && p.ttl >= 1
    requires Times(p.misses + 1, Period(p)) < p.ttl <= Exposure(p)
    ensures Reachable(p, ids, s) && !Exclusive(s)
  {
    hide Times, Reachable;
    s := LateRelease(p, ids, a);
    var d := p.ttl - s.now;
    AloneInTime(p, ids, s, a, d);
    s := Extend(p, ids, s, Tick(d));
    s := Extend(p, ids, s, Acquire(b));
    s := Extend(p, ids, s, StartRunner(b));
    s := Extend(p, ids, s, ReleaseDelete(a));
    s := Extend(p, ids, s, Acquire(a));
    s := Extend(p, ids, s, StartRunner(a));
    assert s.workers[a].running && s.workers[b].running;
  }

  // Two or more workers exclude each other in every run exactly when
  // (misses + 1) * (interval + delay) + release < ttl.
  lemma ExclusionBound(p: Params, ids: set<string>, a: string, b: string)
    requires a in ids && b in ids && a != b && p.ttl >= 1
    ensures (forall s :: Reachable(p, ids, s) ==> Exclusive(s))
            <==> (p.misses + 1) * (p.interval + p.delay) + p.release < p.ttl
  {
    hide Times, Exclusive, Reachable;
    assert Times(p.misses + 1, Period(p)) == (p.misses + 1) * (p.interval + p.delay);
    if Exposure(p) < p.ttl {
      forall s | Reachable(p, ids, s) ensures Exclusive(s) {
        LockIsSafe(p, ids, s);
      }
    } else if Times(p.misses + 1, Period(p)) >= p.ttl {
      var s := ExpiresWhileRunning(p, ids, a, b);
    } else {
      var s := DeletesTheNextHolder(p, ids, a, b);
    }
  }

  // The shipped constants tolerate one failed renewal only while attempts and the
  // release take less than 10 seconds in total (30-second TTL, 10-second sleep).
  lemma ShippedConstants(delay: nat, release: nat)
    ensures Exposure(Params(TTL_S, RENEW_INTERVAL_S, delay, release, 1)) < TTL_S <==> 2 * delay + release < 10
    ensures !(Exposure(Params(TTL_S, RENEW_INTERVAL_S, delay, release, 2)) < TTL_S)
  {
  }
}
