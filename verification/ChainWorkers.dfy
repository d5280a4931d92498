/** N workers reconciling over the one lock of a chain: at most one live runner. */
module ChainWorkers {
  import opened Common
  import ChainLock
  import Reconcile

  // The lock's state, and what each worker has done so far, on any chain.
  datatype State = State(lock: ChainLock.State, traces: map<string, seq<Reconcile.Action>>)

  datatype Step =
    | OfLock(step: ChainLock.Step)
    | Elsewhere(w: string, a: Reconcile.Action)   // an action on another chain

  // The worker's action that a step of the lock is; renewing is none.
  function ActionOf(s: ChainLock.State, chain: string, step: ChainLock.Step): Option<Reconcile.Action> {
    match step
    case Acquire(_) => Some(Reconcile.Acquired(chain))
    case AcquireOwn(_) => Some(Reconcile.Acquired(chain))
    case StartRunner(_) => Some(Reconcile.Started(chain))
    case StopRunner(_) => Some(Reconcile.Stopped(chain))
    case BeginRelease(_) => Some(Reconcile.Releasing(chain))
    case ReleaseGet(w) => if ChainLock.Owns(s, w) then None else Some(Reconcile.Released(chain))
    case ReleaseDelete(_) => Some(Reconcile.Released(chain))
    case _ => None
  }

  // Nothing here forbids a worker to start a runner without the lock: that it does
  // not is a fact about its trace.
  predicate Can(p: ChainLock.Params, chain: string, s: State, step: Step) {
    match step
    case OfLock(l) => ChainLock.Can(p, s.lock, l)
    case Elsewhere(w, a) => ChainLock.Up(s.lock, w) && a.chain != chain
  }

  function Recorded(traces: map<string, seq<Reconcile.Action>>, w: string, a: Reconcile.Action)
    : map<string, seq<Reconcile.Action>>
  {
    traces[w := (if w in traces then traces[w] else []) + [a]]
  }

  function After(p: ChainLock.Params, chain: string, s: State, step: Step): State
    requires Can(p, chain, s, step)
  {
    match step
    case OfLock(l) =>
      var a := ActionOf(s.lock, chain, l);
      State(ChainLock.After(p, s.lock, l), if a.None? then s.traces else Recorded(s.traces, l.w, a.value))
    case Elsewhere(w, a) => s.(traces := Recorded(s.traces, w, a))
  }

  ghost predicate Takes(p: ChainLock.Params, chain: string, s: State, step: Step, s': State) {
    Can(p, chain, s, step) && s' == After(p, chain, s, step)
  }

  function Start(ids: set<string>): State {
    State(ChainLock.Start(ids), map w | w in ids :: [])
  }

  ghost predicate Reach(p: ChainLock.Params, ids: set<string>, chain: string, s: State, n: nat)
    decreases n
  {
    if n == 0 then s == Start(ids)
    else exists mid, step :: Reach(p, ids, chain, mid, n - 1) && Takes(p, chain, mid, step, s)
  }

  ghost predicate Reachable(p: ChainLock.Params, ids: set<string>, chain: string, s: State) {
    exists n: nat :: Reach(p, ids, chain, s, n)
  }

  // ----- Traces in order drive the lock in order -----

  predicate InOrder(chain: string, s: State) {
    forall w :: w in s.traces ==> Reconcile.StateOf(s.traces[w], chain).Some?
  }

  predicate Agrees(c: Reconcile.ChainState, w: ChainLock.Worker) {
    match c
    case Free => w.phase.Out? && !w.running
    case Locked => ChainLock.HasLock(w) && !w.running
    case Running => ChainLock.HasLock(w) && w.running
    case Leaving => w.phase.Releasing? && !w.running
  }

  ghost predicate Corresponds(chain: string, s: State) {
    && s.traces.Keys == s.lock.workers.Keys
    && forall w :: w in s.traces && ChainLock.Up(s.lock, w) ==>
         Reconcile.StateOf(s.traces[w], chain).Some?
         && Agrees(Reconcile.StateOf(s.traces[w], chain).value, s.lock.workers[w])
  }

  lemma WasInOrder(p: ChainLock.Params, chain: string, s: State, step: Step)
    requires Can(p, chain, s, step) && InOrder(chain, After(p, chain, s, step))
    ensures InOrder(chain, s)
  {
    var s' := After(p, chain, s, step);
    forall w | w in s.traces ensures Reconcile.StateOf(s.traces[w], chain).Some? {
      assert w in s'.traces;
      if s'.traces[w] != s.traces[w] {
        var last := s'.traces[w][|s.traces[w]|];
        assert s'.traces[w] == s.traces[w] + [last];
        Reconcile.Grow(s.traces[w], last);
      }
    }
  }

  lemma StepIsEnabled(p: ChainLock.Params, chain: string, s: State, step: Step)
    requires Can(p, chain, s, step) && Corresponds(chain, s) && InOrder(chain, After(p, chain, s, step))
    ensures step.OfLock? ==> ChainLock.Enabled(p, s.lock, step.step)
    ensures Corresponds(chain, After(p, chain, s, step))
  {
    hide Reconcile.StateOf;
    if step.Elsewhere? {
      Reconcile.Grow(s.traces[step.w], step.a);
    } else {
      var a := ActionOf(s.lock, chain, step.step);
      if a.Some? {
        var w := step.step.w;
        Reconcile.Grow(s.traces[w], a.value);
        assert Reconcile.StateOf(After(p, chain, s, step).traces[w], chain).Some?;
      }
    }
  }

  lemma {:induction false} RunsAreLockRuns(p: ChainLock.Params, ids: set<string>, chain: string, s: State, n: nat)
    requires Reach(p, ids, chain, s, n) && InOrder(chain, s)
    ensures Corresponds(chain, s) && ChainLock.Reachable(p, ids, s.lock)
    decreases n
  {
    hide Can, Corresponds, InOrder, ChainLock.Reachable;
    if n == 0 {
      StartIsLockStart(p, ids, chain);
    } else {
      var mid, step :| Reach(p, ids, chain, mid, n - 1) && Takes(p, chain, mid, step, s);
      WasInOrder(p, chain, mid, step);
      RunsAreLockRuns(p, ids, chain, mid, n - 1);
      StepIsEnabled(p, chain, mid, step);
      if step.OfLock? {
        var lock := ChainLock.Extend(p, ids, mid.lock, step.step);
      }
    }
  }

  lemma StartIsLockStart(p: ChainLock.Params, ids: set<string>, chain: string)
    ensures Corresponds(chain, Start(ids)) && ChainLock.Reachable(p, ids, Start(ids).lock)
  {
    assert ChainLock.Reach(p, ids, ChainLock.Start(ids), 0);
  }

  // ----- The joint result -----

  // A worker that has not crashed, with a runner started and not stopped.
  predicate Live(chain: string, s: State, w: string) {
    w in s.traces && ChainLock.Up(s.lock, w) && Reconcile.Alive(s.traces[w], chain)
  }

  // Any number of workers, each doing what its reconciles and shutdowns do, over one
  // key: under the timing bound a chain never has two live runners, and the worker
  // that runs it owns the live key.
  lemma OneLiveRunner(p: ChainLock.Params, ids: set<string>, chain: string, s: State,
                      workers: map<string, Reconcile.Worker>)
    requires ChainLock.Exposure(p) < p.ttl && Reachable(p, ids, chain, s)
    requires forall w :: w in s.traces ==> w in workers && workers[w].Consistent() && s.traces[w] <= workers[w].trace
    ensures forall v, w :: Live(chain, s, v) && Live(chain, s, w) ==> v == w
    ensures forall w :: Live(chain, s, w) ==> ChainLock.Owns(s.lock, w)
  {
    hide ChainLock.Exposure, ChainLock.Reachable, Reconcile.StateOf;
    forall w | w in s.traces ensures Reconcile.StateOf(s.traces[w], chain).Some? {
      var whole := workers[w].trace;
      assert Reconcile.StateOf(whole, chain).Some?;
      Reconcile.OrderOfPrefix(whole, chain, |s.traces[w]|);
      assert whole[..|s.traces[w]|] == s.traces[w];
    }
    var n: nat :| Reach(p, ids, chain, s, n);
    RunsAreLockRuns(p, ids, chain, s, n);
    ChainLock.LockIsSafe(p, ids, s.lock);
    forall w | Live(chain, s, w) ensures s.lock.workers[w].running {
      Reconcile.OrderMeaning(s.traces[w], chain);
    }
  }
}
