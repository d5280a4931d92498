/** One worker's runners and locks across snapshots. */
module Reconcile {
  import opened Common

  datatype Snapshot = Snapshot(version: int, chains: seq<string>)

  // What happens to a chain, in order; `Releasing` and `Released` are the start and
  // the end of lock.release().
  datatype Action =
    | Acquired(chain: string)
    | Started(chain: string)
    | Stopped(chain: string)
    | Releasing(chain: string)
    | Released(chain: string)

  datatype ChainState = Free | Locked | Running | Leaving

  // The only order in which one chain may be taken up and given back.
  function Next(s: ChainState, a: Action): Option<ChainState> {
    match (s, a)
    case (Free, Acquired(_)) => Some(Locked)
    case (Locked, Started(_)) => Some(Running)
    case (Running, Stopped(_)) => Some(Locked)
    case (Locked, Releasing(_)) => Some(Leaving)
    case (Leaving, Released(_)) => Some(Free)
    case _ => None
  }

  // Where a history leaves a chain; None once the order is broken.
  function StateOf(trace: seq<Action>, chain: string): Option<ChainState> {
    if trace == [] then Some(Free)
    else
      var before, a := StateOf(trace[..|trace| - 1], chain), trace[|trace| - 1];
      if before.None? || a.chain != chain then before else Next(before.value, a)
  }

  // Acquiring the lock, and starting the runner, may fail.
  datatype Env = Env(acquires: string -> bool, starts: string -> bool)

  function Enabled(snap: Snapshot): set<string> {
    set c | c in snap.chains
  }

  // The chains a reconcile leaves running.
  function Wanted(running: set<string>, snap: Snapshot, env: Env): set<string> {
    set c | c in snap.chains && (c in running || (env.acquires(c) && env.starts(c)))
  }

  class Worker {
    var runners: map<string, int>   // chain -> version of the snapshot its runner works with
    var locks: set<string>
    ghost var trace: seq<Action>

    constructor ()
      ensures Valid() && runners == map[] && trace == []
    {
      runners, locks, trace := map[], {}, [];
    }

    // At rest every runner has its lock and every lock its runner, and each
    // chain's runner has lived strictly inside its lock.
    ghost predicate Valid()
      reads this
    {
      && runners.Keys == locks
      && Consistent()
    }

    ghost predicate Consistent()
      reads this
    {
      && runners.Keys <= locks
      && forall c :: StateOf(trace, c) == Some(if c in runners then Running else if c in locks then Locked else Free)
    }

    method AddRunner(c: string, version: int)
      requires Consistent() && c in locks && c !in runners
      modifies this`runners, this`trace
      ensures Consistent() && runners == old(runners)[c := version] && trace == old(trace) + [Started(c)]
    {
      runners := runners[c := version];
      trace := trace + [Started(c)];
      Grow(old(trace), Started(c));
    }

    method StopRunner(c: string)
      requires Consistent() && c in runners
      modifies this`runners, this`trace
      ensures Consistent() && runners == old(runners) - {c} && trace == old(trace) + [Stopped(c)]
    {
      runners := runners - {c};
      trace := trace + [Stopped(c)];
      Grow(old(trace), Stopped(c));
    }

    method AddLock(c: string)
      requires Consistent() && c !in locks
      modifies this`locks, this`trace
      ensures Consistent() && locks == old(locks) + {c} && trace == old(trace) + [Acquired(c)]
    {
      locks := locks + {c};
      trace := trace + [Acquired(c)];
      Grow(old(trace), Acquired(c));
    }

    method ReleaseLock(c: string)
      requires Consistent() && c in locks && c !in runners
      modifies this`locks, this`trace
      ensures Consistent() && locks == old(locks) - {c} && trace == old(trace) + [Releasing(c)] + [Released(c)]
    {
      locks := locks - {c};
      trace := trace + [Releasing(c)];
      Grow(old(trace), Releasing(c));
      trace := trace + [Released(c)];
      Grow(old(trace) + [Releasing(c)], Released(c));
    }

    // Stop the runners of chains that are gone, and release their locks.
    method DropGone(enabled: set<string>)
      requires Valid()
      modifies this
      ensures Valid() && old(trace) <= trace
      ensures runners == map c | c in old(runners) && c in enabled :: old(runners)[c]
    {
      var todo := runners.Keys;
      while todo != {}
        invariant Valid() && todo <= runners.Keys && old(trace) <= trace
        invariant forall c :: c in runners <==> c in old(runners) && (c in enabled || c in todo)
        invariant forall c :: c in runners ==> runners[c] == old(runners)[c]
        decreases |todo|
      {
        var c :| c in todo;
        todo := todo - {c};
        if c !in enabled {
          StopRunner(c);
          if c in locks {
            ReleaseLock(c);
          }
        }
      }
    }

    // One enabled chain: hand the snapshot to its runner, or try to take it up.
    method TakeUp(c: string, version: int, env: Env)
      requires Valid()
      modifies this
      ensures Valid() && old(trace) <= trace
      ensures runners == if c in old(runners) || (env.acquires(c) && env.starts(c))
                         then old(runners)[c := version] else old(runners)
    {
      if c in runners {
        runners := runners[c := version];
        return;
      }
      if !env.acquires(c) {
        return;
      }
      AddLock(c);
      if !env.starts(c) {
        ReleaseLock(c);
        return;
      }
      AddRunner(c, version);
    }

    // After a reconcile: exactly the enabled chains that were running or could be
    // acquired and started are running, all on the new snapshot.
    method Reconcile(snap: Snapshot, env: Env)
      requires Valid()
      modifies this
      ensures Valid() && old(trace) <= trace
      ensures runners.Keys == Wanted(old(runners.Keys), snap, env) <= Enabled(snap)
      ensures forall c :: c in runners ==> runners[c] == snap.version
    {
      hide Consistent;
      DropGone(Enabled(snap));
      ghost var kept := runners.Keys;
      for i := 0 to |snap.chains|
        invariant Valid() && old(trace) <= trace
        invariant runners.Keys == kept + Wanted(kept, Snapshot(snap.version, snap.chains[..i]), env)
        invariant forall c :: c in snap.chains[..i] && c in runners ==> runners[c] == snap.version
      {
        TakeUp(snap.chains[i], snap.version, env);
        assert snap.chains[..i + 1] == snap.chains[..i] + [snap.chains[i]];
      }
      assert snap.chains[..|snap.chains|] == snap.chains;
    }

    // Stop every runner, then release every lock.
    method Shutdown()
      requires Valid()
      modifies this
      ensures Valid() && runners == map[] && old(trace) <= trace
      ensures forall c :: StateOf(trace, c) == Some(Free)
    {
      while runners != map[]
        invariant Consistent() && old(trace) <= trace
        decreases |runners|
      {
        var c :| c in runners;
        StopRunner(c);
        assert old(trace) <= trace;
      }
      while locks != {}
        invariant Consistent() && runners == map[] && old(trace) <= trace
        decreases |locks|
      {
        var c :| c in locks;
        ReleaseLock(c);
      }
    }
  }

  lemma Grow(trace: seq<Action>, a: Action)
    ensures forall c :: StateOf(trace + [a], c) ==
              if StateOf(trace, c).None? || a.chain != c then StateOf(trace, c) else Next(StateOf(trace, c).value, a)
  {
    assert (trace + [a])[..|trace|] == trace;
  }

  // ----- What the order means -----

  // A chain's runner is alive after a history when it was started and not stopped.
  function Alive(trace: seq<Action>, chain: string): bool {
    if trace == [] then false
    else match trace[|trace| - 1]
      case Started(c) => c == chain || Alive(trace[..|trace| - 1], chain)
      case Stopped(c) => c != chain && Alive(trace[..|trace| - 1], chain)
      case _ => Alive(trace[..|trace| - 1], chain)
  }

  // A chain's lock is held when it was acquired and its release has not begun.
  function Owned(trace: seq<Action>, chain: string): bool {
    if trace == [] then false
    else match trace[|trace| - 1]
      case Acquired(c) => c == chain || Owned(trace[..|trace| - 1], chain)
      case Releasing(c) => c != chain && Owned(trace[..|trace| - 1], chain)
      case _ => Owned(trace[..|trace| - 1], chain)
  }

  lemma {:induction false} OrderMeaning(trace: seq<Action>, chain: string)
    requires StateOf(trace, chain).Some?
    ensures Alive(trace, chain) <==> StateOf(trace, chain).value.Running?
    ensures Owned(trace, chain) <==> StateOf(trace, chain).value.Locked? || StateOf(trace, chain).value.Running?
  {
    if trace != [] {
      OrderMeaning(trace[..|trace| - 1], chain);
    }
  }

  lemma {:induction false} OrderOfPrefix(trace: seq<Action>, chain: string, i: nat)
    requires i <= |trace| && StateOf(trace, chain).Some?
    ensures StateOf(trace[..i], chain).Some?
    decreases |trace|
  {
    if i < |trace| {
      assert trace[..|trace| - 1][..i] == trace[..i];
      OrderOfPrefix(trace[..|trace| - 1], chain, i);
    } else {
      assert trace[..i] == trace;
    }
  }

  // At every moment of every run of reconciles and shutdowns, a chain whose
  // runner is alive has its lock held.
  lemma RunnerInsideLock(w: Worker, chain: string, i: nat)
    requires w.Consistent() && i <= |w.trace|
    ensures Alive(w.trace[..i], chain) ==> Owned(w.trace[..i], chain)
  {
    assert StateOf(w.trace, chain).Some?;
    OrderOfPrefix(w.trace, chain, i);
    OrderMeaning(w.trace[..i], chain);
  }
}
