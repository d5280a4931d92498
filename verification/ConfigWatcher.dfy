/** Reloading the configuration from two triggers while it is being written. */
module ConfigWatcher {
  import opened Common

  // The contents of the tables a snapshot is built from.
  type Rows = map<string, string>
  datatype Tables = Tables(chains: Rows, abis: Rows, subscriptions: Rows)

  datatype Snapshot = Snapshot(version: int, tables: Tables)

  // ----- The watcher's own state -----

  datatype Watcher = Watcher(lastVersion: Option<int>, out: seq<Snapshot>)

  // What the end of a reload does: emit only a version other than the last one.
  function Emit(w: Watcher, snap: Snapshot): Watcher {
    if w.lastVersion == Some(snap.version) then w
    else Watcher(Some(snap.version), w.out + [snap])
  }

  class ConfigWatcher {
    var lastVersion: Option<int>
    var out: seq<Snapshot>

    constructor ()
      ensures Now() == Watcher(None, [])
    {
      lastVersion, out := None, [];
    }

    function Now(): Watcher
      reads this
    {
      Watcher(lastVersion, out)
    }

    // `loaded` is None when loading raised.
    method ReloadAndMaybeEmit(loaded: Option<Snapshot>)
      modifies this
      ensures Now() == if loaded.None? then old(Now()) else Emit(old(Now()), loaded.value)
    {
      if loaded.None? {
        return;
      }
      var snap := loaded.value;
      if lastVersion.Some? && snap.version == lastVersion.value {
        return;
      }
      lastVersion := Some(snap.version);
      out := out + [snap];
    }
  }

  // ----- Interleaved reloads and writes -----

  // How far a reload has read; the version is read first.
  datatype Reload =
    | Begun
    | GotVersion(version: int)
    | GotChains(version: int, chains: Rows)
    | GotAbis(version: int, chains: Rows, abis: Rows)
    | Loaded(snap: Snapshot)

  // `history` holds every committed state of the tables; each write commits
  // together with one bump, so the version is the number of writes.
  datatype State = State(history: seq<Tables>, watcher: Watcher, reloads: map<nat, Reload>)

  datatype Step =
    | Write(tables: Tables)
    | Begin(id: nat)
    | ReadVersion(id: nat)
    | ReadChains(id: nat)
    | ReadAbis(id: nat)
    | ReadSubscriptions(id: nat)
    | Finish(id: nat)
    | Fail(id: nat)

  function Version(s: State): int {
    |s.history| - 1
  }

  function Current(s: State): Snapshot
    requires s.history != []
  {
    Snapshot(Version(s), s.history[|s.history| - 1])
  }

  predicate Enabled(s: State, step: Step) {
    s.history != [] &&
    match step
    case Write(_) => true
    case Begin(id) => id !in s.reloads
    case ReadVersion(id) => id in s.reloads && s.reloads[id].Begun?
    case ReadChains(id) => id in s.reloads && s.reloads[id].GotVersion?
    case ReadAbis(id) => id in s.reloads && s.reloads[id].GotChains?
    case ReadSubscriptions(id) => id in s.reloads && s.reloads[id].GotAbis?
    case Finish(id) => id in s.reloads && s.reloads[id].Loaded?
    case Fail(id) => id in s.reloads
  }

  function Read(s: State, r: Reload): Reload
    requires s.history != [] && !r.Loaded?
  {
    var now := s.history[|s.history| - 1];
    match r
    case Begun => GotVersion(Version(s))
    case GotVersion(v) => GotChains(v, now.chains)
    case GotChains(v, c) => GotAbis(v, c, now.abis)
    case GotAbis(v, c, a) => Loaded(Snapshot(v, Tables(c, a, now.subscriptions)))
  }

  function After(s: State, step: Step): State
    requires Enabled(s, step)
  {
    match step
    case Write(t) => s.(history := s.history + [t])
    case Begin(id) => s.(reloads := s.reloads[id := Begun])
    case Finish(id) => State(s.history, Emit(s.watcher, s.reloads[id].snap), s.reloads - {id})
    case Fail(id) => s.(reloads := s.reloads - {id})
    case _ => s.(reloads := s.reloads[step.id := Read(s, s.reloads[step.id])])
  }

  function Init(tables: Tables): State {
    State([tables], Watcher(None, []), map[])
  }

  // ----- What every run keeps -----

  // A table read that holds every write up to version v.
  ghost predicate Holds(h: seq<Tables>, v: int, get: Tables -> Rows, rows: Rows) {
    exists i :: 0 <= v <= i < |h| && rows == get(h[i])
  }

  ghost const CHAINS: Tables -> Rows := (t: Tables) => t.chains
  ghost const ABIS: Tables -> Rows := (t: Tables) => t.abis
  ghost const SUBSCRIPTIONS: Tables -> Rows := (t: Tables) => t.subscriptions

  ghost predicate Reflects(h: seq<Tables>, s: Snapshot) {
    && 0 <= s.version < |h|
    && Holds(h, s.version, CHAINS, s.tables.chains)
    && Holds(h, s.version, ABIS, s.tables.abis)
    && Holds(h, s.version, SUBSCRIPTIONS, s.tables.subscriptions)
  }

  ghost predicate ReloadOk(h: seq<Tables>, r: Reload) {
    match r
    case Begun => true
    case GotVersion(v) => 0 <= v < |h|
    case GotChains(v, c) => 0 <= v < |h| && Holds(h, v, CHAINS, c)
    case GotAbis(v, c, a) => 0 <= v < |h| && Holds(h, v, CHAINS, c) && Holds(h, v, ABIS, a)
    case Loaded(s) => Reflects(h, s)
  }

  ghost predicate WatcherOk(h: seq<Tables>, w: Watcher) {
    && (forall i :: 0 <= i < |w.out| ==> Reflects(h, w.out[i]))
    && (forall i, j :: 0 <= i < j < |w.out| && j == i + 1 ==> w.out[i].version != w.out[j].version)
    && w.lastVersion == if w.out == [] then None else Some(w.out[|w.out| - 1].version)
  }

  ghost predicate Inv(s: State) {
    && s.history != []
    && WatcherOk(s.history, s.watcher)
    && forall id :: id in s.reloads ==> ReloadOk(s.history, s.reloads[id])
  }

  lemma HoldsLater(h: seq<Tables>, t: Tables, v: int, get: Tables -> Rows, rows: Rows)
    requires Holds(h, v, get, rows)
    ensures Holds(h + [t], v, get, rows)
  {
    var i :| 0 <= v <= i < |h| && rows == get(h[i]);
    assert (h + [t])[i] == h[i];
  }

  lemma HoldsNow(h: seq<Tables>, v: int, get: Tables -> Rows)
    requires 0 <= v < |h|
    ensures Holds(h, v, get, get(h[|h| - 1]))
  {
    assert 0 <= v <= |h| - 1 < |h|;
  }

  lemma ReflectsLater(h: seq<Tables>, t: Tables, s: Snapshot)
    requires Reflects(h, s)
    ensures Reflects(h + [t], s)
  {
    HoldsLater(h, t, s.version, CHAINS, s.tables.chains);
    HoldsLater(h, t, s.version, ABIS, s.tables.abis);
    HoldsLater(h, t, s.version, SUBSCRIPTIONS, s.tables.subscriptions);
  }

  lemma ReloadOkLater(h: seq<Tables>, t: Tables, r: Reload)
    requires ReloadOk(h, r)
    ensures ReloadOk(h + [t], r)
  {
    match r
    case Begun =>
    case GotVersion(_) =>
    case GotChains(v, c) => HoldsLater(h, t, v, CHAINS, c);
    case GotAbis(v, c, a) =>
      HoldsLater(h, t, v, CHAINS, c);
      HoldsLater(h, t, v, ABIS, a);
    case Loaded(s) => ReflectsLater(h, t, s);
  }

  lemma ReadIsOk(s: State, r: Reload)
    requires s.history != [] && !r.Loaded? && ReloadOk(s.history, r)
    ensures ReloadOk(s.history, Read(s, r))
  {
    var h := s.history;
    match r
    case Begun =>
    case GotVersion(v) => HoldsNow(h, v, CHAINS);
    case GotChains(v, _) => HoldsNow(h, v, ABIS);
    case GotAbis(v, _, _) => HoldsNow(h, v, SUBSCRIPTIONS);
  }

  // Consecutive emitted versions differ, and a snapshot of version v holds every
  // write committed up to v, under every interleaving of writers and reloads.
  lemma StepKeepsInv(s: State, step: Step)
    requires Inv(s) && Enabled(s, step)
    ensures Inv(After(s, step))
  {
    hide Reflects, ReloadOk;
    var s' := After(s, step);
    match step
    case Write(t) =>
      forall i | 0 <= i < |s.watcher.out| ensures Reflects(s'.history, s.watcher.out[i]) {
        ReflectsLater(s.history, t, s.watcher.out[i]);
      }
      forall id | id in s.reloads ensures ReloadOk(s'.history, s.reloads[id]) {
        ReloadOkLater(s.history, t, s.reloads[id]);
      }
    case Begin(_) => NewReloadOk(s.history);
    case Finish(id) => LoadedReflects(s.history, s.reloads[id]);
    case Fail(_) =>
    case _ => ReadIsOk(s, s.reloads[step.id]);
  }

  lemma NewReloadOk(h: seq<Tables>)
    ensures ReloadOk(h, Begun)
  {
  }

  lemma LoadedReflects(h: seq<Tables>, r: Reload)
    requires r.Loaded? && ReloadOk(h, r)
    ensures Reflects(h, r.snap)
  {
  }

  // ----- Runs -----

  ghost predicate CanRun(s: State, steps: seq<Step>)
    decreases |steps|
  {
    steps == [] || (Enabled(s, steps[0]) && CanRun(After(s, steps[0]), steps[1..]))
  }

  ghost function Final(s: State, steps: seq<Step>): State
    requires CanRun(s, steps)
    decreases |steps|
  {
    if steps == [] then s else Final(After(s, steps[0]), steps[1..])
  }

  lemma {:induction false} RunKeepsInv(s: State, steps: seq<Step>)
    requires Inv(s) && CanRun(s, steps)
    ensures Inv(Final(s, steps))
    decreases |steps|
  {
    hide Inv, After, Enabled;
    if steps != [] {
      StepKeepsInv(s, steps[0]);
      RunKeepsInv(After(s, steps[0]), steps[1..]);
    }
  }

  // Every emission of every run.
  lemma EmissionsAreSound(tables: Tables, steps: seq<Step>)
    requires CanRun(Init(tables), steps)
    ensures var s := Final(Init(tables), steps);
            && (forall i :: 0 <= i < |s.watcher.out| ==> Reflects(s.history, s.watcher.out[i]))
            && (forall i, j :: 0 <= i < j < |s.watcher.out| && j == i + 1
                  ==> s.watcher.out[i].version != s.watcher.out[j].version)
  {
    hide Reflects, CanRun, Final;
    RunKeepsInv(Init(tables), steps);
  }

  // ----- Convergence -----

  // Everything a reload has read so far is the current state of the tables.
  ghost predicate Fresh(s: State, r: Reload)
    requires s.history != []
  {
    var now := Current(s);
    match r
    case Begun => true
    case GotVersion(v) => v == now.version
    case GotChains(v, c) => v == now.version && c == now.tables.chains
    case GotAbis(v, c, a) => v == now.version && c == now.tables.chains && a == now.tables.abis
    case Loaded(snap) => snap == now
  }

  // The reloads that began before the last write are over.
  ghost predicate Quiet(s: State) {
    s.history != [] && forall id :: id in s.reloads ==> Fresh(s, s.reloads[id])
  }

  ghost predicate Settled(s: State) {
    s.history != [] && s.watcher.out != [] && s.watcher.out[|s.watcher.out| - 1] == Current(s)
  }

  // A snapshot of the current version is the current state.
  lemma CurrentVersionIsCurrent(h: seq<Tables>, s: Snapshot)
    requires h != [] && Reflects(h, s) && s.version == |h| - 1
    ensures s.tables == h[|h| - 1]
  {
  }

  lemma QuietStep(s: State, step: Step)
    requires Inv(s) && Quiet(s) && Enabled(s, step) && !step.Write?
    ensures Inv(After(s, step)) && Quiet(After(s, step))
    ensures Settled(s) || step.Finish? ==> Settled(After(s, step))
  {
    hide Reflects;
    StepKeepsInv(s, step);
    if step.Finish? && s.watcher.lastVersion == Some(Version(s)) {
      CurrentVersionIsCurrent(s.history, s.watcher.out[|s.watcher.out| - 1]);
    }
  }

  // Once writing has stopped and the reloads of that time are over, the first
  // reload to finish leaves the last emitted snapshot equal to the database, and
  // nothing after it changes that.
  lemma {:induction false} Converges(s: State, steps: seq<Step>)
    requires Inv(s) && Quiet(s) && CanRun(s, steps)
    requires forall i :: 0 <= i < |steps| ==> !steps[i].Write?
    requires Settled(s) || exists i :: 0 <= i < |steps| && steps[i].Finish?
    ensures Settled(Final(s, steps)) && Final(s, steps).history == s.history
    decreases |steps|
  {
    hide Inv, Quiet, Settled, Enabled;
    if steps != [] {
      var next := After(s, steps[0]);
      QuietStep(s, steps[0]);
      assert !steps[0].Write?;
      if !(Settled(s) || steps[0].Finish?) {
        var i :| 0 <= i < |steps| && steps[i].Finish?;
        assert steps[1..][i - 1].Finish?;
      }
      Converges(next, steps[1..]);
    }
  }

  // Before that, a slow reload can emit an older version after a newer one: the
  // watcher compares versions for difference, not for order.
  function Loading(id: nat): seq<Step> {
    [Begin(id)] + [ReadVersion(id)] + [ReadChains(id)] + [ReadAbis(id)] + [ReadSubscriptions(id)]
  }

  lemma {:induction false} RunsJoin(s: State, a: seq<Step>, b: seq<Step>)
    requires CanRun(s, a) && CanRun(Final(s, a), b)
    ensures CanRun(s, a + b) && Final(s, a + b) == Final(Final(s, a), b)
    decreases |a|
  {
    hide Enabled, After;
    if a == [] {
      assert a + b == b;
    } else {
      assert (a + b)[1..] == a[1..] + b;
      RunsJoin(After(s, a[0]), a[1..], b);
    }
  }

  lemma OneStep(s: State, step: Step)
    requires Enabled(s, step)
    ensures CanRun(s, [step]) && Final(s, [step]) == After(s, step)
  {
    assert [step][1..] == [];
  }

  // A whole load with nothing in between reads the current state.
  lemma LoadAtOnce(s: State, id: nat)
    requires s.history != [] && id !in s.reloads
    ensures CanRun(s, Loading(id))
    ensures Final(s, Loading(id)) == s.(reloads := s.reloads[id := Loaded(Current(s))])
  {
    hide CanRun, Final;
    var s1 := After(s, Begin(id));
    var s2 := After(s1, ReadVersion(id));
    var s3 := After(s2, ReadChains(id));
    var s4 := After(s3, ReadAbis(id));
    var s5 := After(s4, ReadSubscriptions(id));
    assert s5.reloads == s.reloads[id := Loaded(Current(s))];
    OneStep(s, Begin(id));
    OneStep(s1, ReadVersion(id));
    OneStep(s2, ReadChains(id));
    OneStep(s3, ReadAbis(id));
    OneStep(s4, ReadSubscriptions(id));
    RunsJoin(s, [Begin(id)], [ReadVersion(id)]);
    RunsJoin(s, [Begin(id)] + [ReadVersion(id)], [ReadChains(id)]);
    RunsJoin(s, [Begin(id)] + [ReadVersion(id)] + [ReadChains(id)], [ReadAbis(id)]);
    RunsJoin(s, [Begin(id)] + [ReadVersion(id)] + [ReadChains(id)] + [ReadAbis(id)], [ReadSubscriptions(id)]);
  }

  lemma OlderCanFollowNewer(t0: Tables, t1: Tables) returns (steps: seq<Step>)
    ensures CanRun(Init(t0), steps)
    ensures var out := Final(Init(t0), steps).watcher.out;
            out == [Snapshot(1, t1), Snapshot(0, t0)]
  {
    hide CanRun, Final;
    var s0 := Init(t0);
    LoadAtOnce(s0, 0);
    var s1 := s0.(reloads := s0.reloads[0 := Loaded(Snapshot(0, t0))]);
    OneStep(s1, Write(t1));
    var s2 := After(s1, Write(t1));
    LoadAtOnce(s2, 1);
    var s3 := s2.(reloads := s2.reloads[1 := Loaded(Snapshot(1, t1))]);
    OneStep(s3, Finish(1));
    var s4 := After(s3, Finish(1));
    OneStep(s4, Finish(0));
    RunsJoin(s0, Loading(0), [Write(t1)]);
    RunsJoin(s0, Loading(0) + [Write(t1)], Loading(1));
    RunsJoin(s0, Loading(0) + [Write(t1)] + Loading(1), [Finish(1)]);
    RunsJoin(s0, Loading(0) + [Write(t1)] + Loading(1) + [Finish(1)], [Finish(0)]);
    steps := Loading(0) + [Write(t1)] + Loading(1) + [Finish(1)] + [Finish(0)];
  }
}
