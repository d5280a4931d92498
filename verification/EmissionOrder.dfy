/** In which order the configuration watcher emits versions, and how often each. */
module EmissionOrder {
  import opened Common
  import opened ConfigWatcher

  function Versions(out: seq<Snapshot>): (r: seq<int>)
    ensures |r| == |out| && forall i :: 0 <= i < |out| ==> r[i] == out[i].version
  {
    seq(|out|, i requires 0 <= i < |out| => out[i].version)
  }

  // The versions of the snapshots that reloads finish with, in the order they finish.
  ghost function Finished(s: State, steps: seq<Step>): seq<int>
    requires CanRun(s, steps)
    decreases |steps|
  {
    if steps == [] then []
    else
      (if steps[0].Finish? then [s.reloads[steps[0].id].snap.version] else [])
      + Finished(After(s, steps[0]), steps[1..])
  }

  // What is left of a sequence without the entries that equal the one before.
  function Changes(last: Option<int>, vs: seq<int>): seq<int>
    decreases |vs|
  {
    if vs == [] then []
    else (if last == Some(vs[0]) then [] else [vs[0]]) + Changes(Some(vs[0]), vs[1..])
  }

  predicate NonDecreasing(vs: seq<int>) {
    forall i, j :: 0 <= i < j < |vs| ==> vs[i] <= vs[j]
  }

  predicate Ascending(vs: seq<int>) {
    forall i, j :: 0 <= i < j < |vs| ==> vs[i] < vs[j]
  }

  predicate Distinct(vs: seq<int>) {
    forall i, j :: 0 <= i < j < |vs| ==> vs[i] != vs[j]
  }

  // No version comes back after another one.
  predicate NeverBack(vs: seq<int>) {
    forall i, j, k :: 0 <= i < j < k < |vs| && vs[i] == vs[k] ==> vs[j] == vs[i]
  }

  // ----- What is emitted is what finishes, without repetitions -----

  lemma EmitAppends(w: Watcher, snap: Snapshot)
    ensures Versions(Emit(w, snap).out) == Versions(w.out) + Changes(w.lastVersion, [snap.version])
    ensures Emit(w, snap).lastVersion == Some(snap.version)
  {
    assert [snap.version][1..] == [];
  }

  lemma ChangesOfOne(last: Option<int>, v: int, rest: seq<int>)
    ensures Changes(last, [v] + rest) == Changes(last, [v]) + Changes(Some(v), rest)
  {
    assert ([v] + rest)[1..] == rest && [v][1..] == [];
  }

  lemma {:induction false} EmittedAreChanges(s: State, steps: seq<Step>)
    requires CanRun(s, steps)
    ensures Versions(Final(s, steps).watcher.out)
            == Versions(s.watcher.out) + Changes(s.watcher.lastVersion, Finished(s, steps))
    decreases |steps|
  {
    if steps != [] {
      hide Versions, Changes, Emit;
      var next, rest := After(s, steps[0]), Finished(After(s, steps[0]), steps[1..]);
      EmittedAreChanges(next, steps[1..]);
      if steps[0].Finish? {
        var snap := s.reloads[steps[0].id].snap;
        EmitAppends(s.watcher, snap);
        ChangesOfOne(s.watcher.lastVersion, snap.version, rest);
        assert Emit(s.watcher, snap) == next.watcher;
        assert Finished(s, steps) == [snap.version] + rest;
        ConcatAssociates(Versions(s.watcher.out), Changes(s.watcher.lastVersion, [snap.version]),
                         Changes(Some(snap.version), rest));
      } else {
        assert next.watcher == s.watcher && Finished(s, steps) == rest;
      }
    }
  }

  // ----- When versions ascend -----

  lemma NoChange()
    ensures Changes(None, []) == [] && Ascending([]) && NonDecreasing([]) && Distinct([]) && NeverBack([])
  {
  }

  // The first entry is always kept.
  lemma FirstChange(vs: seq<int>)
    requires vs != []
    ensures Changes(None, vs) == [vs[0]] + Changes(Some(vs[0]), vs[1..])
  {
  }

  lemma NextChange(v: int, vs: seq<int>)
    requires vs != []
    ensures var rest := Changes(Some(vs[0]), vs[1..]);
            Changes(Some(v), vs) == if v == vs[0] then rest else [vs[0]] + rest
    ensures vs == [vs[0]] + vs[1..]
  {
  }

  lemma {:induction false} ChangesAscend(v: int, vs: seq<int>)
    ensures Ascending([v] + Changes(Some(v), vs)) <==> NonDecreasing([v] + vs)
    decreases |vs|
  {
    if vs != [] {
      hide Ascending, NonDecreasing, Changes;
      NextChange(v, vs);
      ChangesAscend(vs[0], vs[1..]);
      NonDecreasingCons(v, vs);
      if v != vs[0] {
        AscendsCons(v, Changes(Some(v), vs));
      }
    }
  }

  lemma AscendsCons(a: int, vs: seq<int>)
    requires vs != []
    ensures Ascending([a] + vs) <==> a < vs[0] && Ascending(vs)
  {
    var all := [a] + vs;
    assert all[0] == a && forall i :: 0 <= i < |vs| ==> all[i + 1] == vs[i];
    if Ascending(all) {
      forall i, j | 0 <= i < j < |vs| ensures vs[i] < vs[j] {
        assert all[i + 1] < all[j + 1];
      }
    }
  }

  lemma NonDecreasingCons(a: int, vs: seq<int>)
    requires vs != []
    ensures NonDecreasing([a] + vs) <==> a <= vs[0] && NonDecreasing(vs)
  {
    var all := [a] + vs;
    assert all[0] == a && forall i :: 0 <= i < |vs| ==> all[i + 1] == vs[i];
    if NonDecreasing(all) {
      forall i, j | 0 <= i < j < |vs| ensures vs[i] <= vs[j] {
        assert all[i + 1] <= all[j + 1];
      }
    }
  }

  // Emitted versions ascend exactly when reloads finish in the order of the
  // versions they read.
  lemma VersionsAscendIff(tables: Tables, steps: seq<Step>)
    requires CanRun(Init(tables), steps)
    ensures Ascending(Versions(Final(Init(tables), steps).watcher.out))
            <==> NonDecreasing(Finished(Init(tables), steps))
  {
    hide Changes, Ascending, NonDecreasing, CanRun, Final, Finished;
    var vs := Finished(Init(tables), steps);
    EmittedAreChanges(Init(tables), steps);
    assert [] + Changes(None, vs) == Changes(None, vs);
    if vs == [] {
      NoChange();
    } else {
      FirstChange(vs);
      ChangesAscend(vs[0], vs[1..]);
      assert vs == [vs[0]] + vs[1..];
    }
  }

  // ----- When each version is emitted once -----

  lemma {:induction false} ChangesKeepValues(v: int, vs: seq<int>, x: int)
    ensures x in [v] + Changes(Some(v), vs) <==> x in [v] + vs
    decreases |vs|
  {
    if vs != [] {
      hide Changes;
      NextChange(v, vs);
      ChangesKeepValues(vs[0], vs[1..], x);
    }
  }

  lemma DistinctCons(a: int, vs: seq<int>)
    ensures Distinct([a] + vs) <==> a !in vs && Distinct(vs)
  {
    var all := [a] + vs;
    assert all[0] == a && forall i :: 0 <= i < |vs| ==> all[i + 1] == vs[i];
    if Distinct(all) {
      forall i, j | 0 <= i < j < |vs| ensures vs[i] != vs[j] {
        assert all[i + 1] != all[j + 1];
      }
    }
  }

  lemma NeverBackTail(a: int, vs: seq<int>)
    requires NeverBack([a] + vs)
    ensures NeverBack(vs)
  {
    var all := [a] + vs;
    forall i, j, k | 0 <= i < j < k < |vs| && vs[i] == vs[k] ensures vs[j] == vs[i] {
      assert all[i + 1] == vs[i] && all[j + 1] == vs[j] && all[k + 1] == vs[k];
    }
  }

  // A repetition at the front does not matter.
  lemma NeverBackTwice(a: int, rest: seq<int>)
    requires NeverBack([a] + rest)
    ensures NeverBack([a] + ([a] + rest))
  {
    var one, two := [a] + rest, [a] + ([a] + rest);
    assert forall i :: 0 < i < |two| ==> two[i] == one[i - 1];
    forall i, j, k | 0 <= i < j < k < |two| && two[i] == two[k] ensures two[j] == two[i] {
      if j > 1 {
        var first := if i == 0 then 0 else i - 1;
        assert one[first] == one[k - 1];
        assert first < j - 1 ==> one[j - 1] == one[first];
      }
    }
  }

  // After another value the first one must not come back.
  lemma NeverBackCons(a: int, v: int, rest: seq<int>)
    requires a != v
    ensures NeverBack([a] + ([v] + rest)) <==> a !in rest && NeverBack([v] + rest)
  {
    if NeverBack([a] + ([v] + rest)) {
      NeverBackTail(a, [v] + rest);
      var all := [a] + ([v] + rest);
      forall k | 0 <= k < |rest| ensures rest[k] != a {
        assert all[0] == a && all[1] == v && all[k + 2] == rest[k];
      }
    }
    if a !in rest && NeverBack([v] + rest) {
      NeverBackNew(a, [v] + rest);
    }
  }

  lemma NeverBackNew(a: int, vs: seq<int>)
    requires a !in vs && NeverBack(vs)
    ensures NeverBack([a] + vs)
  {
    var all := [a] + vs;
    forall i, j, k | 0 <= i < j < k < |all| && all[i] == all[k] ensures all[j] == all[i] {
      assert all[k] == vs[k - 1] && all[j] == vs[j - 1];
      assert i > 0 && all[i] == vs[i - 1];
    }
  }

  lemma {:induction false} ChangesDistinct(v: int, vs: seq<int>)
    ensures Distinct([v] + Changes(Some(v), vs)) <==> NeverBack([v] + vs)
    decreases |vs|
  {
    if vs != [] {
      hide Distinct, NeverBack, Changes;
      NextChange(v, vs);
      ChangesDistinct(vs[0], vs[1..]);
      if v == vs[0] {
        NeverBackIdem(v, vs[1..]);
      } else {
        DistinctCons(v, Changes(Some(v), vs));
        NeverBackCons(v, vs[0], vs[1..]);
        ChangesKeepValues(vs[0], vs[1..], v);
      }
    } else {
      assert Changes(Some(v), vs) == [];
    }
  }

  lemma NeverBackIdem(v: int, rest: seq<int>)
    ensures NeverBack([v] + ([v] + rest)) <==> NeverBack([v] + rest)
  {
    hide NeverBack;
    if NeverBack([v] + ([v] + rest)) {
      NeverBackTail(v, [v] + rest);
    }
    if NeverBack([v] + rest) {
      NeverBackTwice(v, rest);
    }
  }

  // No version is emitted twice exactly when no reload of a version finishes
  // after one of another version that itself finished after one of the first.
  lemma EachVersionOnceIff(tables: Tables, steps: seq<Step>)
    requires CanRun(Init(tables), steps)
    ensures Distinct(Versions(Final(Init(tables), steps).watcher.out))
            <==> NeverBack(Finished(Init(tables), steps))
  {
    hide Changes, Distinct, NeverBack, CanRun, Final, Finished;
    var vs := Finished(Init(tables), steps);
    EmittedAreChanges(Init(tables), steps);
    assert [] + Changes(None, vs) == Changes(None, vs);
    if vs == [] {
      NoChange();
    } else {
      FirstChange(vs);
      ChangesDistinct(vs[0], vs[1..]);
      assert vs == [vs[0]] + vs[1..];
    }
  }

  // ----- One reload at a time -----

  ghost predicate OneInFlight(s: State) {
    forall a, b :: a in s.reloads && b in s.reloads ==> a == b
  }

  ghost predicate OneAtATime(s: State, steps: seq<Step>)
    requires CanRun(s, steps)
    decreases |steps|
  {
    OneInFlight(s) && (steps != [] ==> OneAtATime(After(s, steps[0]), steps[1..]))
  }

  // Nothing read is older than what was last emitted, or newer than the tables.
  ghost predicate UpToDate(s: State) {
    && s.history != []
    && (s.watcher.lastVersion.Some? ==> s.watcher.lastVersion.value <= Version(s))
    && forall id :: id in s.reloads ==> NotOlder(s, s.reloads[id])
  }

  ghost predicate NotOlder(s: State, r: Reload) {
    match r
    case Begun => true
    case Loaded(snap) => InOrder(s, snap.version)
    case _ => InOrder(s, r.version)
  }

  ghost predicate InOrder(s: State, v: int) {
    v <= Version(s) && (s.watcher.lastVersion.Some? ==> s.watcher.lastVersion.value <= v)
  }

  lemma StaysUpToDate(s: State, step: Step)
    requires UpToDate(s) && OneInFlight(s) && Enabled(s, step) && OneInFlight(After(s, step))
    ensures UpToDate(After(s, step))
  {
    var s' := After(s, step);
    forall id | id in s'.reloads ensures NotOlder(s', s'.reloads[id]) {
      if step.Finish? {
        assert false;
      }
    }
  }

  function Known(last: Option<int>): seq<int> {
    if last.None? then [] else [last.value]
  }

  lemma {:induction false} FinishesInOrder(s: State, steps: seq<Step>)
    requires CanRun(s, steps) && OneAtATime(s, steps) && UpToDate(s)
    ensures NonDecreasing(Known(s.watcher.lastVersion) + Finished(s, steps))
    decreases |steps|
  {
    if steps != [] {
      hide NonDecreasing, OneInFlight;
      var next := After(s, steps[0]);
      StaysUpToDate(s, steps[0]);
      FinishesInOrder(next, steps[1..]);
      var rest := Finished(next, steps[1..]);
      if steps[0].Finish? {
        var v := s.reloads[steps[0].id].snap.version;
        assert Known(next.watcher.lastVersion) == [v];
        assert Finished(s, steps) == [v] + rest;
        if s.watcher.lastVersion.Some? {
          NonDecreasingCons(s.watcher.lastVersion.value, [v] + rest);
        } else {
          assert [] + ([v] + rest) == [v] + rest;
        }
      } else {
        assert Finished(s, steps) == rest;
      }
    }
  }

  lemma {:induction false} AscendingIsLong(vs: seq<int>, i: nat)
    requires Ascending(vs) && i < |vs| && vs[0] >= 0
    ensures vs[i] >= i
  {
    if i > 0 {
      AscendingIsLong(vs, i - 1);
    }
  }

  // If a reload only begins when none is under way, versions ascend, and there
  // is at most one emission for the first snapshot and each change.
  lemma OneAtATimeAscends(tables: Tables, steps: seq<Step>)
    requires CanRun(Init(tables), steps) && OneAtATime(Init(tables), steps)
    ensures var s := Final(Init(tables), steps);
            Ascending(Versions(s.watcher.out)) && |s.watcher.out| <= |s.history|
  {
    hide CanRun, Final, Finished, OneAtATime, Reflects, NonDecreasing;
    var s, vs := Final(Init(tables), steps), Finished(Init(tables), steps);
    FinishesInOrder(Init(tables), steps);
    assert [] + vs == vs;
    VersionsAscendIff(tables, steps);
    EmissionsAreSound(tables, steps);
    if s.watcher.out != [] {
      var last := |s.watcher.out| - 1;
      InHistory(s.history, s.watcher.out[0]);
      InHistory(s.history, s.watcher.out[last]);
      AscendingIsLong(Versions(s.watcher.out), last);
    }
  }

  lemma InHistory(h: seq<Tables>, snap: Snapshot)
    requires Reflects(h, snap)
    ensures 0 <= snap.version < |h|
  {
  }

  // ----- More emissions than changes -----

  // One change, three emissions: two reloads read the first version, one the
  // second, and it finishes between them.
  lemma EmittedTwice(t0: Tables, t1: Tables) returns (steps: seq<Step>)
    ensures CanRun(Init(t0), steps)
    ensures var s := Final(Init(t0), steps);
            && s.history == [t0, t1]
            && s.watcher.out == [Snapshot(0, t0), Snapshot(1, t1), Snapshot(0, t0)]
  {
    hide CanRun, Final;
    var s0 := Init(t0);
    LoadAtOnce(s0, 0);
    var s1 := s0.(reloads := map[0 := Loaded(Snapshot(0, t0))]);
    LoadAtOnce(s1, 2);
    var s2 := s1.(reloads := s1.reloads[2 := Loaded(Snapshot(0, t0))]);
    OneStep(s2, Write(t1));
    var s3 := After(s2, Write(t1));
    LoadAtOnce(s3, 1);
    var s4 := s3.(reloads := s3.reloads[1 := Loaded(Snapshot(1, t1))]);
    OneStep(s4, Finish(0));
    var s5 := After(s4, Finish(0));
    OneStep(s5, Finish(1));
    var s6 := After(s5, Finish(1));
    OneStep(s6, Finish(2));
    var a := Loading(0) + Loading(2);
    var b := a + [Write(t1)];
    var c := b + Loading(1);
    var d := c + [Finish(0)];
    var e := d + [Finish(1)];
    RunsJoin(s0, Loading(0), Loading(2));
    RunsJoin(s0, a, [Write(t1)]);
    RunsJoin(s0, b, Loading(1));
    RunsJoin(s0, c, [Finish(0)]);
    RunsJoin(s0, d, [Finish(1)]);
    RunsJoin(s0, e, [Finish(2)]);
    steps := e + [Finish(2)];
  }
}
