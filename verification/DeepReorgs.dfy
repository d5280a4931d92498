/** Which heights live processing never reaches when deep reorgs restart the window. */
module DeepReorgs {
  import opened Common
  import opened BlockTree
  import ConfirmationBuffer
  import opened ReorgRuns
  import opened HeadDriver

  // The greatest height processed, or just below the first head when there is none.
  function Reach(first: int, done: seq<int>): (r: int)
    ensures r >= first - 1 && (r == first - 1 || r in done)
    ensures forall h :: h in done ==> h <= r
  {
    if done == [] then first - 1
    else
      assert done == done[..|done| - 1] + [done[|done| - 1]];
      Max(Reach(first, done[..|done| - 1]), done[|done| - 1])
  }

  // Every height from the first head up to the greatest processed was processed.
  predicate GapFree(first: int, done: seq<int>) {
    forall h :: first <= h <= Reach(first, done) ==> h in done
  }

  // A segment's heights appended to earlier ones: what that leaves out.
  lemma AppendSegment(first: int, before: seq<int>, since: seq<int>, root: int)
    requires GapFree(first, before) && forall i :: 0 <= i < |since| ==> since[i] == root + i
    ensures GapFree(first, before + since) <==> since == [] || root <= Reach(first, before) + 1
    ensures since != [] ==>
              forall h :: first <= h <= Reach(first, before + since) ==>
                (h !in before + since <==> Reach(first, before) < h < root)
  {
    var all := before + since;
    forall h ensures h in all <==> h in before || h in since {
    }
    forall h ensures h in since <==> root <= h < root + |since| {
      if root <= h < root + |since| {
        assert since[h - root] == h;
      }
    }
    if since == [] {
      assert all == before;
    } else {
      assert root + |since| - 1 in all;
      var low := Reach(first, before);
      assert low < low + 1 < root ==> low + 1 !in all;
    }
  }

  lemma NothingProcessed(confirmations: nat, xs: seq<Arrival>, first: int)
    ensures GapFree(first, RunDriver(confirmations, xs[..0]).processed)
  {
    NothingAtFirst(confirmations, xs);
  }

  // The first n heads of a run on which every block succeeds: the heights of the
  // current segment, and the head it started at.
  lemma LastSegment(t: Tree, confirmations: nat, xs: seq<Arrival>, n: nat) returns (s: nat, since: seq<int>)
    requires ValidTree(t) && confirmations >= 1 && 0 < n <= |xs|
    requires forall i :: 0 <= i < |xs| ==> HonestArrival(t, xs[i]) && Completes(confirmations, xs, i)
    ensures s == SegmentStart(confirmations, AsInputs(confirmations, xs[..n])) < n
    ensures RunDriver(confirmations, xs[..n]).processed == RunDriver(confirmations, xs[..s]).processed + since
    ensures forall i :: 0 <= i < |since| ==> since[i] == xs[s].head.number + i
  {
    hide RunDriver, AsInputs, Completes, SegmentStart, HonestArrival;
    var front := xs[..n];
    forall i | 0 <= i < n ensures HonestArrival(t, front[i]) && Completes(confirmations, front, i) {
      CompletesOfPrefix(confirmations, xs, n, i);
    }
    s := SegmentStart(confirmations, AsInputs(confirmations, front));
    since := LiveProcessingIsExact(t, confirmations, front);
    assert front[..s] == xs[..s];
  }

  // The segment under way after n heads processed nothing, or starts at most one
  // above the greatest height processed before it.
  ghost predicate StartsNear(confirmations: nat, xs: seq<Arrival>, n: nat)
    requires 0 < n <= |xs|
  {
    var s := SegmentStart(confirmations, AsInputs(confirmations, xs[..n]));
    var before := RunDriver(confirmations, xs[..s]).processed;
    || RunDriver(confirmations, xs[..n]).processed == before
    || xs[s].head.number <= Reach(xs[0].head.number, before) + 1
  }

  ghost predicate GapFreeAt(confirmations: nat, xs: seq<Arrival>, n: nat)
    requires n <= |xs| && xs != []
  {
    GapFree(xs[0].head.number, RunDriver(confirmations, xs[..n]).processed)
  }

  // One segment after gap-free ones: the heights it leaves out are those strictly
  // between the greatest height processed before and its root.
  lemma SegmentSkips(t: Tree, confirmations: nat, xs: seq<Arrival>, n: nat)
    requires ValidTree(t) && confirmations >= 1 && 0 < n <= |xs|
    requires forall i :: 0 <= i < |xs| ==> HonestArrival(t, xs[i]) && Completes(confirmations, xs, i)
    requires GapFreeAt(confirmations, xs, SegmentStart(confirmations, AsInputs(confirmations, xs[..n])))
    ensures GapFreeAt(confirmations, xs, n) <==> StartsNear(confirmations, xs, n)
    ensures var s := SegmentStart(confirmations, AsInputs(confirmations, xs[..n]));
            var first, before := xs[0].head.number, RunDriver(confirmations, xs[..s]).processed;
            var done := RunDriver(confirmations, xs[..n]).processed;
            done != before ==>
              forall h :: first <= h <= Reach(first, done) ==>
                (h !in done <==> Reach(first, before) < h < xs[s].head.number)
  {
    hide RunDriver, AsInputs, Completes, SegmentStart, HonestArrival, GapFree, Reach;
    var s, since := LastSegment(t, confirmations, xs, n);
    var before := RunDriver(confirmations, xs[..s]).processed;
    AppendSegment(xs[0].head.number, before, since, xs[s].head.number);
    assert since == [] ==> before + since == before;
    assert |before + since| == |before| + |since|;
  }

  // At no moment of a run is a height missed exactly when every segment that
  // processes anything starts at most one above what was processed before it. After
  // any other deep reorg the heights between are skipped.
  lemma NeverSkipsIff(t: Tree, confirmations: nat, xs: seq<Arrival>)
    requires ValidTree(t) && confirmations >= 1 && xs != []
    requires forall i :: 0 <= i < |xs| ==> HonestArrival(t, xs[i]) && Completes(confirmations, xs, i)
    ensures (forall n :: 0 <= n <= |xs| ==> GapFreeAt(confirmations, xs, n))
            <==> (forall n :: 0 < n <= |xs| ==> StartsNear(confirmations, xs, n))
  {
    hide AsInputs, Completes, SegmentStart, HonestArrival, GapFreeAt, StartsNear;
    if forall n :: 0 <= n <= |xs| ==> GapFreeAt(confirmations, xs, n) {
      forall n | 0 < n <= |xs| ensures StartsNear(confirmations, xs, n) {
        SegmentSkips(t, confirmations, xs, n);
      }
    }
    if forall n :: 0 < n <= |xs| ==> StartsNear(confirmations, xs, n) {
      forall n | 0 <= n <= |xs| ensures GapFreeAt(confirmations, xs, n) {
        StaysGapFree(t, confirmations, xs, n);
      }
    }
  }

  lemma {:induction false} StaysGapFree(t: Tree, confirmations: nat, xs: seq<Arrival>, n: nat)
    requires ValidTree(t) && confirmations >= 1 && n <= |xs| && xs != []
    requires forall i :: 0 <= i < |xs| ==> HonestArrival(t, xs[i]) && Completes(confirmations, xs, i)
    requires forall m :: 0 < m <= |xs| ==> StartsNear(confirmations, xs, m)
    ensures GapFreeAt(confirmations, xs, n)
    decreases n
  {
    hide AsInputs, Completes, SegmentStart, HonestArrival, StartsNear;
    if n == 0 {
      NothingProcessed(confirmations, xs, xs[0].head.number);
    } else {
      hide GapFreeAt;
      StaysGapFree(t, confirmations, xs, SegmentStart(confirmations, AsInputs(confirmations, xs[..n])));
      SegmentSkips(t, confirmations, xs, n);
    }
  }

  // A check at each deep reorg, when it happens: its head is at most one above the
  // greatest height processed so far.
  lemma NearHeadsNeverSkip(t: Tree, confirmations: nat, xs: seq<Arrival>)
    requires ValidTree(t) && confirmations >= 1 && xs != []
    requires forall i :: 0 <= i < |xs| ==> HonestArrival(t, xs[i]) && Completes(confirmations, xs, i)
    requires forall i :: 0 < i < |xs| && OutcomeAt(confirmations, AsInputs(confirmations, xs), i).Deep? ==>
               xs[i].head.number
               <= Reach(xs[0].head.number, RunDriver(confirmations, xs[..i]).processed) + 1
    ensures forall n :: 0 <= n <= |xs| ==> GapFreeAt(confirmations, xs, n)
  {
    hide Completes, HonestArrival, GapFreeAt, OutcomeAt, Reach, RunDriver, AsInputs;
    forall n | 0 < n <= |xs| ensures StartsNear(confirmations, xs, n) {
      var ys := AsInputs(confirmations, xs);
      InputsOfPrefix(confirmations, xs, n);
      StartIsDeep(confirmations, ys, n);
    }
    NeverSkipsIff(t, confirmations, xs);
  }

  lemma {:induction false} StartIsDeep(confirmations: nat, ys: seq<Input>, n: nat)
    requires 0 < n <= |ys|
    ensures var s := SegmentStart(confirmations, ys[..n]); s == 0 || OutcomeAt(confirmations, ys, s).Deep?
    decreases n
  {
    hide ConfirmationBuffer.Handle, Run;
    assert ys[..n][..n - 1] == ys[..n - 1] && ys[..n][n - 1] == ys[n - 1];
    if n > 1 {
      StartIsDeep(confirmations, ys, n - 1);
    }
  }
}
