/** Live processing with node-side filtering, against one block at a time with all logs. */
module LiveDeliveries {
  import opened Common
  import opened BlockTree
  import opened ReorgRuns
  import opened HeadDriver
  import opened Snapshots
  import opened LogFetch
  import EvmCatchup
  import opened LogParsers
  import opened PushDown
  import opened EvmDeliveries

  // _process_confirmed_block: the block of a height, and what the filter lets
  // through of its logs, fetched for that one block.
  ghost function Fetched(f: LogFilter, src: Source, heights: seq<int>): seq<EvmCatchup.Processed> {
    if heights == [] then []
    else [EvmCatchup.Processed(heights[0], NodeLogs(f, src.allLogs(heights[0])))] + Fetched(f, src, heights[1..])
  }

  lemma {:induction false} FetchedAppends(f: LogFilter, src: Source, a: seq<int>, b: seq<int>)
    ensures Fetched(f, src, a + b) == Fetched(f, src, a) + Fetched(f, src, b)
  {
    hide NodeLogs;
    if a == [] {
      assert a + b == b;
    } else {
      assert (a + b)[1..] == a[1..] + b;
      FetchedAppends(f, src, a[1..], b);
    }
  }

  // Consecutive heights are fetched as if one at a time.
  lemma {:induction false} FetchedInOrder(f: LogFilter, src: Source, heights: seq<int>, root: int)
    requires forall i :: 0 <= i < |heights| ==> heights[i] == root + i
    ensures Fetched(f, src, heights)
            == EvmCatchup.OneByOne(Filtered(f, src), f.skipLogs, root, root + |heights| - 1)
    decreases |heights|
  {
    hide Passing;
    if heights != [] {
      FetchedInOrder(f, src, heights[1..], root + 1);
    }
  }

  lemma {:induction false} DeliveriesAppend(snap: ConfigSnapshot, chainId: string, reg: Registry, decode: Decode,
                                            src: Source, a: seq<EvmCatchup.Processed>, b: seq<EvmCatchup.Processed>)
    ensures RunDeliveries(snap, chainId, reg, decode, src, a + b)
            == RunDeliveries(snap, chainId, reg, decode, src, a) + RunDeliveries(snap, chainId, reg, decode, src, b)
  {
    hide Deliveries, PipelineRun;
    if a == [] {
      assert a + b == b;
    } else {
      assert (a + b)[1..] == a[1..] + b;
      DeliveriesAppend(snap, chainId, reg, decode, src, a[1..], b);
    }
  }

  // What a live run delivers: after what was delivered before the current segment,
  // exactly what processing the heights from the segment's root one at a time with
  // all their logs delivers; they end `confirmations` below the greatest head since
  // then, or before the block that raised.
  lemma LiveDeliversExactly(t: Tree, confirmations: nat, xs: seq<Arrival>, snap: ConfigSnapshot, chainId: string,
                            reg: Registry, decode: Decode, src: Source)
    returns (since: seq<int>)
    requires ValidTree(t) && confirmations >= 1 && xs != []
    requires forall i :: 0 <= i < |xs| ==> HonestArrival(t, xs[i])
    requires forall i :: 0 <= i < |xs| - 1 ==> Completes(confirmations, xs, i)
    requires NamesPinned(snap, chainId, reg, decode) && NoCrashes(chainId, reg, decode, src)
    ensures var ys := AsInputs(confirmations, xs);
            var start := SegmentStart(confirmations, ys);
            var root := xs[start].head.number;
            var f := FilterOf(snap, chainId, reg);
            var before := Fetched(f, src, RunDriver(confirmations, xs[..start]).processed);
            && RunDeliveries(snap, chainId, reg, decode, src, Fetched(f, src, RunDriver(confirmations, xs).processed))
               == RunDeliveries(snap, chainId, reg, decode, src, before)
                  + RunDeliveries(snap, chainId, reg, decode, src,
                                  EvmCatchup.OneByOne(src.allLogs, false, root, root + |since| - 1))
            && (Completes(confirmations, xs, |xs| - 1) ==>
                  |since| == Max(0, Highest(confirmations, ys) - confirmations + 1 - root))
  {
    hide AsInputs, RunDriver, Highest, Completes, SegmentStart, HonestArrival, NamesPinned, NoCrashes, FilterOf;
    hide RunDeliveries, Fetched, EvmCatchup.OneByOne;
    var f := FilterOf(snap, chainId, reg);
    var start := SegmentStart(confirmations, AsInputs(confirmations, xs));
    var root := xs[start].head.number;
    var before := RunDriver(confirmations, xs[..start]).processed;
    since := LiveProcessingIsExact(t, confirmations, xs);
    FetchedAppends(f, src, before, since);
    DeliveriesAppend(snap, chainId, reg, decode, src, Fetched(f, src, before), Fetched(f, src, since));
    FetchedInOrder(f, src, since, root);
    FilteringIsInvisible(snap, chainId, reg, decode, src, root, root + |since| - 1);
  }
}
