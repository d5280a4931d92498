/** Catch-up with node-side filtering, against one block at a time with all logs. */
module EvmDeliveries {
  import opened Common
  import opened Snapshots
  import opened LogFetch
  import opened EvmCatchup
  import opened LogParsers
  import opened PushDown

  // All logs of each block, and the block as the other parsers see it.
  datatype Source = Source(allLogs: int -> seq<Log>, block: int -> Block)

  // What the node returns for each block under a filter.
  ghost function Filtered(f: LogFilter, src: Source): ChainLogs {
    n => Passing(f, src.allLogs(n))
  }

  // The deliveries of a run, block by block in the order processed.
  ghost function RunDeliveries(snap: ConfigSnapshot, chainId: string, reg: Registry, decode: Decode, src: Source,
                               done: seq<Processed>): seq<Delivery> {
    if done == [] then []
    else Deliveries(snap, PipelineRun(chainId, src.block(done[0].number), reg, decode, done[0].logs))
         + RunDeliveries(snap, chainId, reg, decode, src, done[1..])
  }

  ghost predicate NoCrashes(chainId: string, reg: Registry, decode: Decode, src: Source) {
    forall n :: NoCrash(chainId, src.block(n), reg, decode, src.allLogs(n))
  }

  lemma {:induction false} FilteringIsInvisible(snap: ConfigSnapshot, chainId: string, reg: Registry, decode: Decode,
                                                src: Source, from: int, to: int)
    requires NamesPinned(snap, chainId, reg, decode) && NoCrashes(chainId, reg, decode, src)
    ensures var f := FilterOf(snap, chainId, reg);
            RunDeliveries(snap, chainId, reg, decode, src, OneByOne(Filtered(f, src), f.skipLogs, from, to))
            == RunDeliveries(snap, chainId, reg, decode, src, OneByOne(src.allLogs, false, from, to))
    decreases Max(0, to - from + 1)
  {
    hide FilterOf, PipelineRun, Deliveries, NamesPinned, NoCrash;
    if from <= to {
      var f := FilterOf(snap, chainId, reg);
      var filtered, all := OneByOne(Filtered(f, src), f.skipLogs, from, to), OneByOne(src.allLogs, false, from, to);
      FilteringIsInvisible(snap, chainId, reg, decode, src, from + 1, to);
      assert filtered[1..] == OneByOne(Filtered(f, src), f.skipLogs, from + 1, to);
      assert all[1..] == OneByOne(src.allLogs, false, from + 1, to);
      assert filtered[0].logs == NodeLogs(f, src.allLogs(from));
      assert NoCrash(chainId, src.block(from), reg, decode, src.allLogs(from));
      PushDownPreservesDeliveries(snap, chainId, reg, decode, src.block(from), src.allLogs(from));
    }
  }

  // Windowed, bisected, filtered catch-up delivers exactly what processing the
  // blocks last + 1 .. k one at a time with all their logs would deliver.
  lemma CatchupDeliversExactly(snap: ConfigSnapshot, reg: Registry, decode: Decode, src: Source, c: Config, env: Env,
                               at: nat)
    requires c.rangeBlocks >= 1 && PlanOf(c).Range?
    requires var f := FilterOf(snap, c.chainId, reg);
             c.skipLogs == f.skipLogs && HonestNode(Filtered(f, src), env.node)
    requires NamesPinned(snap, c.chainId, reg, decode) && NoCrashes(c.chainId, reg, decode, src)
    ensures var p := PlanOf(c);
            var done := Windows(env, c.rangeBlocks, c.skipLogs, at, p.last + 1, p.safeTip).done;
            RunDeliveries(snap, c.chainId, reg, decode, src, done)
            == RunDeliveries(snap, c.chainId, reg, decode, src,
                             OneByOne(src.allLogs, false, p.last + 1, p.last + |done|))
  {
    hide Windows, FilterOf, NamesPinned, NoCrashes, RunDeliveries, OneByOne;
    var p, f := PlanOf(c), FilterOf(snap, c.chainId, reg);
    CatchupRefinesOneByOne(Filtered(f, src), env, c.rangeBlocks, c.skipLogs, at, p.last + 1, p.safeTip);
    var done := Windows(env, c.rangeBlocks, c.skipLogs, at, p.last + 1, p.safeTip).done;
    FilteringIsInvisible(snap, c.chainId, reg, decode, src, p.last + 1, p.last + |done|);
  }
}
