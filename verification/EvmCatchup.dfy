/** Windowed EVM catch-up from the checkpoint to the safe tip. */
module EvmCatchup {
  import opened Common
  import opened LogFetch
  import opened Snapshots
  import Matcher

  const MAX_CATCHUP_BLOCKS := 10_000

  // `tip` is None when get_latest_block_number fails.
  datatype Config = Config(chainId: string, confirmations: nat, rangeBlocks: int, skipLogs: bool,
                           resumeFrom: Option<int>, subscriptions: seq<Subscription>, tip: Option<int>)

  // What one catch-up meets: the node's answers, whether the stop flag is seen
  // before block n, and whether fetching and processing block n succeed.
  datatype Env = Env(node: Node, stopped: int -> bool, succeeds: int -> bool)

  datatype Processed = Processed(number: int, logs: seq<Log>)

  // ----- Where catch-up starts and ends -----

  // A block that catch-up may start after: the checkpoint, or the start block of an
  // enabled subscription of the chain.
  ghost predicate IsCandidate(c: Config, b: int) {
    || c.resumeFrom == Some(b)
    || exists s :: s in c.subscriptions && s.enabled && s.chainId == c.chainId && s.startBlock == Some(b)
  }

  // There is something to catch up on.
  ghost predicate Due(c: Config) {
    c.tip.Some? && exists b :: IsCandidate(c, b) && b < c.tip.value - c.confirmations
  }

  function Starts(c: Config): (r: seq<int>)
    ensures forall b :: b in r <==> IsCandidate(c, b)
  {
    (if c.resumeFrom.Some? then [c.resumeFrom.value] else []) + StartBlocks(c.chainId, c.subscriptions)
  }

  function StartBlocks(chainId: string, subs: seq<Subscription>): (r: seq<int>)
    ensures forall b :: b in r <==>
              exists s :: s in subs && s.enabled && s.chainId == chainId && s.startBlock == Some(b)
  {
    if subs == [] then []
    else
      var s := subs[0];
      (if s.chainId == chainId && s.startBlock.Some? && s.enabled then [s.startBlock.value] else [])
      + StartBlocks(chainId, subs[1..])
  }

  function Least(xs: seq<int>): (m: int)
    requires xs != []
    ensures m in xs && forall x :: x in xs ==> m <= x
  {
    assert xs == [xs[0]] + xs[1..];
    if |xs| == 1 then xs[0] else Min(xs[0], Least(xs[1..]))
  }

  // The last block taken as done, and the last block to do.
  datatype Plan = Nothing | Range(last: int, safeTip: int)

  function PlanOf(c: Config): (p: Plan)
    ensures p.Range? <==> Due(c)
    ensures p.Range? ==> 0 < p.safeTip - p.last <= MAX_CATCHUP_BLOCKS && c.tip == Some(p.safeTip + c.confirmations)
    ensures p.Range? ==> exists b :: IsCandidate(c, b) && (forall x :: IsCandidate(c, x) ==> b <= x)
                                     && p.last == Max(b, p.safeTip - MAX_CATCHUP_BLOCKS)
  {
    if Starts(c) == [] || c.tip.None? then Nothing
    else
      var last, safeTip := Least(Starts(c)), c.tip.value - c.confirmations;
      if safeTip - last <= 0 then Nothing else Range(Max(last, safeTip - MAX_CATCHUP_BLOCKS), safeTip)
  }

  // ----- What the two loops compute -----

  datatype Progress = Progress(done: seq<Processed>, halted: bool)

  function Window(env: Env, n: int, end: int, buckets: map<int, seq<Log>>): Progress
    decreases end - n
  {
    if n > end then Progress([], false)
    else if env.stopped(n) || !env.succeeds(n) then Progress([], true)
    else
      var rest := Window(env, n + 1, end, buckets);
      Progress([Processed(n, if n in buckets then buckets[n] else [])] + rest.done, rest.halted)
  }

  // The buckets of one window, and the number of calls made for them.
  function WindowLogs(env: Env, skip: bool, at: nat, start: int,
                      end: int): (r: (Result<map<int, seq<Log>>, string>, nat))
    ensures skip <==> r.1 == 0
  {
    hide FetchLogsWithDegrade;
    CallsAreNumbered(env.node, at, start, end);
    if skip then (Ok(map[]), 0)
    else var f := FetchLogsWithDegrade(env.node, at, start, end); (f.result, |f.calls|)
  }

  function Windows(env: Env, range: int, skip: bool, at: nat, n: int, safeTip: int): Progress
    requires range >= 1
    decreases safeTip - n
  {
    if n > safeTip then Progress([], false)
    else
      var end := Min(n + range - 1, safeTip);
      var (logs, calls) := WindowLogs(env, skip, at, n, end);
      if logs.Err? then Progress([], true)
      else
        var w := Window(env, n, end, logs.value);
        if w.halted then w
        else
          var rest := Windows(env, range, skip, at + calls, end + 1, safeTip);
          Progress(w.done + rest.done, rest.halted)
  }

  lemma FirstWindow(env: Env, range: int, skip: bool, at: nat, n: int, safeTip: int)
    requires range >= 1 && n <= safeTip
    ensures var end := Min(n + range - 1, safeTip);
            var (logs, calls) := WindowLogs(env, skip, at, n, end);
            var all := Windows(env, range, skip, at, n, safeTip);
            if logs.Err? then all == Progress([], true)
            else
              var w := Window(env, n, end, logs.value);
              var rest := Windows(env, range, skip, at + calls, end + 1, safeTip);
              all == if w.halted then w else Progress(w.done + rest.done, rest.halted)
  {
    hide Window, WindowLogs;
  }

  // The checkpoint after processing some more blocks.
  function Saved(checkpoint: Option<int>, done: seq<Processed>): Option<int> {
    if done == [] then checkpoint else Some(done[|done| - 1].number)
  }

  class CatchupRunner {
    var processed: seq<Processed>
    var checkpoint: Option<int>
    var calls: nat

    constructor ()
      ensures processed == [] && checkpoint == None && calls == 0
    {
      processed, checkpoint, calls := [], None, 0;
    }

    method ProcessBlockWithPrefetchedLogs(n: int, logs: seq<Log>)
      modifies this`processed, this`checkpoint
      ensures processed == old(processed) + [Processed(n, logs)] && checkpoint == Some(n)
    {
      processed := processed + [Processed(n, logs)];
      checkpoint := Some(n);
    }

    method RunWindow(env: Env, start: int, end: int, buckets: map<int, seq<Log>>) returns (halted: bool)
      modifies this`processed, this`checkpoint
      ensures var w := Window(env, start, end, buckets);
              && processed == old(processed) + w.done && halted == w.halted
              && checkpoint == Saved(old(checkpoint), w.done)
    {
      hide Saved;
      SavedNothing(checkpoint);
      var n := start;
      ghost var whole := Window(env, start, end, buckets);
      ghost var done: seq<Processed> := [];
      while n <= end
        invariant processed == old(processed) + done && checkpoint == Saved(old(checkpoint), done)
        invariant done + Window(env, n, end, buckets).done == whole.done
        invariant Window(env, n, end, buckets).halted == whole.halted
      {
        if env.stopped(n) || !env.succeeds(n) {
          assert done == whole.done;
          return true;
        }
        var logs := if n in buckets then buckets[n] else [];
        ProcessBlockWithPrefetchedLogs(n, logs);
        SavedOne(old(checkpoint), done, Processed(n, logs));
        ConcatAssociates(old(processed), done, [Processed(n, logs)]);
        ConcatAssociates(done, [Processed(n, logs)], Window(env, n + 1, end, buckets).done);
        done := done + [Processed(n, logs)];
        n := n + 1;
      }
      assert done == whole.done;
      return false;
    }

    method CatchupEvm(c: Config, env: Env)
      requires c.rangeBlocks >= 1
      modifies this
      ensures !Due(c) ==> processed == old(processed) && checkpoint == old(checkpoint)
      ensures Due(c) ==>
                var p := PlanOf(c);
                var w := Windows(env, c.rangeBlocks, c.skipLogs, old(calls), p.last + 1, p.safeTip);
                && processed == old(processed) + w.done
                && checkpoint == Saved(old(checkpoint), w.done)
    {
      hide Windows, Saved, StartBlocks;
      var candidates := Starts(c);
      if candidates == [] {
        return;
      }
      var lastBlock := Least(candidates);
      if c.tip.None? {
        return;
      }
      var safeTip := c.tip.value - c.confirmations;
      var gap := safeTip - lastBlock;
      if gap <= 0 {
        return;
      }
      if gap > MAX_CATCHUP_BLOCKS {
        lastBlock := safeTip - MAX_CATCHUP_BLOCKS;
      }
      RunWindows(c, env, lastBlock + 1, safeTip);
    }

    method RunWindows(c: Config, env: Env, from: int, safeTip: int)
      requires c.rangeBlocks >= 1
      modifies this
      ensures var w := Windows(env, c.rangeBlocks, c.skipLogs, old(calls), from, safeTip);
              && processed == old(processed) + w.done
              && checkpoint == Saved(old(checkpoint), w.done)
    {
      hide Window, WindowLogs, Windows, Saved;
      var start := from;
      ghost var whole := Windows(env, c.rangeBlocks, c.skipLogs, calls, from, safeTip);
      ghost var done: seq<Processed> := [];
      SavedNothing(checkpoint);
      while start <= safeTip
        invariant processed == old(processed) + done && checkpoint == Saved(old(checkpoint), done)
        invariant done + Windows(env, c.rangeBlocks, c.skipLogs, calls, start, safeTip).done == whole.done
        decreases safeTip - start
      {
        FirstWindow(env, c.rangeBlocks, c.skipLogs, calls, start, safeTip);
        var end := Min(start + c.rangeBlocks - 1, safeTip);
        var (logs, made) := WindowLogs(env, c.skipLogs, calls, start, end);
        if logs.Err? {
          break;
        }
        ghost var w := Window(env, start, end, logs.value);
        ghost var rest := Windows(env, c.rangeBlocks, c.skipLogs, calls + made, end + 1, safeTip);
        SavedMore(old(checkpoint), done, w.done);
        ConcatAssociates(old(processed), done, w.done);
        ConcatAssociates(done, w.done, rest.done);
        var halted := RunWindow(env, start, end, logs.value);
        done := done + w.done;
        if halted {
          break;
        }
        start, calls := end + 1, calls + made;
      }
      if start > safeTip {
        NoWindow(env, c.rangeBlocks, c.skipLogs, calls, start, safeTip);
      }
      assert done == whole.done;
    }
  }

  lemma NoWindow(env: Env, range: int, skip: bool, at: nat, n: int, safeTip: int)
    requires range >= 1 && n > safeTip
    ensures Windows(env, range, skip, at, n, safeTip) == Progress([], false)
  {
  }

  lemma SavedNothing(checkpoint: Option<int>)
    ensures Saved(checkpoint, []) == checkpoint
  {
  }

  lemma SavedOne(checkpoint: Option<int>, done: seq<Processed>, p: Processed)
    ensures Saved(checkpoint, done + [p]) == Some(p.number)
  {
  }

  lemma SavedMore(checkpoint: Option<int>, done: seq<Processed>, more: seq<Processed>)
    ensures Saved(Saved(checkpoint, done), more) == Saved(checkpoint, done + more)
  {
    assert more == [] ==> done + more == done;
  }

  // ----- Refinement of block-by-block processing -----

  ghost function LogsOf(chain: ChainLogs, skip: bool, n: int): seq<Log> {
    if skip then [] else chain(n)
  }

  // Blocks from..to, one at a time, each with its own logs.
  ghost function OneByOne(chain: ChainLogs, skip: bool, from: int, to: int): (r: seq<Processed>)
    ensures |r| == Max(0, to - from + 1)
    decreases Max(0, to - from + 1)
  {
    if from > to then [] else [Processed(from, LogsOf(chain, skip, from))] + OneByOne(chain, skip, from + 1, to)
  }

  // Window starts are from, from + range, from + 2 * range, ...
  ghost predicate WindowStart(range: int, from: int, n: int)
    requires range >= 1
    decreases n - from
  {
    n == from || (n > from && WindowStart(range, from, n - range))
  }

  ghost predicate RaisesAt(node: Node, at: nat, start: int, end: int) {
    FetchLogsWithDegrade(node, at, start, end).result.Err?
  }

  // The calls made when the window that starts at n does, `at` being those before
  // the window at `from`.
  ghost function CallsBefore(env: Env, range: int, skip: bool, at: nat, from: int, n: int, safeTip: int): nat
    requires range >= 1
    decreases n - from
  {
    if n <= from then at
    else
      var made := WindowLogs(env, skip, at, from, Min(from + range - 1, safeTip)).1;
      CallsBefore(env, range, skip, at + made, from + range, n, safeTip)
  }

  // Why a run stops after block k: the stop flag, a failing block, or the log query
  // of the window that starts at k + 1, which raises on the calls then made.
  ghost predicate Obstacle(env: Env, range: int, skip: bool, at: nat, from: int, safeTip: int, k: int)
    requires range >= 1
  {
    || env.stopped(k + 1)
    || !env.succeeds(k + 1)
    || (!skip && WindowStart(range, from, k + 1)
        && RaisesAt(env.node, CallsBefore(env, range, skip, at, from, k + 1, safeTip), k + 1, Min(k + range, safeTip)))
  }

  // The run processed from .. k, and k is the block before the first obstacle, or
  // the safe tip when there is none.
  ghost predicate Refines(chain: ChainLogs, env: Env, range: int, skip: bool, at: nat, from: int, safeTip: int,
                          p: Progress)
    requires range >= 1
  {
    var k := from - 1 + |p.done|;
    && k <= safeTip
    && p.done == OneByOne(chain, skip, from, k)
    && (forall j :: from - 1 <= j < k ==> !Obstacle(env, range, skip, at, from, safeTip, j))
    && (if p.halted then k < safeTip && Obstacle(env, range, skip, at, from, safeTip, k) else k == safeTip)
  }

  lemma {:induction false} WindowRefines(chain: ChainLogs, env: Env, skip: bool, n: int, end: int,
                                         buckets: map<int, seq<Log>>)
    requires forall m :: n <= m <= end ==> (if m in buckets then buckets[m] else []) == LogsOf(chain, skip, m)
    requires n <= end + 1
    ensures var w := Window(env, n, end, buckets);
            var k := n - 1 + |w.done|;
            && k <= end && w.done == OneByOne(chain, skip, n, k)
            && (forall m :: n <= m <= k ==> !env.stopped(m) && env.succeeds(m))
            && (if w.halted then k < end && (env.stopped(k + 1) || !env.succeeds(k + 1)) else k == end)
    decreases end - n
  {
    if n <= end && !env.stopped(n) && env.succeeds(n) {
      WindowRefines(chain, env, skip, n + 1, end, buckets);
    }
  }

  lemma WindowLogsAreOwn(chain: ChainLogs, env: Env, skip: bool, at: nat, start: int, end: int)
    requires HonestNode(chain, env.node)
    ensures var (logs, _) := WindowLogs(env, skip, at, start, end);
            && (logs.Ok? ==> forall m :: start <= m <= end ==>
                 (if m in logs.value then logs.value[m] else []) == LogsOf(chain, skip, m))
            && (logs.Err? <==> !skip && RaisesAt(env.node, at, start, end))
  {
    hide FetchLogsWithDegrade;
    BisectionIsTransparent(chain, env.node, at, start, end);
  }

  lemma {:induction false} OneByOneAt(chain: ChainLogs, skip: bool, from: int, to: int, n: int)
    requires from <= n <= to
    ensures OneByOne(chain, skip, from, to)[n - from] == Processed(n, LogsOf(chain, skip, n))
    decreases n - from
  {
    if n > from {
      OneByOneAt(chain, skip, from + 1, to, n);
    }
  }

  lemma {:induction false} OneByOneJoins(chain: ChainLogs, skip: bool, from: int, mid: int, to: int)
    requires from - 1 <= mid <= to
    ensures OneByOne(chain, skip, from, mid) + OneByOne(chain, skip, mid + 1, to) == OneByOne(chain, skip, from, to)
    decreases mid - from + 1
  {
    if from <= mid {
      OneByOneJoins(chain, skip, from + 1, mid, to);
      ConcatAssociates([Processed(from, LogsOf(chain, skip, from))], OneByOne(chain, skip, from + 1, mid),
                       OneByOne(chain, skip, mid + 1, to));
    }
  }

  // The blocks processed are from, from + 1, ..., k, each once and with exactly
  // its own logs, where k + 1 is the first block with an obstacle.
  lemma {:induction false} CatchupRefinesOneByOne(chain: ChainLogs, env: Env, range: int, skip: bool, at: nat,
                                                  from: int, safeTip: int)
    requires range >= 1 && HonestNode(chain, env.node) && from <= safeTip + 1
    ensures Refines(chain, env, range, skip, at, from, safeTip, Windows(env, range, skip, at, from, safeTip))
    decreases safeTip - from
  {
    hide Window, WindowLogs, Windows, OneByOne, LogsOf, Obstacle, RaisesAt;
    if from > safeTip {
      NoWindow(env, range, skip, at, from, safeTip);
    } else {
      FirstWindow(env, range, skip, at, from, safeTip);
      var end := Min(from + range - 1, safeTip);
      var (logs, calls) := WindowLogs(env, skip, at, from, end);
      WindowLogsAreOwn(chain, env, skip, at, from, end);
      if logs.Err? {
        ObstacleIsFetch(env, range, skip, at, from, safeTip);
      } else {
        WindowRefines(chain, env, skip, from, end, logs.value);
        var w := Window(env, from, end, logs.value);
        InFirstWindow(env, range, skip, at, from, safeTip);
        if !w.halted {
          CatchupRefinesOneByOne(chain, env, range, skip, at + calls, end + 1, safeTip);
          var rest := Windows(env, range, skip, at + calls, end + 1, safeTip);
          OneByOneJoins(chain, skip, from, end, end + |rest.done|);
          if end < safeTip {
            InLaterWindows(env, range, skip, at, from, safeTip);
          }
        }
      }
    }
  }

  lemma ObstacleIsFetch(env: Env, range: int, skip: bool, at: nat, from: int, safeTip: int)
    requires range >= 1 && !skip && RaisesAt(env.node, at, from, Min(from + range - 1, safeTip))
    ensures Obstacle(env, range, skip, at, from, safeTip, from - 1)
  {
    hide RaisesAt;
  }

  // After its query came through, only the flag and the blocks can stop a window.
  lemma InFirstWindow(env: Env, range: int, skip: bool, at: nat, from: int, safeTip: int)
    requires range >= 1 && (skip || !RaisesAt(env.node, at, from, Min(from + range - 1, safeTip)))
    ensures forall k :: from - 1 <= k < from + range - 1 ==>
              (Obstacle(env, range, skip, at, from, safeTip, k) <==> env.stopped(k + 1) || !env.succeeds(k + 1))
  {
    hide RaisesAt, WindowLogs;
    forall k | from - 1 <= k < from + range - 1
      ensures Obstacle(env, range, skip, at, from, safeTip, k) <==> env.stopped(k + 1) || !env.succeeds(k + 1)
    {
      assert !WindowStart(range, from, k + 1 - range);
    }
  }

  // Later windows meet the obstacles they would meet starting from there.
  lemma InLaterWindows(env: Env, range: int, skip: bool, at: nat, from: int, safeTip: int)
    requires range >= 1 && from + range - 1 < safeTip
    ensures var made := WindowLogs(env, skip, at, from, Min(from + range - 1, safeTip)).1;
            forall k :: k >= from + range - 1 ==>
              (Obstacle(env, range, skip, at, from, safeTip, k)
               <==> Obstacle(env, range, skip, at + made, from + range, safeTip, k))
  {
    hide RaisesAt, WindowLogs;
    var made := WindowLogs(env, skip, at, from, Min(from + range - 1, safeTip)).1;
    forall k | k >= from + range - 1
      ensures Obstacle(env, range, skip, at, from, safeTip, k)
              <==> Obstacle(env, range, skip, at + made, from + range, safeTip, k)
    {
      WindowStartMoves(range, from, k + 1);
    }
  }

  lemma {:induction false} StartsAreApart(range: int, from: int, w: int)
    requires range >= 1
    ensures WindowStart(range, from, w) ==> w == from || w >= from + range
    decreases w - from
  {
    if w > from {
      StartsAreApart(range, from, w - range);
    }
  }

  lemma {:induction false} WindowStartMoves(range: int, from: int, n: int)
    requires range >= 1 && n >= from + range
    ensures WindowStart(range, from, n) <==> WindowStart(range, from + range, n)
    decreases n - from
  {
    if n >= from + 2 * range {
      WindowStartMoves(range, from, n - range);
    } else {
      assert !WindowStart(range, from, n - 2 * range) || n == from + 2 * range;
      assert WindowStart(range, from, n - range) <==> n == from + range;
    }
  }

  // A whole catch-up: never more than MAX_CATCHUP_BLOCKS blocks, the checkpoint
  // at the last of them.
  lemma CatchupIsBounded(chain: ChainLogs, c: Config, env: Env, at: nat)
    requires c.rangeBlocks >= 1 && HonestNode(chain, env.node) && PlanOf(c).Range?
    ensures var p := PlanOf(c);
            var w := Windows(env, c.rangeBlocks, c.skipLogs, at, p.last + 1, p.safeTip);
            && Refines(chain, env, c.rangeBlocks, c.skipLogs, at, p.last + 1, p.safeTip, w)
            && |w.done| <= MAX_CATCHUP_BLOCKS
            && (w.done != [] ==> Saved(None, w.done) == Some(p.last + |w.done|))
  {
    hide Windows, Obstacle, WindowStart, IsCandidate, Due;
    var p := PlanOf(c);
    CatchupRefinesOneByOne(chain, env, c.rangeBlocks, c.skipLogs, at, p.last + 1, p.safeTip);
    var w := Windows(env, c.rangeBlocks, c.skipLogs, at, p.last + 1, p.safeTip);
    if w.done != [] {
      OneByOneAt(chain, c.skipLogs, p.last + 1, p.last + |w.done|, p.last + |w.done|);
    }
  }

  // With the same chain, stop flag and failures, and queries that always come
  // through, neither the window size nor the pattern of refused ranges matters.
  lemma WindowSizeIsIrrelevant(chain: ChainLogs, env: Env, env': Env, range: int, range': int, skip: bool, at: nat,
                               at': nat, from: int, safeTip: int)
    requires range >= 1 && range' >= 1 && from <= safeTip + 1
    requires HonestNode(chain, env.node) && HonestNode(chain, env'.node)
    requires env'.stopped == env.stopped && env'.succeeds == env.succeeds
    requires AlwaysAnswers(env.node) && AlwaysAnswers(env'.node)
    ensures Windows(env, range, skip, at, from, safeTip) == Windows(env', range', skip, at', from, safeTip)
  {
    hide Windows, OneByOne, WindowStart;
    CatchupRefinesOneByOne(chain, env, range, skip, at, from, safeTip);
    CatchupRefinesOneByOne(chain, env', range', skip, at', from, safeTip);
    var w, w' := Windows(env, range, skip, at, from, safeTip), Windows(env', range', skip, at', from, safeTip);
    var k, k' := from - 1 + |w.done|, from - 1 + |w'.done|;
    assert k < safeTip ==> env.stopped(k + 1) || !env.succeeds(k + 1);
    assert k' < safeTip ==> env.stopped(k' + 1) || !env.succeeds(k' + 1);
    var o, o' := Obstacle(env, range, skip, at, from, safeTip, k'), Obstacle(env', range', skip, at', from, safeTip, k);
    assert k == k';
  }

  // Refused ranges are always small enough in the end: no fetch raises.
  ghost predicate AlwaysAnswers(node: Node) {
    forall at: nat, s, e :: s <= e ==> !RaisesAt(node, at, s, e)
  }

  // ----- The starting point -----

  // Catch-up processes a subscription's own start block exactly when it starts
  // from a lower block: with no lower candidate, the matcher does not reject events
  // of block start_block, but the block is never handed to it.
  lemma StartBlockCaughtUp(c: Config, s: Subscription)
    requires s in c.subscriptions && s.chainId == c.chainId && s.startBlock.Some? && s.enabled && Due(c)
    ensures var p, b := PlanOf(c), s.startBlock.value;
            && (forall e: Event :: e.blockNumber == b ==>
                  (Matcher.Matches(s, e) <==> Matcher.Matches(s.(startBlock := None), e)))
            && (p.last < b <= p.safeTip <==>
                  && p.safeTip - MAX_CATCHUP_BLOCKS < b <= p.safeTip
                  && exists lower :: IsCandidate(c, lower) && lower < b)
  {
    assert IsCandidate(c, s.startBlock.value);
  }
}
