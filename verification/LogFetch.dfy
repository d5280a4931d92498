/** Range log queries with bisection on size-limit errors. */
module LogFetch {
  import opened Common

  datatype Log = Log(txHash: string, logIndex: int, address: string, topics: seq<string>, data: string,
                     blockNumber: int)

  // One eth_getLogs call: the logs, or the message of the exception.
  datatype Reply = Logs(logs: seq<Log>) | Failure(message: string)

  // The node answers the i-th call of a run for the range [start, end]; what it
  // answers may change from call to call.
  type Node = (nat, int, int) -> Reply

  const DEGRADE_HINTS := ["too large", "result too big", "query timeout", "limit exceeded",
                          "returned more than", "response size exceeded", "block range"]

  predicate IsSizeLimit(message: string) {
    exists h :: h in DEGRADE_HINTS && Contains(Lower(message), h)
  }

  // A message is a size limit exactly when, in lower case, it has a hint in it.
  lemma SizeLimitMeaning(message: string)
    ensures IsSizeLimit(message) <==>
              exists hint, before, after :: hint in DEGRADE_HINTS && Lower(message) == before + hint + after
  {
    hide Contains, Lower;
    forall hint
      ensures Contains(Lower(message), hint) <==> exists before, after :: Lower(message) == before + hint + after
    {
      ContainsMeaning(Lower(message), hint);
    }
  }

  // ----- Bucketing -----

  // The logs of block n, in the order they came.
  function Of(logs: seq<Log>, n: int): (r: seq<Log>)
    ensures forall l :: l in r ==> l in logs && l.blockNumber == n
  {
    if logs == [] then []
    else Of(logs[..|logs| - 1], n) + if logs[|logs| - 1].blockNumber == n then [logs[|logs| - 1]] else []
  }

  function Blocks(logs: seq<Log>): set<int> {
    set l | l in logs :: l.blockNumber
  }

  function Bucketed(logs: seq<Log>): map<int, seq<Log>> {
    map n | n in Blocks(logs) :: Of(logs, n)
  }

  function Add(out: map<int, seq<Log>>, lg: Log): map<int, seq<Log>> {
    out[lg.blockNumber := (if lg.blockNumber in out then out[lg.blockNumber] else []) + [lg]]
  }

  method BucketByBlock(logs: seq<Log>) returns (out: map<int, seq<Log>>)
    ensures out == Bucketed(logs)
  {
    hide Bucketed, Of;
    out := map[];
    BucketNone();
    for i := 0 to |logs|
      invariant out == Bucketed(logs[..i])
    {
      BucketOneMore(logs[..i], logs[i]);
      assert logs[..i] + [logs[i]] == logs[..i + 1];
      out := Add(out, logs[i]);
    }
    assert logs[..|logs|] == logs;
  }

  lemma BucketNone()
    ensures Bucketed([]) == map[]
  {
    assert Blocks([]) == {};
  }

  lemma OfOneMore(logs: seq<Log>, lg: Log, n: int)
    ensures Of(logs + [lg], n) == Of(logs, n) + if lg.blockNumber == n then [lg] else []
  {
    assert (logs + [lg])[..|logs|] == logs;
  }

  lemma BlocksOneMore(logs: seq<Log>, lg: Log)
    ensures Blocks(logs + [lg]) == Blocks(logs) + {lg.blockNumber}
  {
    forall n ensures n in Blocks(logs + [lg]) <==> n in Blocks(logs) + {lg.blockNumber} {
      if n in Blocks(logs) {
        var l :| l in logs && l.blockNumber == n;
        assert l in logs + [lg];
      }
      assert lg in logs + [lg];
    }
  }

  lemma BucketOneMore(logs: seq<Log>, lg: Log)
    ensures Bucketed(logs + [lg]) == Add(Bucketed(logs), lg)
  {
    hide Of, Blocks;
    BlocksOneMore(logs, lg);
    forall n ensures Of(logs + [lg], n) == Of(logs, n) + if lg.blockNumber == n then [lg] else [] {
      OfOneMore(logs, lg, n);
    }
    if lg.blockNumber !in Blocks(logs) {
      NoLogs(logs, lg.blockNumber);
    }
    var left, right := Bucketed(logs + [lg]), Add(Bucketed(logs), lg);
    assert left.Keys == right.Keys;
    assert forall n :: n in left.Keys ==> left[n] == right[n];
  }

  lemma {:induction false} NoLogs(logs: seq<Log>, n: int)
    requires n !in Blocks(logs)
    ensures Of(logs, n) == []
  {
    if logs != [] {
      assert logs == logs[..|logs| - 1] + [logs[|logs| - 1]];
      assert Blocks(logs[..|logs| - 1]) <= Blocks(logs);
      NoLogs(logs[..|logs| - 1], n);
    }
  }

  // ----- The bisection -----

  datatype Call = Call(start: int, end: int, reply: Reply)

  // The map returned, or the message raised; and the calls made, in order.
  datatype Fetched = Fetched(result: Result<map<int, seq<Log>>, string>, calls: seq<Call>)

  // Both halves were fetched, or the right one raised.
  function Merge(call: Call, left: Fetched, right: Fetched): Fetched
    requires left.result.Ok?
  {
    Fetched(if right.result.Err? then right.result else Ok(left.result.value + right.result.value),
            [call] + left.calls + right.calls)
  }

  function Middle(start: int, end: int): (mid: int)
    ensures 2 * mid <= start + end < 2 * mid + 2
  {
    (start + end) / 2
  }

  // `at` is the number of calls made before.
  function FetchLogsWithDegrade(node: Node, at: nat, start: int, end: int): Fetched
    decreases end - start
  {
    var call := Call(start, end, node(at, start, end));
    match call.reply
    case Logs(logs) => Fetched(Ok(Bucketed(logs)), [call])
    case Failure(msg) =>
      if IsSizeLimit(msg) && end > start then
        var mid := Middle(start, end);
        var left := FetchLogsWithDegrade(node, at + 1, start, mid);
        if left.result.Err? then Fetched(left.result, [call] + left.calls)
        else Merge(call, left, FetchLogsWithDegrade(node, at + 1 + |left.calls|, mid + 1, end))
      else Fetched(Err(msg), [call])
  }

  // ----- Transparency -----

  // The chain's (filtered) logs of each block.
  type ChainLogs = int -> seq<Log>

  // A successful reply holds the logs of exactly the blocks asked for, those of
  // one block in order; logs of different blocks may be interleaved.
  ghost predicate Answers(chain: ChainLogs, start: int, end: int, logs: seq<Log>) {
    && (forall n :: start <= n <= end ==> Of(logs, n) == chain(n))
    && (forall l :: l in logs ==> start <= l.blockNumber <= end)
  }

  ghost predicate HonestNode(chain: ChainLogs, node: Node) {
    forall i, s, e :: node(i, s, e).Logs? ==> Answers(chain, s, e, node(i, s, e).logs)
  }

  // The buckets of all logs of [start, end]: a key per block that has logs.
  ghost function Expected(chain: ChainLogs, start: int, end: int): map<int, seq<Log>> {
    map n | start <= n <= end && chain(n) != [] :: chain(n)
  }

  lemma AnswerIsExpected(chain: ChainLogs, start: int, end: int, logs: seq<Log>)
    requires Answers(chain, start, end, logs)
    ensures Bucketed(logs) == Expected(chain, start, end)
  {
    forall n ensures n in Blocks(logs) <==> start <= n <= end && chain(n) != [] {
      if n in Blocks(logs) {
        var l :| l in logs && l.blockNumber == n;
        HasLogs(logs, l);
      } else {
        NoLogs(logs, n);
      }
    }
  }

  lemma {:induction false} HasLogs(logs: seq<Log>, l: Log)
    requires l in logs
    ensures Of(logs, l.blockNumber) != []
  {
    if logs[|logs| - 1] != l {
      assert l in logs[..|logs| - 1];
      HasLogs(logs[..|logs| - 1], l);
    }
  }

  lemma ExpectedSplits(chain: ChainLogs, start: int, mid: int, end: int)
    requires start <= mid < end
    ensures Expected(chain, start, mid) + Expected(chain, mid + 1, end) == Expected(chain, start, end)
  {
  }

  lemma HonestAnswer(chain: ChainLogs, node: Node, at: nat, start: int, end: int)
    requires HonestNode(chain, node) && node(at, start, end).Logs?
    ensures Bucketed(node(at, start, end).logs) == Expected(chain, start, end)
  {
    hide Bucketed, Expected, Answers;
    AnswerIsExpected(chain, start, end, node(at, start, end).logs);
  }

  lemma FetchEnds(node: Node, at: nat, start: int, end: int)
    ensures var reply := node(at, start, end);
            var result := FetchLogsWithDegrade(node, at, start, end).result;
            && (reply.Logs? ==> result == Ok(Bucketed(reply.logs)))
            && (reply.Failure? && !(IsSizeLimit(reply.message) && start < end) ==> result.Err?)
  {
    hide IsSizeLimit, Bucketed;
  }

  lemma FetchSplits(node: Node, at: nat, start: int, end: int)
    requires start < end && node(at, start, end).Failure? && IsSizeLimit(node(at, start, end).message)
    ensures var mid := Middle(start, end);
            var left := FetchLogsWithDegrade(node, at + 1, start, mid);
            var right := FetchLogsWithDegrade(node, at + 1 + |left.calls|, mid + 1, end);
            FetchLogsWithDegrade(node, at, start, end).result
            == if left.result.Err? then left.result
               else if right.result.Err? then right.result
               else Ok(left.result.value + right.result.value)
  {
    hide IsSizeLimit, Bucketed;
  }

  // Whenever it returns, the map is the bucketing of all logs in the range,
  // whatever sub-ranges were refused on the way.
  lemma {:induction false} BisectionIsTransparent(chain: ChainLogs, node: Node, at: nat, start: int, end: int)
    requires HonestNode(chain, node)
    ensures var f := FetchLogsWithDegrade(node, at, start, end);
            f.result.Ok? ==> f.result.value == Expected(chain, start, end)
    decreases end - start
  {
    hide Expected, Bucketed, IsSizeLimit, HonestNode, FetchLogsWithDegrade;
    var reply := node(at, start, end);
    FetchEnds(node, at, start, end);
    if reply.Logs? {
      HonestAnswer(chain, node, at, start, end);
    } else if IsSizeLimit(reply.message) && end > start {
      FetchSplits(node, at, start, end);
      var mid := Middle(start, end);
      var left := FetchLogsWithDegrade(node, at + 1, start, mid);
      BisectionIsTransparent(chain, node, at + 1, start, mid);
      BisectionIsTransparent(chain, node, at + 1 + |left.calls|, mid + 1, end);
      ExpectedSplits(chain, start, mid, end);
    }
  }

  // ----- Calls -----

  // A reply that ends the fetch: not a size limit, or a size limit on one block.
  predicate Fatal(c: Call) {
    c.reply.Failure? && (!IsSizeLimit(c.reply.message) || c.end <= c.start)
  }

  // The calls that delivered cover [start, end] in order without gap or overlap.
  predicate Tiles(calls: seq<Call>, start: int, end: int)
    decreases |calls|
  {
    if calls == [] then start == end + 1
    else if calls[0].reply.Failure? then Tiles(calls[1..], start, end)
    else calls[0].start == start && start <= calls[0].end <= end && Tiles(calls[1..], calls[0].end + 1, end)
  }

  lemma {:induction false} TilesJoin(a: seq<Call>, b: seq<Call>, start: int, mid: int, end: int)
    requires Tiles(a, start, mid) && Tiles(b, mid + 1, end) && mid <= end
    ensures Tiles(a + b, start, end)
    decreases |a|
  {
    if a == [] {
      assert a + b == b;
    } else {
      assert (a + b)[1..] == a[1..] + b;
      TilesJoin(a[1..], b, if a[0].reply.Failure? then start else a[0].end + 1, mid, end);
    }
  }

  // At most 2 * blocks - 1 calls; only the last one can be fatal, and it is
  // exactly when the fetch raises; otherwise the answered ranges tile the range.
  ghost predicate Bounded(f: Fetched, start: int, end: int) {
    && 1 <= |f.calls| <= 2 * (end - start + 1) - 1
    && (forall i :: 0 <= i < |f.calls| - 1 ==> !Fatal(f.calls[i]))
    && (f.result.Err? <==> Fatal(f.calls[|f.calls| - 1]))
    && (f.result.Ok? ==> Tiles(f.calls, start, end))
  }

  lemma BoundedJoin(c: Call, left: Fetched, right: Fetched, mid: int)
    requires !Fatal(c) && c.reply.Failure? && c.start <= mid < c.end
    requires Bounded(left, c.start, mid) && left.result.Ok? && Bounded(right, mid + 1, c.end)
    ensures Bounded(Merge(c, left, right), c.start, c.end)
  {
    hide Fatal;
    var calls := [c] + left.calls + right.calls;
    assert calls[1..] == left.calls + right.calls;
    if right.result.Ok? {
      TilesJoin(left.calls, right.calls, c.start, mid, c.end);
    }
  }

  lemma {:induction false} CallsAreBounded(node: Node, at: nat, start: int, end: int)
    requires start <= end
    ensures Bounded(FetchLogsWithDegrade(node, at, start, end), start, end)
    decreases end - start
  {
    hide IsSizeLimit, Bucketed, Merge, Bounded;
    var call := Call(start, end, node(at, start, end));
    if call.reply.Logs? {
      AnsweredOnce(call, Ok(Bucketed(call.reply.logs)));
    } else if IsSizeLimit(call.reply.message) && end > start {
      var mid := Middle(start, end);
      var left := FetchLogsWithDegrade(node, at + 1, start, mid);
      CallsAreBounded(node, at + 1, start, mid);
      if left.result.Ok? {
        CallsAreBounded(node, at + 1 + |left.calls|, mid + 1, end);
        BoundedJoin(call, left, FetchLogsWithDegrade(node, at + 1 + |left.calls|, mid + 1, end), mid);
      } else {
        BoundedStop(call, left, mid);
      }
    } else {
      RefusedOnce(call);
    }
  }

  // The calls recorded are the calls made: the i-th one was answered as such, and the
  // first one asked for the whole range.
  ghost predicate Numbered(node: Node, at: nat, calls: seq<Call>) {
    forall i :: 0 <= i < |calls| ==> calls[i].reply == node(at + i, calls[i].start, calls[i].end)
  }

  lemma NumberedJoin(node: Node, at: nat, call: Call, left: seq<Call>, right: seq<Call>)
    requires call.reply == node(at, call.start, call.end) && Numbered(node, at + 1, left)
    requires Numbered(node, at + 1 + |left|, right)
    ensures Numbered(node, at, [call] + left + right)
  {
    var all := [call] + left + right;
    forall i | 0 <= i < |all| ensures all[i].reply == node(at + i, all[i].start, all[i].end) {
      if 0 < i <= |left| {
        assert all[i] == left[i - 1];
      } else if i > |left| {
        assert all[i] == right[i - 1 - |left|];
      }
    }
  }

  lemma {:induction false} CallsAreNumbered(node: Node, at: nat, start: int, end: int)
    ensures var calls := FetchLogsWithDegrade(node, at, start, end).calls;
            && Numbered(node, at, calls)
            && calls != [] && calls[0].start == start && calls[0].end == end
    decreases end - start
  {
    hide IsSizeLimit, Bucketed, Numbered, FetchLogsWithDegrade;
    var call := Call(start, end, node(at, start, end));
    OneNumbered(node, at, call);
    CallsOfFetch(node, at, start, end);
    if call.reply.Failure? && IsSizeLimit(call.reply.message) && end > start {
      var mid := Middle(start, end);
      var left := FetchLogsWithDegrade(node, at + 1, start, mid).calls;
      CallsAreNumbered(node, at + 1, start, mid);
      CallsAreNumbered(node, at + 1 + |left|, mid + 1, end);
      NumberedJoin(node, at, call, left, FetchLogsWithDegrade(node, at + 1 + |left|, mid + 1, end).calls);
      NoneNumbered(node, at + 1 + |left|);
      NumberedJoin(node, at, call, left, []);
      assert [call] + left + [] == [call] + left;
    }
  }

  lemma CallsOfFetch(node: Node, at: nat, start: int, end: int)
    ensures var call := Call(start, end, node(at, start, end));
            var calls := FetchLogsWithDegrade(node, at, start, end).calls;
            if call.reply.Failure? && IsSizeLimit(call.reply.message) && end > start then
              var mid := Middle(start, end);
              var left := FetchLogsWithDegrade(node, at + 1, start, mid).calls;
              var right := FetchLogsWithDegrade(node, at + 1 + |left|, mid + 1, end).calls;
              calls == [call] + left || calls == [call] + left + right
            else calls == [call]
  {
    hide IsSizeLimit, Bucketed;
  }

  lemma OneNumbered(node: Node, at: nat, call: Call)
    requires call.reply == node(at, call.start, call.end)
    ensures Numbered(node, at, [call])
  {
  }

  lemma NoneNumbered(node: Node, at: nat)
    ensures Numbered(node, at, [])
  {
  }

  lemma BoundedStop(c: Call, left: Fetched, mid: int)
    requires !Fatal(c) && c.start <= mid < c.end
    requires Bounded(left, c.start, mid) && left.result.Err?
    ensures Bounded(Fetched(left.result, [c] + left.calls), c.start, c.end)
  {
  }

  lemma AnsweredOnce(c: Call, result: Result<map<int, seq<Log>>, string>)
    requires c.reply.Logs? && c.start <= c.end && result.Ok?
    ensures Bounded(Fetched(result, [c]), c.start, c.end)
  {
    assert [c][1..] == [];
  }

  lemma RefusedOnce(c: Call)
    requires Fatal(c) && c.start <= c.end
    ensures Bounded(Fetched(Err(c.reply.message), [c]), c.start, c.end)
  {
  }
}
