/** What the two chain adapters hand to catch-up when requests go through the endpoint pool. */
module NodeAdapters {
  import opened Common
  import opened EndpointPool
  import Filters
  import LogFetch
  import EvmCatchup
  import SolanaCatchup

  // The pool as one request finds it.
  datatype Pool = Pool(eps: seq<Endpoint>, now: int)

  // The text of AllEndpointsFailed; the endpoints' own errors are not in it.
  function AllEndpointsFailed(n: nat): string {
    "all " + Filters.Dec(n) + " endpoints failed"
  }

  // The first answer in priority order; None when all candidates fail.
  function Request<T>(pool: Pool, replies: nat -> Option<T>): Option<T> {
    var cs := Candidates(pool.eps, pool.now);
    var k := FirstAnswer(cs, (i: nat) => replies(i).Some?);
    if k < |cs| then replies(cs[k]) else None
  }

  lemma RequestFails<T>(pool: Pool, replies: nat -> Option<T>)
    ensures Request(pool, replies).None? <==> forall i :: i in Candidates(pool.eps, pool.now) ==> replies(i).None?
    ensures Request(pool, replies).Some? ==>
              exists i :: i in Candidates(pool.eps, pool.now) && Request(pool, replies) == replies(i)
                          && forall j :: j in Candidates(pool.eps, pool.now) && j < i ==> replies(j).None?
  {
    var cs := Candidates(pool.eps, pool.now);
    var k := FirstAnswer(cs, (i: nat) => replies(i).Some?);
    if k < |cs| {
      assert cs[k] in cs;
    }
  }

  // ----- Which messages are taken for a size limit -----

  lemma {:induction false} Misses(message: string, hint: string, at: nat)
    requires at < |hint| && hint[at] !in message
    ensures !Contains(message, hint)
  {
    if message != [] {
      Misses(message[1..], hint, at);
    }
  }

  predicate IsPlain(c: char) {
    c == ' ' || '0' <= c <= '9' || c in "allendpointsfailed"
  }

  predicate AllPlain(s: string) {
    forall i :: 0 <= i < |s| ==> IsPlain(s[i])
  }

  lemma PlainConcat(a: string, b: string)
    requires AllPlain(a) && AllPlain(b)
    ensures AllPlain(a + b)
  {
  }

  lemma DigitsArePlain(n: nat)
    ensures AllPlain(Filters.Dec(n))
  {
    Filters.DecIsDigits(n);
  }

  lemma PlainIsLower(s: string)
    requires AllPlain(s)
    ensures Lower(s) == s
  {
    assert forall i :: 0 <= i < |s| ==> IsPlain(s[i]) && LowerChar(s[i]) == s[i];
  }

  lemma FailureIsPlain(n: nat)
    ensures Lower(AllEndpointsFailed(n)) == AllEndpointsFailed(n)
    ensures forall c :: c in AllEndpointsFailed(n) ==> IsPlain(c)
  {
    hide Filters.Dec, Lower;
    DigitsArePlain(n);
    assert AllPlain("all ") && AllPlain(" endpoints failed");
    PlainConcat("all ", Filters.Dec(n));
    PlainConcat("all " + Filters.Dec(n), " endpoints failed");
    PlainIsLower(AllEndpointsFailed(n));
  }

  lemma PlainMisses(n: nat, hint: string, at: nat)
    requires at < |hint| && !IsPlain(hint[at])
    ensures !Contains(Lower(AllEndpointsFailed(n)), hint)
  {
    hide Contains, AllEndpointsFailed, IsPlain;
    FailureIsPlain(n);
    Misses(AllEndpointsFailed(n), hint, at);
  }

  // The pool's error carries none of the hints that catch-up looks for.
  lemma FailureHidesSizeLimit(n: nat)
    ensures !LogFetch.IsSizeLimit(AllEndpointsFailed(n))
  {
    hide Contains, AllEndpointsFailed, Lower;
    PlainMisses(n, "too large", 6);
    PlainMisses(n, "result too big", 0);
    PlainMisses(n, "query timeout", 0);
    PlainMisses(n, "limit exceeded", 2);
    PlainMisses(n, "returned more than", 0);
    PlainMisses(n, "response size exceeded", 0);
    PlainMisses(n, "block range", 0);
  }

  lemma FailureHidesRangeTooLarge(n: nat)
    ensures !SolanaCatchup.IsRangeTooLarge(AllEndpointsFailed(n))
  {
    hide Contains, AllEndpointsFailed, Lower;
    PlainMisses(n, "exceeds maximum", 1);
    PlainMisses(n, "too large", 6);
    PlainMisses(n, "limit exceeded", 2);
  }

  // ----- EVM: fetch_logs -----

  // What endpoint i replies to a query.
  type Replies<!T> = nat -> Option<T>

  // ... to the i-th query of a run, for [start, end].
  type LogReplies = (nat, int, int) -> Replies<seq<LogFetch.Log>>

  function FetchLogs(pool: Pool, replies: Replies<seq<LogFetch.Log>>): LogFetch.Reply {
    match Request(pool, replies)
    case Some(logs) => LogFetch.Logs(logs)
    case None => LogFetch.Failure(AllEndpointsFailed(|Candidates(pool.eps, pool.now)|))
  }

  // The i-th call of a run for [start, end], with the pool as it then is.
  function LogNode(pools: nat -> Pool, replies: LogReplies): LogFetch.Node {
    (i: nat, start: int, end: int) => FetchLogs(pools(i), replies(i, start, end))
  }

  // Through the pool a range is never bisected: a query makes one call, and raises
  // exactly when every candidate endpoint fails, whatever their errors say.
  lemma PooledQueriesAreNotDegraded(pools: nat -> Pool, replies: LogReplies, at: nat, start: int, end: int)
    ensures var f := LogFetch.FetchLogsWithDegrade(LogNode(pools, replies), at, start, end);
            && f.calls == [LogFetch.Call(start, end, FetchLogs(pools(at), replies(at, start, end)))]
            && (f.result.Err? <==>
                  forall i :: i in Candidates(pools(at).eps, pools(at).now) ==> replies(at, start, end)(i).None?)
  {
    hide LogFetch.IsSizeLimit, LogFetch.Bucketed, Request, Candidates, AllEndpointsFailed;
    FailureHidesSizeLimit(|Candidates(pools(at).eps, pools(at).now)|);
    RequestFails(pools(at), replies(at, start, end));
  }

  // So catch-up ends, with nothing processed, before a window whose logs every
  // candidate endpoint refuses, even if each block alone could be fetched.
  lemma RefusedWindowEndsCatchup(pools: nat -> Pool, replies: LogReplies, env: EvmCatchup.Env, range: int, at: nat,
                                 from: int, safeTip: int)
    requires range >= 1 && from <= safeTip && env.node == LogNode(pools, replies)
    requires var end := Min(from + range - 1, safeTip);
             forall i :: i in Candidates(pools(at).eps, pools(at).now) ==> replies(at, from, end)(i).None?
    ensures EvmCatchup.Windows(env, range, false, at, from, safeTip) == EvmCatchup.Progress([], true)
  {
    hide LogFetch.FetchLogsWithDegrade, LogNode, EvmCatchup.Window;
    PooledQueriesAreNotDegraded(pools, replies, at, from, Min(from + range - 1, safeTip));
    EvmCatchup.FirstWindow(env, range, false, at, from, safeTip);
  }
}
