/** The live EVM loop: prefetch the ancestors, feed the buffer, process what it confirms. */
module HeadDriver {
  import opened Common
  import opened BlockTree
  import opened ConfirmationBuffer
  import opened ReorgRuns

  // fetch_block(n).header; None is an exception.
  type Fetch = int -> Option<Header>

  type Cache = map<string, Header>

  // Parent lookups go to the prefetched headers; a miss is a KeyError.
  function Lookup(cache: Cache): Resolver {
    (n, h) => if h in cache then Some(cache[h]) else None
  }

  // The headers fetched for heights number - i, number - i - 1, ..., number - depth,
  // stopping at a negative height and at the first failure.
  function Prefetched(number: int, fetch: Fetch, i: int, depth: int, cache: Cache): Cache
    decreases depth - i
  {
    if i > depth || number - i < 0 then cache
    else match fetch(number - i)
      case None => cache
      case Some(h) => Prefetched(number, fetch, i + 1, depth, cache[h.hash := h])
  }

  // A head, what the node answers while it is handled, and which blocks succeed.
  datatype Arrival = Arrival(head: Header, fetch: Fetch, succeeds: Succeeds)

  datatype State = State(buf: seq<Header>, tipHash: Option<string>, processed: seq<int>)

  function Heights(hs: seq<Header>): (r: seq<int>)
    ensures |r| == |hs|
    ensures forall i :: 0 <= i < |hs| ==> r[i] == hs[i].number
  {
    if hs == [] then [] else [hs[0].number] + Heights(hs[1..])
  }

  function Released(out: Outcome): seq<Header> {
    match out
    case Clean(c) => c
    case Reorg(_, _, _, c) => c
    case Deep(_, _, c) => c
    case Raised(_, _) => []
  }

  function CacheFor(confirmations: nat, tipHash: Option<string>, head: Header, fetch: Fetch): Cache {
    if tipHash.Some? && tipHash.value != head.parentHash
    then Prefetched(head.number, fetch, 1, confirmations + 1, map[])
    else map[]
  }

  // Whether processing the block of a height succeeds.
  type Succeeds = int -> bool

  // The blocks processed one after the other, up to the first that raises.
  function Completed(heights: seq<int>, succeeds: Succeeds): (r: seq<int>)
    ensures r <= heights
    ensures |r| < |heights| ==> !succeeds(heights[|r|])
    ensures forall i :: 0 <= i < |r| ==> succeeds(r[i])
  {
    if heights == [] || !succeeds(heights[0]) then []
    else [heights[0]] + Completed(heights[1..], succeeds)
  }

  // A block that raises ends the handler after the buffer has moved on.
  function Step(confirmations: nat, s: State, a: Arrival): (State, Outcome) {
    var (buf, out) := Handle(confirmations, s.buf, a.head, Lookup(CacheFor(confirmations, s.tipHash, a.head, a.fetch)));
    if out.Raised? then (s, out)
    else (State(buf, Some(a.head.hash), s.processed + Completed(Heights(Released(out)), a.succeeds)), out)
  }

  class ChainRunner {
    const buffer: ConfirmationBuffer
    var bufferTipHash: Option<string>
    var processed: seq<int>   // heights handed to _process_confirmed_block

    constructor (buffer: ConfirmationBuffer)
      ensures this.buffer == buffer && bufferTipHash == None && processed == []
    {
      this.buffer := buffer;
      bufferTipHash := None;
      processed := [];
    }

    function Now(): State
      reads this, buffer
    {
      State(buffer.buf, bufferTipHash, processed)
    }

    method PrefetchAncestorsFor(head: Header, fetch: Fetch) returns (out: Cache)
      ensures out == Prefetched(head.number, fetch, 1, buffer.confirmations + 1, map[])
    {
      var depth := buffer.confirmations + 1;
      out := map[];
      for i := 1 to depth + 1
        invariant Prefetched(head.number, fetch, i, depth, out) == Prefetched(head.number, fetch, 1, depth, map[])
      {
        var n := head.number - i;
        if n < 0 {
          break;
        }
        var blk := fetch(n);
        if blk.None? {
          break;
        }
        out := out[blk.value.hash := blk.value];
      }
    }

    // `ok` is false when handling the head raises, which ends the runner.
    method HandleEvmHead(a: Arrival) returns (out: Outcome, ok: bool)
      modifies this, buffer`buf
      ensures (Now(), out) == Step(buffer.confirmations, old(Now()), a)
      ensures ok <==> !out.Raised? && forall i :: 0 <= i < |Released(out)| ==> a.succeeds(Released(out)[i].number)
    {
      hide Handle, Prefetched, Lookup;
      var cache: Cache := map[];
      if bufferTipHash.Some? && bufferTipHash.value != a.head.parentHash {
        cache := PrefetchAncestorsFor(a.head, a.fetch);
      }
      out := buffer.HandleNewHead(a.head, Lookup(cache));
      if out.Raised? {
        RaisedKeepsBuffer(buffer.confirmations, old(buffer.buf), Input(a.head, Lookup(cache)));
        return out, false;
      }
      bufferTipHash := Some(a.head.hash);
      ok := ProcessConfirmed(Heights(Released(out)), a.succeeds);
    }

    method ProcessConfirmed(heights: seq<int>, succeeds: Succeeds) returns (ok: bool)
      modifies `processed
      ensures processed == old(processed) + Completed(heights, succeeds)
      ensures ok <==> forall i :: 0 <= i < |heights| ==> succeeds(heights[i])
    {
      hide Completed;
      for i := 0 to |heights|
        invariant processed == old(processed) + heights[..i]
        invariant forall j :: 0 <= j < i ==> succeeds(heights[j])
      {
        if !succeeds(heights[i]) {
          CompletedStops(heights, succeeds, i);
          return false;
        }
        processed := processed + [heights[i]];
      }
      CompletedStops(heights, succeeds, |heights|);
      return true;
    }
  }

  lemma {:induction false} CompletedStops(heights: seq<int>, succeeds: Succeeds, i: nat)
    requires i <= |heights| && forall j :: 0 <= j < i ==> succeeds(heights[j])
    requires i < |heights| ==> !succeeds(heights[i])
    ensures Completed(heights, succeeds) == heights[..i]
  {
    if i > 0 {
      CompletedStops(heights[1..], succeeds, i - 1);
    }
  }

  // ----- Runs of the driver -----

  // Every fetched header is one the chain produced.
  ghost predicate HonestFetch(t: Tree, fetch: Fetch) {
    forall n :: fetch(n).Some? ==> InTree(t, fetch(n).value)
  }

  ghost predicate HonestArrival(t: Tree, a: Arrival) {
    InTree(t, a.head) && HonestFetch(t, a.fetch)
  }

  ghost function RunDriver(confirmations: nat, xs: seq<Arrival>): State {
    if xs == [] then State([], None, [])
    else Step(confirmations, RunDriver(confirmations, xs[..|xs| - 1]), xs[|xs| - 1]).0
  }

  // The same run as the buffer sees it.
  ghost function AsInputs(confirmations: nat, xs: seq<Arrival>): (r: seq<Input>)
    ensures |r| == |xs|
    ensures forall i :: 0 <= i < |xs| ==> r[i].head == xs[i].head
  {
    if xs == [] then []
    else
      var n := |xs| - 1;
      AsInputs(confirmations, xs[..n])
      + [Input(xs[n].head,
               Lookup(CacheFor(confirmations, RunDriver(confirmations, xs[..n]).tipHash, xs[n].head, xs[n].fetch)))]
  }

  // ----- The two copies of the tip agree -----

  ghost predicate TipAgrees(s: State) {
    s.tipHash == if s.buf == [] then None else Some(s.buf[|s.buf| - 1].hash)
  }

  lemma ConfirmKeepsTip(confirmations: nat, full: seq<Header>)
    requires confirmations >= 1 && full != []
    ensures var kept := Confirm(confirmations, full).0;
            kept != [] && kept[|kept| - 1] == full[|full| - 1]
  {
    var n := DrainCount(confirmations, full, full[|full| - 1].number);
    assert n < |full|;
  }

  lemma HandleKeepsTip(confirmations: nat, buf: seq<Header>, head: Header, resolve: Resolver)
    requires confirmations >= 1
    ensures var (kept, out) := Handle(confirmations, buf, head, resolve);
            !out.Raised? ==> kept != [] && kept[|kept| - 1] == head
  {
    hide Confirm, Walk;
    if LinksClean(buf, head) {
      ConfirmKeepsTip(confirmations, buf + [head]);
    } else {
      WalkKeepsHead(buf, resolve, head, [head], |buf| + 1);
      match Walk(buf, resolve, head, [head], |buf| + 1)
      case Found(i, branch) => ConfirmKeepsTip(confirmations, buf[..i + 1] + branch);
      case Exhausted => ConfirmKeepsTip(confirmations, [head]);
      case Missing(_, _) =>
    }
  }

  // With at least one confirmation, `_buffer_tip_hash` is always the hash of the
  // buffer's tip, whatever is fetched and processed; a head whose parent lookup
  // raises changes nothing.
  lemma StepKeepsTip(confirmations: nat, s: State, a: Arrival)
    requires confirmations >= 1 && TipAgrees(s)
    ensures var (s', out) := Step(confirmations, s, a);
            TipAgrees(s') && (out.Raised? ==> s' == s) && (!out.Raised? ==> s'.buf != [])
  {
    hide Handle, CacheFor, Lookup, Completed, Heights;
    HandleKeepsTip(confirmations, s.buf, a.head, Lookup(CacheFor(confirmations, s.tipHash, a.head, a.fetch)));
  }

  lemma {:induction false} RunKeepsTip(confirmations: nat, xs: seq<Arrival>)
    requires confirmations >= 1
    ensures TipAgrees(RunDriver(confirmations, xs))
  {
    if xs != [] {
      var n := |xs| - 1;
      RunKeepsTip(confirmations, xs[..n]);
      StepKeepsTip(confirmations, RunDriver(confirmations, xs[..n]), xs[n]);
    }
  }

  // ----- Prefetching confirmations + 1 ancestors is exactly enough -----

  ghost predicate CacheInTree(t: Tree, cache: Cache) {
    forall h :: h in cache ==> h in t && cache[h] == t[h]
  }

  // fetch_block follows the head's own branch.
  ghost predicate FetchesBranch(t: Tree, head: Header, fetch: Fetch) {
    forall j: nat :: 1 <= j <= head.number && Anc(t, head, j).Some? ==> fetch(head.number - j) == Anc(t, head, j)
  }

  lemma {:induction false} PrefetchedInTree(t: Tree, number: int, fetch: Fetch, i: int, depth: int, cache: Cache)
    requires ValidTree(t) && HonestFetch(t, fetch) && CacheInTree(t, cache)
    ensures CacheInTree(t, Prefetched(number, fetch, i, depth, cache))
    decreases depth - i
  {
    if i <= depth && number - i >= 0 && fetch(number - i).Some? {
      var h := fetch(number - i).value;
      PrefetchedInTree(t, number, fetch, i + 1, depth, cache[h.hash := h]);
    }
  }

  lemma LookupIsHonest(t: Tree, cache: Cache)
    requires ValidTree(t) && CacheInTree(t, cache)
    ensures Honest(t, Lookup(cache))
  {
    forall n, h | Lookup(cache)(n, h).Some?
      ensures Lookup(cache)(n, h).value.hash == h && InTree(t, Lookup(cache)(n, h).value)
    {
      assert Linked(t, h);
    }
  }

  lemma CacheForIsHonest(t: Tree, confirmations: nat, tipHash: Option<string>, head: Header, fetch: Fetch)
    requires ValidTree(t) && HonestFetch(t, fetch)
    ensures CacheInTree(t, CacheFor(confirmations, tipHash, head, fetch))
    ensures Honest(t, Lookup(CacheFor(confirmations, tipHash, head, fetch)))
  {
    PrefetchedInTree(t, head.number, fetch, 1, confirmations + 1, map[]);
    LookupIsHonest(t, CacheFor(confirmations, tipHash, head, fetch));
  }

  // Every ancestor down to `depth` below the head, or to height 0, is in the cache.
  lemma {:induction false} PrefetchCovers(t: Tree, head: Header, fetch: Fetch, i: nat, depth: nat, cache: Cache)
    requires Complete(t) && InTree(t, head) && HonestFetch(t, fetch) && FetchesBranch(t, head, fetch) && i >= 1
    ensures var out := Prefetched(head.number, fetch, i, depth, cache);
            && (forall h :: h in cache ==> h in out)
            && (forall j: nat :: i <= j <= depth && j <= head.number ==>
                  Anc(t, head, j).Some? && Anc(t, head, j).value.hash in out)
    decreases depth - i
  {
    if i <= depth && i <= head.number {
      AncExists(t, head, i);
      var a := Anc(t, head, i);
      assert fetch(head.number - i) == a;
      var next := cache[a.value.hash := a.value];
      PrefetchCovers(t, head, fetch, i + 1, depth, next);
      assert Prefetched(head.number, fetch, i, depth, cache) == Prefetched(head.number, fetch, i + 1, depth, next);
      assert a.value.hash in next;
    }
  }

  // The parent lookup raises exactly when the head does not link, none of its
  // ancestors is buffered, and the chain below it is too short for the walk.
  lemma PrefetchIsExact(t: Tree, confirmations: nat, g: History, s: State, a: Arrival)
    requires Complete(t) && confirmations >= 1 && HonestArrival(t, a) && FetchesBranch(t, a.head, a.fetch)
    requires Good(t, confirmations, g) && s.buf == g.buf && |s.buf| <= confirmations && TipAgrees(s)
    ensures Step(confirmations, s, a).1.Raised?
            <==> !LinksClean(s.buf, a.head) && a.head.number <= |s.buf|
                 && (forall b :: b in s.buf ==> !IsAncestor(t, b, a.head))
  {
    hide Confirm;
    var head, fetch := a.head, a.fetch;
    if !LinksClean(s.buf, head) {
      var cache := CacheFor(confirmations, s.tipHash, head, fetch);
      CacheForIsHonest(t, confirmations, s.tipHash, head, fetch);
      PrefetchCovers(t, head, fetch, 1, confirmations + 1, map[]);
      assert cache == Prefetched(head.number, fetch, 1, confirmations + 1, map[]);
      WindowHeights(t, g);
      var x := Input(head, Lookup(cache));
      match Handle(confirmations, s.buf, head, Lookup(cache)).1
      case Clean(_) =>
      case Reorg(_, _, _, _) => ReorgHasAncestor(t, confirmations, s.buf, x);
      case Deep(_, _, _) => DeepNeedsHeight(t, confirmations, s.buf, x);
      case Raised(_, _) => RaisedIsLow(t, confirmations, s.buf, head, cache);
    }
  }

  lemma ReorgHasAncestor(t: Tree, confirmations: nat, buf: seq<Header>, x: Input)
    requires ValidTree(t) && HonestInput(t, x)
    requires forall k :: 0 <= k < |buf| ==> InTree(t, buf[k])
    requires Handle(confirmations, buf, x.head, x.resolve).1.Reorg?
    ensures exists b :: b in buf && IsAncestor(t, b, x.head)
  {
    hide Handle;
    var i, d := ReorgShape(t, confirmations, buf, x);
    AncStep(t, x.head, d - 1);
    assert InTree(t, buf[i]);
    AncNumber(t, x.head, d);
    assert IsAncestor(t, buf[i], x.head);
  }

  lemma DeepNeedsHeight(t: Tree, confirmations: nat, buf: seq<Header>, x: Input)
    requires ValidTree(t) && HonestInput(t, x)
    requires Handle(confirmations, buf, x.head, x.resolve).1.Deep?
    ensures x.head.number > |buf|
  {
    hide Walk;
    WalkExact(t, buf, x.resolve, x.head, x.head, [x.head], 0, |buf| + 1);
    AncNumber(t, x.head, |buf| + 1);
  }

  lemma ParentHash(t: Tree, h: Header)
    requires ValidTree(t)
    ensures h.parentHash in t ==> t[h.parentHash].hash == h.parentHash
  {
    assert h.parentHash in t ==> Linked(t, h.parentHash);
  }

  lemma MissedAt(t: Tree, confirmations: nat, buf: seq<Header>, x: Input) returns (e: nat)
    requires ValidTree(t) && HonestInput(t, x)
    requires Handle(confirmations, buf, x.head, x.resolve).1.Raised?
    ensures e <= |buf| && Anc(t, x.head, e).Some?
    ensures var a := Anc(t, x.head, e).value; x.resolve(a.number - 1, a.parentHash).None?
    ensures forall j :: 0 < j <= e ==> Anc(t, x.head, j).Some? && !Buffered(buf, Anc(t, x.head, j).value.hash)
  {
    hide Walk, LastIndex, Confirm;
    WalkExact(t, buf, x.resolve, x.head, x.head, [x.head], 0, |buf| + 1);
    var w := Walk(buf, x.resolve, x.head, [x.head], |buf| + 1);
    e :| e < |buf| + 1 && Anc(t, x.head, e).Some?
        && w == Missing(Anc(t, x.head, e).value.number - 1, Anc(t, x.head, e).value.parentHash)
        && x.resolve(w.number, w.hash).None?
        && (forall j :: 0 < j <= e ==> Anc(t, x.head, j).Some? && !Buffered(buf, Anc(t, x.head, j).value.hash));
  }

  lemma RaisedIsLow(t: Tree, confirmations: nat, buf: seq<Header>, head: Header, cache: Cache)
    requires Complete(t) && InTree(t, head) && |buf| <= confirmations
    requires Honest(t, Lookup(cache)) && (forall k :: 0 <= k < |buf| ==> InTree(t, buf[k]))
    requires forall j: nat :: 1 <= j <= confirmations + 1 && j <= head.number ==>
               Anc(t, head, j).Some? && Anc(t, head, j).value.hash in cache
    requires Handle(confirmations, buf, head, Lookup(cache)).1.Raised?
    ensures head.number <= |buf| && forall b :: b in buf ==> !IsAncestor(t, b, head)
  {
    hide Handle, LastIndex;
    var e := MissedAt(t, confirmations, buf, Input(head, Lookup(cache)));
    AncNumber(t, head, e);
    ParentHash(t, Anc(t, head, e).value);
    AncStep(t, head, e);
    assert e >= head.number;
    forall b | b in buf ensures !IsAncestor(t, b, head) {
      NotBuffered(t, buf, head, e, b);
    }
  }

  lemma NotBuffered(t: Tree, buf: seq<Header>, head: Header, e: nat, b: Header)
    requires ValidTree(t) && InTree(t, head) && e >= head.number && b in buf
    requires forall k :: 0 <= k < |buf| ==> InTree(t, buf[k])
    requires forall j :: 0 < j <= e ==> Anc(t, head, j).Some? && !Buffered(buf, Anc(t, head, j).value.hash)
    ensures !IsAncestor(t, b, head)
  {
    hide LastIndex;
    var k := head.number - b.number;
    if k > 0 && Anc(t, head, k).Some? {
      AncNumber(t, head, k);
      BufferedAncestor(t, buf, head, k);
    }
  }

  // In every run over a chain without orphans, a head at height confirmations + 1
  // or above whose branch is fetched never misses an ancestor.
  lemma PrefetchSuffices(t: Tree, confirmations: nat, xs: seq<Arrival>, a: Arrival)
    requires Complete(t) && confirmations >= 1
    requires forall i :: 0 <= i < |xs| ==> HonestArrival(t, xs[i])
    requires HonestArrival(t, a) && FetchesBranch(t, a.head, a.fetch)
    ensures Step(confirmations, RunDriver(confirmations, xs), a).1.Raised? ==> a.head.number <= confirmations
  {
    hide Step, Advance;
    DriverRefinesBuffer(t, confirmations, xs);
    var ys := AsInputs(confirmations, xs);
    RunIsGood(t, confirmations, ys);
    if ys != [] {
      FrontierIsExact(t, confirmations, ys);
    }
    RunKeepsTip(confirmations, xs);
    PrefetchIsExact(t, confirmations, Run(confirmations, ys), RunDriver(confirmations, xs), a);
  }

  // ----- The driver's runs are runs of the buffer -----

  lemma {:induction false} DriverRefinesBuffer(t: Tree, confirmations: nat, xs: seq<Arrival>)
    requires ValidTree(t)
    requires forall i :: 0 <= i < |xs| ==> HonestArrival(t, xs[i])
    ensures var ys := AsInputs(confirmations, xs);
            && (forall i :: 0 <= i < |ys| ==> HonestInput(t, ys[i]))
            && RunDriver(confirmations, xs).buf == Run(confirmations, ys).buf
  {
    hide Handle, CacheFor, Heights, Lookup;
    if xs != [] {
      var n := |xs| - 1;
      DriverRefinesBuffer(t, confirmations, xs[..n]);
      assert HonestArrival(t, xs[n]);
      CacheForIsHonest(t, confirmations, RunDriver(confirmations, xs[..n]).tipHash, xs[n].head, xs[n].fetch);
      assert AsInputs(confirmations, xs)[..n] == AsInputs(confirmations, xs[..n]);
      var ys := AsInputs(confirmations, xs);
      RaisedKeepsBuffer(confirmations, Run(confirmations, ys[..n]).buf, ys[n]);
    }
  }

  lemma RaisedKeepsBuffer(confirmations: nat, buf: seq<Header>, x: Input)
    ensures var (kept, out) := Handle(confirmations, buf, x.head, x.resolve); out.Raised? ==> kept == buf
  {
  }

  // ----- What is processed -----

  ghost predicate NoDeep(confirmations: nat, ys: seq<Input>) {
    forall i :: 0 <= i < |ys| ==> !OutcomeAt(confirmations, ys, i).Deep?
  }

  // Where the current segment starts: at the first head or at the last deep reorg.
  ghost function SegmentStart(confirmations: nat, ys: seq<Input>): (n: nat)
    requires ys != []
    ensures n < |ys|
  {
    var n := |ys| - 1;
    if n == 0 || OutcomeAt(confirmations, ys, n).Deep? then n else SegmentStart(confirmations, ys[..n])
  }

  lemma {:induction false} RootIsSegmentStart(confirmations: nat, ys: seq<Input>)
    requires ys != []
    ensures Root(confirmations, ys) == ys[SegmentStart(confirmations, ys)].head
    ensures NoDeep(confirmations, ys) ==> SegmentStart(confirmations, ys) == 0
  {
    hide Handle, Run;
    var n := |ys| - 1;
    if n > 0 && !OutcomeAt(confirmations, ys, n).Deep? {
      RootIsSegmentStart(confirmations, ys[..n]);
      if NoDeep(confirmations, ys) {
        forall i | 0 <= i < n ensures !OutcomeAt(confirmations, ys[..n], i).Deep? {
          assert ys[..n][..i] == ys[..i];
          assert !OutcomeAt(confirmations, ys, i).Deep?;
        }
      }
    }
  }

  // Every block that head i confirmed was processed without an exception.
  ghost predicate Completes(confirmations: nat, xs: seq<Arrival>, i: nat)
    requires i < |xs|
  {
    var hs := Heights(Released(OutcomeAt(confirmations, AsInputs(confirmations, xs), i)));
    Completed(hs, xs[i].succeeds) == hs
  }

  lemma HeightsAppend(a: seq<Header>, b: seq<Header>)
    ensures Heights(a + b) == Heights(a) + Heights(b)
  {
    hide Heights;
  }

  lemma {:induction false} InputsOfPrefix(confirmations: nat, xs: seq<Arrival>, i: nat)
    requires i <= |xs|
    ensures AsInputs(confirmations, xs)[..i] == AsInputs(confirmations, xs[..i])
    decreases |xs|
  {
    hide CacheFor, RunDriver, Lookup;
    if i < |xs| {
      var n := |xs| - 1;
      assert AsInputs(confirmations, xs)[..n] == AsInputs(confirmations, xs[..n]);
      assert AsInputs(confirmations, xs)[..i] == AsInputs(confirmations, xs[..n])[..i];
      assert xs[..n][..i] == xs[..i];
      InputsOfPrefix(confirmations, xs[..n], i);
    } else {
      assert xs[..i] == xs;
    }
  }

  lemma CompletesOfPrefix(confirmations: nat, xs: seq<Arrival>, n: nat, i: nat)
    requires i < n <= |xs|
    ensures Completes(confirmations, xs[..n], i) <==> Completes(confirmations, xs, i)
  {
    hide AsInputs, Completed, Heights, Handle;
    InputsOfPrefix(confirmations, xs, n);
    var ys := AsInputs(confirmations, xs);
    assert ys[..n][..i] == ys[..i] && ys[..n][i] == ys[i];
  }

  // One head: what it adds to the heights processed.
  lemma StepProcesses(t: Tree, confirmations: nat, xs: seq<Arrival>)
    requires ValidTree(t) && xs != []
    requires forall i :: 0 <= i < |xs| ==> HonestArrival(t, xs[i])
    ensures var n := |xs| - 1;
            RunDriver(confirmations, xs).processed == RunDriver(confirmations, xs[..n]).processed
              + Completed(Heights(Released(OutcomeAt(confirmations, AsInputs(confirmations, xs), n))), xs[n].succeeds)
  {
    hide Handle, CacheFor, Heights, Lookup;
    var n := |xs| - 1;
    DriverRefinesBuffer(t, confirmations, xs[..n]);
    assert AsInputs(confirmations, xs)[..n] == AsInputs(confirmations, xs[..n]);
    assert Completed(Heights([]), xs[n].succeeds) == [];
  }

  lemma LastConfirms(confirmations: nat, ys: seq<Input>)
    requires ys != []
    ensures var n := |ys| - 1;
            var out := OutcomeAt(confirmations, ys, n);
            Run(confirmations, ys).confirmed
            == (if n == 0 || out.Deep? then [] else Run(confirmations, ys[..n]).confirmed) + Released(out)
  {
    hide Handle;
  }

  // How the heights processed since the segment started relate to those of the
  // headers confirmed since then: all of them, or up to the first that raised.
  ghost predicate Follows(since: seq<int>, confirmed: seq<int>, complete: bool, succeeds: Succeeds) {
    && since <= confirmed
    && (if complete then since == confirmed else |since| < |confirmed| && !succeeds(confirmed[|since|]))
  }

  lemma FollowsOn(earlier: seq<int>, heights: seq<int>, complete: bool, succeeds: Succeeds)
    requires complete <==> Completed(heights, succeeds) == heights
    ensures Follows(earlier + Completed(heights, succeeds), earlier + heights, complete, succeeds)
  {
    var done := Completed(heights, succeeds);
    assert |done| < |heights| ==> (earlier + heights)[|earlier + done|] == heights[|done|];
  }

  // In every run, however many deep reorgs: what was processed before the segment
  // started stays, and since then exactly the confirmed headers were processed; a
  // block that raises ends the runner, and is the first one missing.
  lemma {:induction false} DriverProcessesConfirmed(t: Tree, confirmations: nat, xs: seq<Arrival>)
    returns (since: seq<int>)
    requires ValidTree(t) && xs != []
    requires forall i :: 0 <= i < |xs| ==> HonestArrival(t, xs[i])
    requires forall i :: 0 <= i < |xs| - 1 ==> Completes(confirmations, xs, i)
    ensures var ys := AsInputs(confirmations, xs);
            && RunDriver(confirmations, xs).processed
               == RunDriver(confirmations, xs[..SegmentStart(confirmations, ys)]).processed + since
            && Follows(since, Heights(Run(confirmations, ys).confirmed), Completes(confirmations, xs, |xs| - 1),
                       xs[|xs| - 1].succeeds)
  {
    hide RunDriver, Run, OutcomeAt, Heights, Completed, CacheFor, Lookup;
    var n := |xs| - 1;
    var ys := AsInputs(confirmations, xs);
    var released := Released(OutcomeAt(confirmations, ys, n));
    assert ys[..n] == AsInputs(confirmations, xs[..n]);
    StepProcesses(t, confirmations, xs);
    LastConfirms(confirmations, ys);
    since := Completed(Heights(released), xs[n].succeeds);
    if n == 0 || OutcomeAt(confirmations, ys, n).Deep? {
      assert [] + released == released;
    } else {
      forall i | 0 <= i < n ensures Completes(confirmations, xs[..n], i) {
        CompletesOfPrefix(confirmations, xs, n, i);
      }
      var earlier := DriverProcessesConfirmed(t, confirmations, xs[..n]);
      var start := SegmentStart(confirmations, ys);
      assert xs[..n][..start] == xs[..start];
      HeightsAppend(Run(confirmations, ys[..n]).confirmed, released);
      FollowsOn(earlier, Heights(released), Completes(confirmations, xs, n), xs[n].succeeds);
      ConcatAssociates(RunDriver(confirmations, xs[..start]).processed, earlier, since);
      since := earlier + since;
    }
  }

  // The live loop processes the heights from the segment's root up to
  // `confirmations` below the greatest head since then, in order, each once; when
  // a block raises, it is the first one missing. Without a deep reorg the segment
  // is the whole run.
  lemma LiveProcessingIsExact(t: Tree, confirmations: nat, xs: seq<Arrival>) returns (since: seq<int>)
    requires ValidTree(t) && confirmations >= 1 && xs != []
    requires forall i :: 0 <= i < |xs| ==> HonestArrival(t, xs[i])
    requires forall i :: 0 <= i < |xs| - 1 ==> Completes(confirmations, xs, i)
    ensures var ys := AsInputs(confirmations, xs);
            var start := SegmentStart(confirmations, ys);
            var root := xs[start].head.number;
            var due := Max(0, Highest(confirmations, ys) - confirmations + 1 - root);
            && RunDriver(confirmations, xs).processed == RunDriver(confirmations, xs[..start]).processed + since
            && (forall i :: 0 <= i < |since| ==> since[i] == root + i)
            && (if Completes(confirmations, xs, |xs| - 1) then |since| == due
                else |since| < due && !xs[|xs| - 1].succeeds(root + |since|))
            && (NoDeep(confirmations, ys) ==> start == 0 && RunDriver(confirmations, xs).processed == since)
  {
    hide AsInputs, Run, RunDriver, OutcomeAt, Root, Highest, Heights, Completes, SegmentStart, NoDeep, HonestInput;
    var ys := AsInputs(confirmations, xs);
    DriverRefinesBuffer(t, confirmations, xs);
    since := DriverProcessesConfirmed(t, confirmations, xs);
    FrontierIsExact(t, confirmations, ys);
    RootIsSegmentStart(confirmations, ys);
    NothingAtFirst(confirmations, xs);
  }

  lemma NothingAtFirst(confirmations: nat, xs: seq<Arrival>)
    ensures RunDriver(confirmations, xs[..0]).processed == []
  {
  }
}
