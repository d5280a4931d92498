/** Solana catch-up through its adapter: what get_blocks hands over, and what that loses. */
module SolanaAdapter {
  import opened Common
  import opened SolanaCatchup
  import opened NodeAdapters
  import EndpointPool
  import EvmCatchup

  // ----- get_blocks -----

  // The JSON of an HTTP reply: a dictionary with a result, with an RPC error
  // instead, or no dictionary at all.
  datatype Body = Listed(slots: seq<int>) | ErrorBody | NotDict(kind: JsonKind)

  datatype JsonKind = List | Text | Integer | Decimal | Boolean | Null

  function TypeName(kind: JsonKind): string {
    match kind
    case List => "list"
    case Text => "str"
    case Integer => "int"
    case Decimal => "float"
    case Boolean => "bool"
    case Null => "NoneType"
  }

  // The text of the RuntimeError for a body that is no dictionary.
  function NotDictText(kind: JsonKind): string {
    "RPC \U{8FD4}\U{56DE}\U{4E0D}\U{662F} dict\U{FF08}" + TypeName(kind) + "\U{FF09}"
  }

  // list(body.get("result") or []): an RPC error is an empty list.
  function GetBlocks(pool: Pool, replies: Replies<Body>): Reply {
    var answer: Option<Body> := Request(pool, replies);
    match answer
    case None => Failure(AllEndpointsFailed(|EndpointPool.Candidates(pool.eps, pool.now)|))
    case Some(Listed(slots)) => Slots(slots)
    case Some(ErrorBody) => Slots([])
    case Some(NotDict(kind)) => Failure(NotDictText(kind))
  }

  lemma NotDictIsNoLimit(kind: JsonKind)
    ensures !IsRangeTooLarge(NotDictText(kind))
  {
    hide Contains;
    var text := Lower(NotDictText(kind));
    assert 'x' !in text && 'g' !in text;
    Misses(text, "exceeds maximum", 1);
    Misses(text, "too large", 7);
    Misses(text, "limit exceeded", 7);
  }

  // The requests get_blocks(start, end) of a run: the pool each finds, what endpoint
  // i replies, and the finalized height behind the reply.
  datatype Requests = Requests(
    pool: (int, int) -> Pool, replies: (int, int) -> Replies<Body>, finalized: (int, int) -> int)

  // The slot environment of a run through the adapter.
  function SlotNode(env: Env, q: Requests): Env {
    env.(getBlocks := (start: int, end: int) => GetBlocks(q.pool(start, end), q.replies(start, end)))
  }

  function BodyOf(q: Requests, start: int, end: int): Option<Body> {
    Request(q.pool(start, end), q.replies(start, end))
  }

  // ----- What a reply can list -----

  // The commitment a chain is configured with, and a node's two heights.
  datatype Commitment = Confirmed | Finalized

  datatype View = View(finalized: int, confirmed: int)

  // get_latest_slot follows the chain's commitment.
  function TipAt(commitment: Commitment, view: View): int {
    if commitment == Finalized then view.finalized else view.confirmed
  }

  predicate IsError(q: Requests, start: int, end: int) {
    BodyOf(q, start, end) == Some(ErrorBody)
  }

  // How far the reply for a window reaches: get_blocks always asks at `finalized`,
  // whatever the chain's commitment; an RPC error reaches nowhere, and the dense
  // fallback everywhere.
  function SeenUpTo(q: Requests, start: int, end: int): (seen: int)
    ensures Min(start - 1, end) <= seen <= Max(start - 1, end)
  {
    var body := BodyOf(q, start, end);
    if body == Some(ErrorBody) then start - 1
    else if body.Some? && body.value.Listed? then Max(start - 1, Min(end, q.finalized(start, end)))
    else end
  }

  // A listed body holds ascending finalized slots of the range, among them all that process.
  ghost predicate HonestBodies(env: Env, q: Requests) {
    forall start, end :: BodyOf(q, start, end).Some? && BodyOf(q, start, end).value.Listed? ==>
      Covers(env, BodyOf(q, start, end).value.slots, start, SeenUpTo(q, start, end))
  }

  // Through the adapter a window is always classified, and lists what its reply reaches.
  lemma WindowOfBody(env: Env, q: Requests, start: int, end: int)
    requires HonestBodies(env, q)
    ensures var listed := GetBlocksClassified(SlotNode(env, q), start, end);
            listed.Ok? && Covers(env, listed.value, start, SeenUpTo(q, start, end))
  {
    hide IsRangeTooLarge, AllEndpointsFailed, NotDictText, Request, EndpointPool.Candidates;
    var pool := q.pool(start, end);
    FailureHidesRangeTooLarge(|EndpointPool.Candidates(pool.eps, pool.now)|);
    DenseCovers(env, start, end);
    match BodyOf(q, start, end)
    case Some(NotDict(kind)) => NotDictIsNoLimit(kind);
    case _ =>
  }

  // ----- What a run keeps -----

  // Slot by slot, as far as the reply for each window reaches.
  ghost function KeptSlots(env: Env, q: Requests, range: int, from: int, tip: int): seq<int>
    requires range >= 1
    decreases tip - from
  {
    if from > tip then []
    else
      var end := Min(from + range - 1, tip);
      SlotBySlot(env, from, SeenUpTo(q, from, end))
      + KeptSlots(env, q, range, end + 1, tip)
  }

  lemma KeptFirst(env: Env, q: Requests, range: int, from: int, tip: int)
    requires range >= 1 && from <= tip
    ensures var end := Min(from + range - 1, tip);
            KeptSlots(env, q, range, from, tip)
            == SlotBySlot(env, from, SeenUpTo(q, from, end)) + KeptSlots(env, q, range, end + 1, tip)
  {
    hide SlotBySlot, SeenUpTo;
  }

  lemma StopsLater(env: Env, a: int, b: int)
    requires StopIsFinal(env) && env.stopped(a) && a <= b
    ensures env.stopped(b)
  {
  }

  lemma {:induction false} NothingAfterStop(env: Env, q: Requests, range: int, from: int, tip: int)
    requires range >= 1 && StopIsFinal(env) && env.stopped(from)
    ensures KeptSlots(env, q, range, from, tip) == []
    decreases tip - from
  {
    hide StopIsFinal, SeenUpTo;
    if from <= tip {
      var end := Min(from + range - 1, tip);
      StopsLater(env, from, end + 1);
      NothingAfterStop(env, q, range, end + 1, tip);
    }
  }

  lemma SameVisit(env: Env, q: Requests, slots: seq<int>)
    ensures Visit(SlotNode(env, q), slots) == Visit(env, slots)
  {
    if slots != [] {
      SameVisit(env, q, slots[1..]);
    }
  }

  // Through the adapter a run never ends on a range-too-large error, and processes
  // the slots its replies reach as if visited one at a time.
  lemma {:induction false} AdapterRunKeeps(env: Env, q: Requests, range: int, from: int, tip: int)
    requires range >= 1 && StopIsFinal(env) && HonestBodies(env, q)
    ensures var w := Windows(SlotNode(env, q), range, from, tip);
            w.done == KeptSlots(env, q, range, from, tip) && !w.ending.Raised?
    decreases tip - from
  {
    hide SlotNode, GetBlocksClassified, Visit, SlotBySlot, HonestBodies, StopIsFinal, Covers, SeenUpTo;
    if from <= tip {
      hide Windows, KeptSlots;
      FirstWindow(SlotNode(env, q), range, from, tip);
      KeptFirst(env, q, range, from, tip);
      var end := Min(from + range - 1, tip);
      var seen := SeenUpTo(q, from, end);
      var listed := GetBlocksClassified(SlotNode(env, q), from, end);
      WindowOfBody(env, q, from, end);
      SameVisit(env, q, listed.value);
      AdapterRunKeeps(env, q, range, end + 1, tip);
      VisitIsSlotBySlot(env, listed.value, from, seen);
      if Visit(env, listed.value).ending.Stopped? {
        var s :| from <= s <= seen && env.stopped(s);
        StopsLater(env, s, end + 1);
        NothingAfterStop(env, q, range, end + 1, tip);
      }
    }
  }

  // ----- What a run misses -----

  // A slot of the window at w that its reply does not reach.
  ghost predicate Missed(q: Requests, range: int, from: int, tip: int, w: int, s: int)
    requires range >= 1
  {
    var end := Min(w + range - 1, tip);
    EvmCatchup.WindowStart(range, from, w) && SeenUpTo(q, w, end) < s <= end
  }

  // No slot before the stop that would have been processed is missed.
  ghost predicate NothingMissed(env: Env, q: Requests, range: int, from: int, tip: int)
    requires range >= 1
  {
    forall w, s :: Missed(q, range, from, tip, w, s) && !env.stopped(s) ==> !env.slot(s).Processes?
  }

  ghost predicate AllQuiet(env: Env, a: int, b: int) {
    forall s :: a <= s <= b && !env.stopped(s) ==> !env.slot(s).Processes?
  }

  lemma {:induction false} QuietIff(env: Env, a: int, b: int)
    requires StopIsFinal(env)
    ensures SlotBySlot(env, a, b) == [] <==> AllQuiet(env, a, b)
    decreases b - a
  {
    if a <= b {
      if env.stopped(a) {
        forall s | a <= s <= b ensures env.stopped(s) {
          StopsLater(env, a, s);
        }
      } else {
        hide StopIsFinal;
        QuietIff(env, a + 1, b);
      }
    }
  }

  // The windows are the first one and those after it.
  lemma MissedInWindows(env: Env, q: Requests, range: int, from: int, tip: int)
    requires range >= 1 && from <= tip
    ensures var end := Min(from + range - 1, tip);
            NothingMissed(env, q, range, from, tip)
            <==> AllQuiet(env, SeenUpTo(q, from, end) + 1, end)
                 && NothingMissed(env, q, range, end + 1, tip)
  {
    hide SeenUpTo;
    var end := Min(from + range - 1, tip);
    if NothingMissed(env, q, range, from, tip) {
      forall s | SeenUpTo(q, from, end) < s <= end && !env.stopped(s)
        ensures !env.slot(s).Processes?
      {
        assert Missed(q, range, from, tip, from, s);
      }
      var next := end + 1;
      forall w, s | Missed(q, range, next, tip, w, s) && !env.stopped(s)
        ensures !env.slot(s).Processes?
      {
        LaterWindow(q, range, from, tip, w, s);
      }
    }
    if AllQuiet(env, SeenUpTo(q, from, end) + 1, end)
       && NothingMissed(env, q, range, end + 1, tip)
    {
      forall w, s | Missed(q, range, from, tip, w, s) && !env.stopped(s)
        ensures !env.slot(s).Processes?
      {
        LaterWindow(q, range, from, tip, w, s);
      }
    }
  }

  lemma LaterWindow(q: Requests, range: int, from: int, tip: int, w: int, s: int)
    requires range >= 1 && from <= tip
    ensures var next := Min(from + range - 1, tip) + 1;
            Missed(q, range, next, tip, w, s)
            <==> w != from && Missed(q, range, from, tip, w, s)
  {
    hide SeenUpTo, EvmCatchup.WindowStart;
    EvmCatchup.StartsAreApart(range, from, w);
    EvmCatchup.StartsAreApart(range, Min(from + range - 1, tip) + 1, w);
    if w >= from + range {
      EvmCatchup.WindowStartMoves(range, from, w);
    }
  }

  lemma {:induction false} KeepsAllIffNothingMissed(env: Env, q: Requests, range: int, from: int, tip: int)
    requires range >= 1 && from <= tip + 1 && StopIsFinal(env)
    ensures |KeptSlots(env, q, range, from, tip)| <= |SlotBySlot(env, from, tip)|
    ensures KeptSlots(env, q, range, from, tip) == SlotBySlot(env, from, tip)
            <==> NothingMissed(env, q, range, from, tip)
    decreases tip - from
  {
    hide SlotBySlot, StopIsFinal, NothingMissed, AllQuiet, SeenUpTo;
    if from <= tip {
      hide KeptSlots;
      KeptFirst(env, q, range, from, tip);
      var end := Min(from + range - 1, tip);
      var seen := SeenUpTo(q, from, end);
      KeepsAllIffNothingMissed(env, q, range, end + 1, tip);
      MissedInWindows(env, q, range, from, tip);
      QuietIff(env, seen + 1, end);
      SlotBySlotJoins(env, from, end, tip);
      SlotBySlotJoins(env, from, seen, end);
      SameIff(SlotBySlot(env, from, seen), SlotBySlot(env, seen + 1, end), SlotBySlot(env, end + 1, tip),
              KeptSlots(env, q, range, end + 1, tip));
    } else {
      NoSlots(env, from);
      NoWindowsLeft(env, q, range, from, tip);
    }
  }

  lemma SameIff(here: seq<int>, missed: seq<int>, later: seq<int>, kept: seq<int>)
    requires |kept| <= |later|
    ensures here + kept == (here + missed) + later <==> missed == [] && kept == later
    ensures |here + kept| <= |(here + missed) + later|
  {
    if missed == [] {
      assert here + missed == here;
      assert (here + kept)[|here|..] == kept && (here + later)[|here|..] == later;
    }
  }

  lemma NoWindowsLeft(env: Env, q: Requests, range: int, from: int, tip: int)
    requires range >= 1 && from > tip
    ensures NothingMissed(env, q, range, from, tip)
  {
    forall w, s | Missed(q, range, from, tip, w, s) ensures false {
      EvmCatchup.StartsAreApart(range, from, w);
      var seen := SeenUpTo(q, w, Min(w + range - 1, tip));
    }
  }

  // The promise of FallbackIsInvisible, for the adapter as it is: a run processes
  // what visiting every slot would exactly when, before the stop, no slot that
  // processes lies in a window answered by an RPC error, or above the finalized
  // height behind the answer of its window.
  lemma AdapterRunIsSlotBySlotIff(env: Env, q: Requests, range: int, from: int, tip: int)
    requires range >= 1 && from <= tip + 1 && StopIsFinal(env) && HonestBodies(env, q)
    ensures Windows(SlotNode(env, q), range, from, tip).done == SlotBySlot(env, from, tip)
            <==> NothingMissed(env, q, range, from, tip)
  {
    AdapterRunKeeps(env, q, range, from, tip);
    KeepsAllIffNothingMissed(env, q, range, from, tip);
  }

  // With commitment `finalized`, no endpoint behind the one that gave the tip, and no
  // RPC error, nothing is missed.
  lemma FinalizedRunIsExact(env: Env, q: Requests, range: int, from: int, view: View)
    requires range >= 1 && StopIsFinal(env) && HonestBodies(env, q)
    requires from <= TipAt(Finalized, view) + 1
    requires forall start, end :: end <= TipAt(Finalized, view) ==>
               q.finalized(start, end) >= view.finalized && !IsError(q, start, end)
    ensures var tip := TipAt(Finalized, view);
            Windows(SlotNode(env, q), range, from, tip).done == SlotBySlot(env, from, tip)
  {
    var tip := TipAt(Finalized, view);
    forall w, s | Missed(q, range, from, tip, w, s) ensures false {
      var end := Min(w + range - 1, tip);
      var _ := IsError(q, w, end);
    }
    AdapterRunIsSlotBySlotIff(env, q, range, from, tip);
  }

  // ----- One input for each way to miss a slot -----

  const HEALTHY := Pool([EndpointPool.Endpoint(0, 0)], 0)

  // The one endpoint gives every request this body, at this finalized height.
  function Always(body: Body, height: int): Requests {
    Requests((start: int, end: int) => HEALTHY, (start: int, end: int) => (i: nat) => Some(body),
             (start: int, end: int) => height)
  }

  // Nothing stops the run, and slot 7 is the only one with a block.
  function OnlySeven(): Env {
    Env((start: int, end: int) => Slots([]), (s: int) => false, (s: int) => if s == 7 then Processes else NoBlock)
  }

  lemma AlwaysAnswers(body: Body, height: int, start: int, end: int)
    ensures BodyOf(Always(body, height), start, end) == Some(body)
  {
    var cs := EndpointPool.Candidates(HEALTHY.eps, HEALTHY.now);
    assert HEALTHY.eps[0].until <= HEALTHY.now;
    assert 0 in cs;
    assert cs[0] in cs;
  }

  lemma SevenIsDue(from: int)
    requires from == 6
    ensures SlotBySlot(OnlySeven(), from, 7) == [7]
  {
    assert SlotBySlot(OnlySeven(), 8, 7) == [];
    assert SlotBySlot(OnlySeven(), 7, 7) == [7];
  }

  // At commitment `confirmed`, with healthy nodes and no RPC error: the tip is 7, but
  // get_blocks lists nothing above the finalized height 5.
  lemma UnfinalizedSlotIsLost()
    ensures var q, env, tip := Always(Listed([]), 5), OnlySeven(), TipAt(Confirmed, View(5, 7));
            && StopIsFinal(env) && HonestBodies(env, q)
            && (forall start, end :: !IsError(q, start, end))
            && SlotBySlot(env, 6, tip) == [7] && Windows(SlotNode(env, q), 10, 6, tip).done == []
  {
    hide Covers, HonestBodies, SlotBySlot, Windows, SlotNode;
    var q, env := Always(Listed([]), 5), OnlySeven();
    forall start, end ensures BodyOf(q, start, end) == Some(Listed([])) {
      AlwaysAnswers(Listed([]), 5, start, end);
    }
    ListsNothingHonestly();
    SevenIsDue(6);
    NothingUpTo(env, q, 6, 7);
  }

  lemma ListsNothingHonestly()
    ensures HonestBodies(OnlySeven(), Always(Listed([]), 5))
  {
    forall start, end ensures BodyOf(Always(Listed([]), 5), start, end) == Some(Listed([])) {
      AlwaysAnswers(Listed([]), 5, start, end);
    }
  }

  // At commitment `finalized`: an RPC error hides the window with slot 7.
  lemma ErrorWindowIsLost()
    ensures var q, env, tip := Always(ErrorBody, 7), OnlySeven(), TipAt(Finalized, View(7, 9));
            && StopIsFinal(env) && HonestBodies(env, q)
            && SlotBySlot(env, 6, tip) == [7] && Windows(SlotNode(env, q), 10, 6, tip).done == []
  {
    hide Covers, SlotBySlot, Windows, SlotNode;
    var q, env := Always(ErrorBody, 7), OnlySeven();
    forall start, end ensures BodyOf(q, start, end) == Some(ErrorBody) {
      AlwaysAnswers(ErrorBody, 7, start, end);
    }
    SevenIsDue(6);
    NothingUpTo(env, q, 6, 7);
  }

  // A run over one window whose reply reaches below its first slot.
  lemma NothingUpTo(env: Env, q: Requests, from: int, tip: int)
    requires StopIsFinal(env) && HonestBodies(env, q) && from <= tip < from + 10 && SeenUpTo(q, from, tip) < from
    ensures Windows(SlotNode(env, q), 10, from, tip).done == []
  {
    AdapterRunKeeps(env, q, 10, from, tip);
    KeptFirst(env, q, 10, from, tip);
  }
}
