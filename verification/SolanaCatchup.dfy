/** Solana catch-up: windows of candidate slots, with a dense fallback. */
module SolanaCatchup {
  import opened Common
  import EvmCatchup

  // What processing a slot meets: no block there, a block processed and
  // checkpointed, or an exception (logged, the slot skipped).
  datatype SlotOutcome = NoBlock | Processes | Fails

  datatype Reply = Slots(slots: seq<int>) | Failure(message: string)

  datatype Env = Env(getBlocks: (int, int) -> Reply, stopped: int -> bool, slot: int -> SlotOutcome)

  const RANGE_TOO_LARGE_HINTS := ["exceeds maximum", "too large", "limit exceeded"]

  predicate IsRangeTooLarge(message: string) {
    exists h :: h in RANGE_TOO_LARGE_HINTS && Contains(Lower(message), h)
  }

  lemma RangeTooLargeMeaning(message: string)
    ensures IsRangeTooLarge(message) <==>
              exists hint, before, after :: hint in RANGE_TOO_LARGE_HINTS && Lower(message) == before + hint + after
  {
    hide Contains, Lower;
    forall hint
      ensures Contains(Lower(message), hint) <==> exists before, after :: Lower(message) == before + hint + after
    {
      ContainsMeaning(Lower(message), hint);
    }
  }

  // list(range(start, end + 1))
  function Dense(start: int, end: int): (r: seq<int>)
    decreases Max(0, end - start + 1)
  {
    if start > end then [] else [start] + Dense(start + 1, end)
  }

  // The reply for a window is a failure that says the range is too large.
  predicate TooLarge(env: Env, start: int, end: int) {
    env.getBlocks(start, end).Failure? && IsRangeTooLarge(env.getBlocks(start, end).message)
  }

  function GetBlocksClassified(env: Env, start: int, end: int): (r: Result<seq<int>, string>)
    ensures r.Err? <==> TooLarge(env, start, end)
  {
    match env.getBlocks(start, end)
    case Slots(slots) => Ok(slots)
    case Failure(msg) => if IsRangeTooLarge(msg) then Err(msg) else Ok(Dense(start, end))
  }

  datatype Ending = Finished | Stopped | Raised

  datatype Progress = Progress(done: seq<int>, ending: Ending)

  function Then(done: seq<int>, rest: Progress): Progress {
    Progress(done + rest.done, rest.ending)
  }

  function Visit(env: Env, slots: seq<int>): Progress {
    if slots == [] then Progress([], Finished)
    else if env.stopped(slots[0]) then Progress([], Stopped)
    else Then(if env.slot(slots[0]).Processes? then [slots[0]] else [], Visit(env, slots[1..]))
  }

  function Windows(env: Env, range: int, start: int, tip: int): Progress
    requires range >= 1
    decreases tip - start
  {
    if start > tip then Progress([], Finished)
    else
      var end := Min(start + range - 1, tip);
      var valid := GetBlocksClassified(env, start, end);
      if valid.Err? then Progress([], Raised)
      else
        var v := Visit(env, valid.value);
        if v.ending.Stopped? then v else Then(v.done, Windows(env, range, end + 1, tip))
  }

  lemma FirstWindow(env: Env, range: int, start: int, tip: int)
    requires range >= 1 && start <= tip
    ensures var end := Min(start + range - 1, tip);
            var valid := GetBlocksClassified(env, start, end);
            var all := Windows(env, range, start, tip);
            if valid.Err? then all == Progress([], Raised)
            else
              var v := Visit(env, valid.value);
              all == if v.ending.Stopped? then v else Then(v.done, Windows(env, range, end + 1, tip))
  {
    hide GetBlocksClassified, Visit;
  }

  class SlotRunner {
    var processed: seq<int>
    var checkpoint: Option<int>

    constructor ()
      ensures processed == [] && checkpoint == None
    {
      processed, checkpoint := [], None;
    }

    ghost predicate Valid()
      reads this
    {
      checkpoint == if processed == [] then None else Some(processed[|processed| - 1])
    }

    method ProcessSolanaSlot(env: Env, slot: int)
      requires Valid()
      modifies this
      ensures Valid()
      ensures processed == old(processed) + if env.slot(slot).Processes? then [slot] else []
    {
      if env.slot(slot).Processes? {
        processed, checkpoint := processed + [slot], Some(slot);
      }
    }

    method VisitAll(env: Env, slots: seq<int>) returns (stopped: bool)
      requires Valid()
      modifies this
      ensures Valid()
      ensures processed == old(processed) + Visit(env, slots).done
      ensures stopped == Visit(env, slots).ending.Stopped?
    {
      ghost var done: seq<int> := [];
      for i := 0 to |slots|
        invariant Valid() && processed == old(processed) + done
        invariant Then(done, Visit(env, slots[i..])) == Visit(env, slots)
      {
        if env.stopped(slots[i]) {
          return true;
        }
        ghost var now := if env.slot(slots[i]).Processes? then [slots[i]] else [];
        ProcessSolanaSlot(env, slots[i]);
        assert slots[i..][1..] == slots[i + 1..];
        ConcatAssociates(old(processed), done, now);
        ConcatAssociates(done, now, Visit(env, slots[i + 1..]).done);
        done := done + now;
      }
      return false;
    }

    method CatchupSolana(c: EvmCatchup.Config, range: int, env: Env) returns (ending: Ending)
      requires Valid() && range >= 1
      modifies this
      ensures Valid()
      ensures var p := EvmCatchup.PlanOf(c.(confirmations := 0));
              if !EvmCatchup.Due(c.(confirmations := 0)) then processed == old(processed) && ending == Finished
              else
                var w := Windows(env, range, p.last + 1, p.safeTip);
                processed == old(processed) + w.done && ending == w.ending
    {
      hide Visit, EvmCatchup.PlanOf, EvmCatchup.IsCandidate, EvmCatchup.Due, GetBlocksClassified, Windows, TooLarge;
      var p := EvmCatchup.PlanOf(c.(confirmations := 0));
      if p.Nothing? {
        return Finished;
      }
      var start := p.last + 1;
      ghost var whole := Windows(env, range, start, p.safeTip);
      ghost var done: seq<int> := [];
      while start <= p.safeTip
        invariant Valid() && processed == old(processed) + done
        invariant Then(done, Windows(env, range, start, p.safeTip)) == whole
      {
        FirstWindow(env, range, start, p.safeTip);
        var end := Min(start + range - 1, p.safeTip);
        var valid := GetBlocksClassified(env, start, end);
        if valid.Err? {
          return Raised;
        }
        ghost var v := Visit(env, valid.value);
        var stopped := VisitAll(env, valid.value);
        ConcatAssociates(old(processed), done, v.done);
        if stopped {
          return Stopped;
        }
        ConcatAssociates(done, v.done, Windows(env, range, end + 1, p.safeTip).done);
        done := done + v.done;
        start := end + 1;
      }
      NoWindow(env, range, start, p.safeTip);
      return Finished;
    }
  }

  lemma NoWindow(env: Env, range: int, start: int, tip: int)
    requires range >= 1 && start > tip
    ensures Windows(env, range, start, tip) == Progress([], Finished)
  {
  }

  // ----- The dense fallback is invisible -----

  // The stop flag, once seen, stays set for every later slot.
  ghost predicate StopIsFinal(env: Env) {
    forall s, s' :: s <= s' && env.stopped(s) ==> env.stopped(s')
  }

  ghost predicate Ascending(slots: seq<int>) {
    forall i, j :: 0 <= i < j < |slots| ==> slots[i] < slots[j]
  }

  // Ascending slots of the range, among them every slot that processes.
  ghost predicate Covers(env: Env, slots: seq<int>, start: int, end: int) {
    && Ascending(slots)
    && (forall i :: 0 <= i < |slots| ==> start <= slots[i] <= end)
    && (forall s :: start <= s <= end && env.slot(s).Processes? ==> s in slots)
  }

  ghost predicate HonestNode(env: Env) {
    forall s, e :: env.getBlocks(s, e).Slots? ==> Covers(env, env.getBlocks(s, e).slots, s, e)
  }

  // One slot at a time, from..to, until the stop flag.
  ghost function SlotBySlot(env: Env, from: int, to: int): seq<int>
    decreases Max(0, to - from + 1)
  {
    if from > to || env.stopped(from) then []
    else (if env.slot(from).Processes? then [from] else []) + SlotBySlot(env, from + 1, to)
  }

  lemma {:induction false} DenseCovers(env: Env, start: int, end: int)
    ensures Covers(env, Dense(start, end), start, end)
    ensures |Dense(start, end)| == Max(0, end - start + 1)
    decreases Max(0, end - start + 1)
  {
    if start <= end {
      DenseCovers(env, start + 1, end);
    }
  }

  // Slots before the first listed one have no effect.
  lemma {:induction false} SkipQuietSlots(env: Env, from: int, next: int, to: int)
    requires from <= next <= to + 1 && StopIsFinal(env)
    requires forall s :: from <= s < next ==> !env.slot(s).Processes?
    ensures SlotBySlot(env, from, to) == if next > to || env.stopped(next) then [] else SlotBySlot(env, next, to)
    decreases next - from
  {
    if from < next {
      SkipQuietSlots(env, from + 1, next, to);
      assert env.stopped(from) && next <= to ==> env.stopped(next);
    }
  }

  lemma CoversRest(env: Env, slots: seq<int>, from: int, to: int)
    requires Covers(env, slots, from, to) && slots != []
    ensures from <= slots[0] <= to && (forall s :: from <= s < slots[0] ==> !env.slot(s).Processes?)
    ensures Covers(env, slots[1..], slots[0] + 1, to)
  {
    forall x | slots[0] + 1 <= x <= to && env.slot(x).Processes? ensures x in slots[1..] {
      assert x in slots;
    }
  }

  lemma {:induction false} VisitIsSlotBySlot(env: Env, slots: seq<int>, from: int, to: int)
    requires StopIsFinal(env) && Covers(env, slots, from, to)
    ensures Visit(env, slots).done == SlotBySlot(env, from, to)
    ensures Visit(env, slots).ending.Stopped? ==> exists s :: from <= s <= to && env.stopped(s)
    ensures !Visit(env, slots).ending.Raised?
    decreases |slots|
  {
    if slots == [] {
      if from <= to {
        SkipQuietSlots(env, from, to + 1, to);
      }
    } else {
      hide StopIsFinal, Covers;
      var s := slots[0];
      CoversRest(env, slots, from, to);
      SkipQuietSlots(env, from, s, to);
      if !env.stopped(s) {
        VisitIsSlotBySlot(env, slots[1..], s + 1, to);
      }
    }
  }

  lemma {:induction false} SlotBySlotJoins(env: Env, from: int, mid: int, to: int)
    requires from <= mid + 1 && mid <= to && StopIsFinal(env)
    ensures SlotBySlot(env, from, mid) + SlotBySlot(env, mid + 1, to) == SlotBySlot(env, from, to)
    decreases mid - from + 1
  {
    if from <= mid {
      if env.stopped(from) {
        assert mid + 1 <= to ==> env.stopped(mid + 1);
      } else {
        SlotBySlotJoins(env, from + 1, mid, to);
      }
    }
  }

  lemma StoppedStays(env: Env, from: int, mid: int, to: int)
    requires StopIsFinal(env) && from <= mid <= to && exists s :: from <= s <= mid && env.stopped(s)
    ensures SlotBySlot(env, mid + 1, to) == []
  {
    assert mid < to ==> env.stopped(mid + 1);
  }

  lemma ClassifiedCovers(env: Env, start: int, end: int)
    requires HonestNode(env)
    ensures var r := GetBlocksClassified(env, start, end); r.Ok? ==> Covers(env, r.value, start, end)
  {
    DenseCovers(env, start, end);
  }

  // No window that starts before `until` is too large.
  ghost predicate NoneTooLarge(env: Env, range: int, from: int, tip: int, until: int)
    requires range >= 1
  {
    forall n :: EvmCatchup.WindowStart(range, from, n) && n < until ==> !TooLarge(env, n, Min(n + range - 1, tip))
  }

  lemma FirstNotTooLarge(env: Env, range: int, from: int, tip: int, until: int)
    requires range >= 1 && from < until <= tip + 1 && !TooLarge(env, from, Min(from + range - 1, tip))
    requires NoneTooLarge(env, range, Min(from + range - 1, tip) + 1, tip, until)
    ensures NoneTooLarge(env, range, from, tip, until)
  {
    hide EvmCatchup.WindowStart, TooLarge;
    forall n | EvmCatchup.WindowStart(range, from, n) && n < until ensures !TooLarge(env, n, Min(n + range - 1, tip)) {
      EvmCatchup.StartsAreApart(range, from, n);
      if n != from {
        EvmCatchup.WindowStartMoves(range, from, n);
      }
    }
  }

  // The first window that is too large starts at slot r; everything before r was processed.
  ghost predicate CutAt(env: Env, range: int, from: int, tip: int, done: seq<int>, r: int)
    requires range >= 1
  {
    && from <= r <= tip && done == SlotBySlot(env, from, r - 1)
    && EvmCatchup.WindowStart(range, from, r) && TooLarge(env, r, Min(r + range - 1, tip))
    && NoneTooLarge(env, range, from, tip, r)
  }

  // Whatever windows fall back to the dense list, the slots processed (hence the
  // deliveries and checkpoints) are those of visiting every slot once; only a
  // range-too-large error cuts the run short, at the first window that is too large.
  lemma {:induction false} FallbackIsInvisible(env: Env, range: int, from: int, tip: int)
    requires range >= 1 && from <= tip + 1 && StopIsFinal(env) && HonestNode(env)
    ensures var w := Windows(env, range, from, tip);
            && (!w.ending.Raised? ==> w.done == SlotBySlot(env, from, tip))
            && (w.ending.Finished? ==> NoneTooLarge(env, range, from, tip, tip + 1))
            && (w.ending.Raised? ==> exists r :: CutAt(env, range, from, tip, w.done, r))
    decreases tip - from
  {
    hide Visit, SlotBySlot, Covers, StopIsFinal, TooLarge, NoneTooLarge, GetBlocksClassified;
    if from <= tip {
      hide Windows;
      FirstWindow(env, range, from, tip);
      var end := Min(from + range - 1, tip);
      var valid := GetBlocksClassified(env, from, end);
      ClassifiedCovers(env, from, end);
      if valid.Err? {
        NoSlots(env, from);
        NothingBefore(env, range, from, tip);
        assert CutAt(env, range, from, tip, Windows(env, range, from, tip).done, from);
      } else {
        VisitIsSlotBySlot(env, valid.value, from, end);
        if Visit(env, valid.value).ending.Stopped? {
          StoppedStays(env, from, end, tip);
          SlotBySlotJoins(env, from, end, tip);
        } else {
          FallbackIsInvisible(env, range, end + 1, tip);
          var rest := Windows(env, range, end + 1, tip);
          if rest.ending.Raised? {
            var r :| CutAt(env, range, end + 1, tip, rest.done, r);
            SlotBySlotJoins(env, from, end, r - 1);
            FirstNotTooLarge(env, range, from, tip, r);
            EvmCatchup.StartsAreApart(range, from, r);
            EvmCatchup.WindowStartMoves(range, from, r);
            assert CutAt(env, range, from, tip, Windows(env, range, from, tip).done, r);
          } else {
            SlotBySlotJoins(env, from, end, tip);
            if rest.ending.Finished? {
              FirstNotTooLarge(env, range, from, tip, tip + 1);
            }
          }
        }
      }
    } else {
      NoSlots(env, from);
      NothingBefore(env, range, from, tip);
    }
  }

  lemma NothingBefore(env: Env, range: int, from: int, tip: int)
    requires range >= 1
    ensures forall until :: until <= from ==> NoneTooLarge(env, range, from, tip, until)
  {
    forall n | EvmCatchup.WindowStart(range, from, n) ensures n >= from {
      EvmCatchup.StartsAreApart(range, from, n);
    }
  }

  lemma NoSlots(env: Env, from: int)
    ensures forall to :: to < from ==> SlotBySlot(env, from, to) == []
  {
  }
}
