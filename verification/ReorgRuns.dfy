/** Runs of heads through the confirmation buffer, against the block tree. */
module ReorgRuns {
  import opened Common
  import opened BlockTree
  import opened ConfirmationBuffer

  datatype Input = Input(head: Header, resolve: Resolver)

  // What resolve_parent must do when it does not raise.
  ghost predicate Honest(t: Tree, resolve: Resolver) {
    forall n, h :: resolve(n, h).Some? ==> resolve(n, h).value.hash == h && InTree(t, resolve(n, h).value)
  }

  ghost predicate HonestInput(t: Tree, x: Input) {
    InTree(t, x.head) && Honest(t, x.resolve)
  }

  // ----- The walk, in terms of the tree -----

  predicate Buffered(buf: seq<Header>, hash: string) {
    LastIndex(buf, hash).Some?
  }

  lemma {:induction false} AncestryExtends(t: Tree, h: Header, k: nat)
    requires Anc(t, h, k + 1).Some? && Anc(t, h, k).Some?
    ensures Ancestry(t, h, k + 1) == [Anc(t, h, k + 1).value] + Ancestry(t, h, k)
    decreases k
  {
    if k > 0 {
      AncestryExtends(t, t[h.parentHash], k - 1);
    }
  }

  lemma {:induction false} AncestryIsChain(t: Tree, h: Header, k: nat)
    requires ValidTree(t) && InTree(t, h) && Anc(t, h, k).Some?
    ensures var s := Ancestry(t, h, k);
            |s| == k + 1 && Chain(t, s) && s[0] == Anc(t, h, k).value && s[k] == h
    decreases k
  {
    if k > 0 {
      assert Linked(t, h.parentHash);
      AncestryIsChain(t, t[h.parentHash], k - 1);
    }
  }

  // The walk finds the nearest buffered ancestor of `head`, misses a parent
  // before it, or meets `steps` ancestors none of which is buffered.
  ghost predicate WalkMeaning(t: Tree, buf: seq<Header>, resolve: Resolver, head: Header, d: nat, steps: nat,
                              w: Walked) {
    match w
    case Found(i, branch) =>
      && d < |branch| <= d + steps && i < |buf|
      && Anc(t, head, |branch| - 1).Some?
      && branch == Ancestry(t, head, |branch| - 1)
      && LastIndex(buf, Anc(t, head, |branch| - 1).value.parentHash) == Some(i)
      && (forall j :: d < j < |branch| ==> Anc(t, head, j).Some? && !Buffered(buf, Anc(t, head, j).value.hash))
    case Exhausted =>
      forall j :: d < j <= d + steps ==> Anc(t, head, j).Some? && !Buffered(buf, Anc(t, head, j).value.hash)
    case Missing(n, h) =>
      exists e: nat :: d <= e < d + steps && Anc(t, head, e).Some?
        && n == Anc(t, head, e).value.number - 1 && h == Anc(t, head, e).value.parentHash
        && resolve(n, h).None? && !Buffered(buf, h)
        && (forall j :: d < j <= e ==> Anc(t, head, j).Some? && !Buffered(buf, Anc(t, head, j).value.hash))
  }

  lemma {:induction false} WalkExact(t: Tree, buf: seq<Header>, resolve: Resolver, head: Header, cursor: Header,
                                     branch: seq<Header>, d: nat, steps: nat)
    requires ValidTree(t) && InTree(t, head) && Honest(t, resolve)
    requires Anc(t, head, d) == Some(cursor) && branch == Ancestry(t, head, d)
    ensures WalkMeaning(t, buf, resolve, head, d, steps, Walk(buf, resolve, cursor, branch, steps))
    decreases steps
  {
    hide LastIndex, Linked;
    AncestryIsChain(t, head, d);
    if steps > 0 {
      var parent := resolve(cursor.number - 1, cursor.parentHash);
      if Buffered(buf, cursor.parentHash) {
      } else if parent.Some? {
        var p := parent.value;
        assert InTree(t, p);
        AncStep(t, head, d);
        AncestryExtends(t, head, d);
        WalkExact(t, buf, resolve, head, p, [p] + branch, d + 1, steps - 1);
      }
    }
  }

  // ----- The bookkeeping of a run -----

  // `buf` is the window; `confirmed` the headers confirmed since the last deep
  // reorg and `top` the greatest head height since then.
  datatype History = History(buf: seq<Header>, confirmed: seq<Header>, top: int)

  const EMPTY := History([], [], 0)

  ghost function Advance(confirmations: nat, g: History, x: Input): History {
    var (buf, out) := Handle(confirmations, g.buf, x.head, x.resolve);
    var top := if g.buf == [] then x.head.number else Max(g.top, x.head.number);
    match out
    case Clean(c) => History(buf, g.confirmed + c, top)
    case Reorg(_, _, _, c) => History(buf, g.confirmed + c, top)
    case Deep(_, h, c) => History(buf, c, h.number)
    case Raised(_, _) => g
  }

  ghost function Run(confirmations: nat, xs: seq<Input>): History {
    if xs == [] then EMPTY
    else Advance(confirmations, Run(confirmations, xs[..|xs| - 1]), xs[|xs| - 1])
  }

  ghost function OutcomeAt(confirmations: nat, xs: seq<Input>, i: nat): Outcome
    requires i < |xs|
  {
    Handle(confirmations, Run(confirmations, xs[..i]).buf, xs[i].head, xs[i].resolve).1
  }

  // The head that started the current segment: the first head, or the head of
  // the last deep reorg.
  ghost function Root(confirmations: nat, xs: seq<Input>): Header
    requires xs != []
  {
    var n := |xs| - 1;
    if n == 0 || OutcomeAt(confirmations, xs, n).Deep? then xs[n].head
    else Root(confirmations, xs[..n])
  }

  // The last head taken in (a raising call takes nothing in).
  ghost function Current(confirmations: nat, xs: seq<Input>): Header
    requires xs != []
  {
    var n := |xs| - 1;
    if n > 0 && OutcomeAt(confirmations, xs, n).Raised? then Current(confirmations, xs[..n]) else xs[n].head
  }

  // The greatest height taken in since the segment started.
  ghost function Highest(confirmations: nat, xs: seq<Input>): int
    requires xs != []
  {
    var n := |xs| - 1;
    if n == 0 || OutcomeAt(confirmations, xs, n).Deep? then xs[n].head.number
    else if OutcomeAt(confirmations, xs, n).Raised? then Highest(confirmations, xs[..n])
    else Max(Highest(confirmations, xs[..n]), xs[n].head.number)
  }

  // ----- The invariant -----

  ghost function Path(g: History): seq<Header> {
    g.confirmed + g.buf
  }

  ghost predicate Good(t: Tree, confirmations: nat, g: History) {
    && (g.buf == [] ==> g == EMPTY)
    && Chain(t, Path(g))
    && (g.buf != [] ==>
         && Path(g)[0].number + |g.confirmed| == Max(Path(g)[0].number, g.top - confirmations + 1)
         && g.buf[|g.buf| - 1].number <= g.top)
  }

  // A stretch of consecutive heights is drained to `confirmations` below its tip.
  lemma DrainOfHeights(confirmations: nat, full: seq<Header>)
    requires confirmations >= 1 && full != []
    requires forall i :: 0 <= i < |full| ==> full[i].number == full[0].number + i
    ensures DrainCount(confirmations, full, full[|full| - 1].number) < |full|
    ensures DrainCount(confirmations, full, full[|full| - 1].number) == Max(0, |full| - confirmations)
  {
    var tip := full[|full| - 1].number;
    var n := DrainCount(confirmations, full, tip);
    if n > 0 {
      assert tip - full[n - 1].number >= confirmations;
    }
  }

  // Draining keeps the frontier at top - confirmations.
  lemma ConfirmKeepsFrontier(t: Tree, confirmations: nat, done: seq<Header>, full: seq<Header>, top: int)
    requires ValidTree(t) && confirmations >= 1 && full != [] && Chain(t, done + full)
    requires var base := (done + full)[0].number;
             base + |done| == Max(base, top - confirmations + 1)
    ensures var (kept, c) := Confirm(confirmations, full);
            var tip, base := full[|full| - 1], (done + full)[0].number;
            && kept != [] && kept[|kept| - 1] == tip
            && (done + c) + kept == done + full
            && base + |done + c| == Max(base, Max(top, tip.number) - confirmations + 1)
  {
    var base := (done + full)[0].number;
    forall i | 0 <= i < |full| ensures full[i].number == base + |done| + i {
      ChainNumbers(t, done + full, |done| + i);
      assert full[i] == (done + full)[|done| + i];
    }
    DrainOfHeights(confirmations, full);
    var n := DrainCount(confirmations, full, full[|full| - 1].number);
    assert (done + full[..n]) + full[n..] == done + full;
  }

  // One head, whatever happens: the invariant is kept, and how the path moves.
  ghost predicate Advanced(confirmations: nat, g: History, x: Input, h: History, out: Outcome) {
    && (!out.Raised? ==> h.buf != [] && h.buf[|h.buf| - 1] == x.head)
    && (out.Raised? ==> h == g && g.buf != [])
    && (g.buf == [] || out.Deep? ==> Path(h) == [x.head] && h.top == x.head.number)
    && (g.buf != [] && !out.Deep? ==>
          && Path(h) != [] && Path(h)[0] == Path(g)[0] && g.confirmed <= h.confirmed
          && h.top == if out.Raised? then g.top else Max(g.top, x.head.number))
    && (out.Reorg? ==> |out.dropped| < |g.buf| && out.dropped == g.buf[|g.buf| - |out.dropped|..])
  }

  lemma ChainExtends(t: Tree, s: seq<Header>, h: Header)
    requires Chain(t, s) && InTree(t, h) && (s == [] || s[|s| - 1].hash == h.parentHash)
    ensures Chain(t, s + [h])
  {
  }

  lemma AdvanceClean(t: Tree, confirmations: nat, g: History, x: Input)
    requires ValidTree(t) && confirmations >= 1 && HonestInput(t, x) && Good(t, confirmations, g)
    requires LinksClean(g.buf, x.head)
    ensures var h := Advance(confirmations, g, x);
            Good(t, confirmations, h) && Path(h) == Path(g) + [x.head]
            && h.buf != [] && h.buf[|h.buf| - 1] == x.head
  {
    hide Chain, Walk, Confirm, DrainCount, ValidTree, Honest;
    var full := g.buf + [x.head];
    var top := if g.buf == [] then x.head.number else g.top;
    ChainExtends(t, Path(g), x.head);
    assert Path(g) + [x.head] == g.confirmed + full;
    assert g.buf != [] ==> (g.confirmed + full)[0] == Path(g)[0];
    ConfirmKeepsFrontier(t, confirmations, g.confirmed, full, top);
  }

  lemma SpliceIsChain(t: Tree, done: seq<Header>, buf: seq<Header>, i: nat, branch: seq<Header>)
    requires i < |buf| && branch != [] && Chain(t, done + buf) && Chain(t, branch)
    requires branch[0].parentHash == buf[i].hash
    ensures Chain(t, done + (buf[..i + 1] + branch))
  {
    var was, now := done + buf, done + (buf[..i + 1] + branch);
    var n := |done| + i + 1;
    assert now[..n] == was[..n] && now[n..] == branch;
    forall j | 0 <= j < |now| ensures InTree(t, now[j]) {
      if j < n { assert now[j] == was[j]; } else { assert now[j] == branch[j - n]; }
    }
    forall k, j | 0 <= k < j < |now| && j == k + 1 ensures now[j].parentHash == now[k].hash {
      if j < n {
        assert now[j] == was[j] && now[k] == was[k];
      } else if j > n {
        assert now[j] == branch[j - n] && now[k] == branch[k - n];
      } else {
        assert now[j] == branch[0] && now[k] == buf[i];
      }
    }
  }

  // What a (non-deep) reorg found: the nearest buffered ancestor, d below the head.
  lemma ReorgShape(t: Tree, confirmations: nat, buf: seq<Header>, x: Input) returns (i: nat, d: nat)
    requires ValidTree(t) && HonestInput(t, x)
    requires Handle(confirmations, buf, x.head, x.resolve).1.Reorg?
    ensures i < |buf| && 1 <= d <= |buf| + 1
    ensures Anc(t, x.head, d - 1).Some? && Anc(t, x.head, d - 1).value.parentHash == buf[i].hash
    ensures forall j :: 0 < j < d ==> Anc(t, x.head, j).Some? && !Buffered(buf, Anc(t, x.head, j).value.hash)
    ensures var branch := Ancestry(t, x.head, d - 1);
            var (kept, c) := Confirm(confirmations, buf[..i + 1] + branch);
            Handle(confirmations, buf, x.head, x.resolve) == (kept, Reorg(buf[i].number, branch, buf[i + 1..], c))
  {
    hide Confirm, Walk, LastIndex;
    WalkExact(t, buf, x.resolve, x.head, x.head, [x.head], 0, |buf| + 1);
    var w := Walk(buf, x.resolve, x.head, [x.head], |buf| + 1);
    i, d := w.at, |w.branch|;
  }

  lemma AdvanceReorg(t: Tree, confirmations: nat, g: History, x: Input)
    requires ValidTree(t) && confirmations >= 1 && HonestInput(t, x) && Good(t, confirmations, g)
    requires Handle(confirmations, g.buf, x.head, x.resolve).1.Reorg?
    ensures var h := Advance(confirmations, g, x);
            Good(t, confirmations, h)
            && Advanced(confirmations, g, x, h, Handle(confirmations, g.buf, x.head, x.resolve).1)
  {
    hide Confirm, Handle;
    var i, d := ReorgShape(t, confirmations, g.buf, x);
    var branch := Ancestry(t, x.head, d - 1);
    AncestryIsChain(t, x.head, d - 1);
    SpliceIsChain(t, g.confirmed, g.buf, i, branch);
    var full := g.buf[..i + 1] + branch;
    assert (g.confirmed + full)[0] == Path(g)[0];
    ConfirmKeepsFrontier(t, confirmations, g.confirmed, full, g.top);
  }

  lemma AdvanceStep(t: Tree, confirmations: nat, g: History, x: Input)
    requires ValidTree(t) && confirmations >= 1 && HonestInput(t, x) && Good(t, confirmations, g)
    ensures var h := Advance(confirmations, g, x);
            Good(t, confirmations, h)
            && Advanced(confirmations, g, x, h, Handle(confirmations, g.buf, x.head, x.resolve).1)
  {
    if LinksClean(g.buf, x.head) {
      AdvanceClean(t, confirmations, g, x);
    } else if Handle(confirmations, g.buf, x.head, x.resolve).1.Reorg? {
      AdvanceReorg(t, confirmations, g, x);
    }
  }

  lemma EmptyIsGood(t: Tree, confirmations: nat)
    ensures Good(t, confirmations, EMPTY)
  {
  }

  lemma {:induction false} RunIsGood(t: Tree, confirmations: nat, xs: seq<Input>)
    requires ValidTree(t) && confirmations >= 1
    requires forall i :: 0 <= i < |xs| ==> HonestInput(t, xs[i])
    ensures Good(t, confirmations, Run(confirmations, xs))
  {
    if xs == [] {
      EmptyIsGood(t, confirmations);
    } else {
      hide Advance, Handle, Good, ValidTree, Honest;
      var n := |xs| - 1;
      RunIsGood(t, confirmations, xs[..n]);
      assert HonestInput(t, xs[n]);
      AdvanceStep(t, confirmations, Run(confirmations, xs[..n]), xs[n]);
    }
  }

  lemma LastStep(t: Tree, confirmations: nat, xs: seq<Input>)
    requires ValidTree(t) && confirmations >= 1 && xs != []
    requires forall i :: 0 <= i < |xs| ==> HonestInput(t, xs[i])
    ensures var n := |xs| - 1;
            Advanced(confirmations, Run(confirmations, xs[..n]), xs[n], Run(confirmations, xs),
                     OutcomeAt(confirmations, xs, n))
  {
    var n := |xs| - 1;
    RunIsGood(t, confirmations, xs[..n]);
    assert HonestInput(t, xs[n]);
    AdvanceStep(t, confirmations, Run(confirmations, xs[..n]), xs[n]);
  }

  lemma {:induction false} RunEnds(t: Tree, confirmations: nat, xs: seq<Input>)
    requires ValidTree(t) && confirmations >= 1 && xs != []
    requires forall i :: 0 <= i < |xs| ==> HonestInput(t, xs[i])
    ensures var g := Run(confirmations, xs);
            && g.buf != []
            && Path(g)[0] == Root(confirmations, xs)
            && g.buf[|g.buf| - 1] == Current(confirmations, xs)
            && g.top == Highest(confirmations, xs)
  {
    hide Advance, Handle;
    var n := |xs| - 1;
    LastStep(t, confirmations, xs);
    if n > 0 {
      RunEnds(t, confirmations, xs[..n]);
    } else {
      assert xs[..n] == [];
      assert Path(Run(confirmations, xs)) == [xs[0].head];
    }
  }

  // ----- Main results -----

  // In every run, what was confirmed since the segment started, followed by the
  // window, is the ancestry of the current head down to the segment's root.
  lemma PathIsAncestry(t: Tree, confirmations: nat, xs: seq<Input>)
    requires ValidTree(t) && confirmations >= 1 && xs != []
    requires forall i :: 0 <= i < |xs| ==> HonestInput(t, xs[i])
    ensures var g := Run(confirmations, xs);
            var root, head := Root(confirmations, xs), Current(confirmations, xs);
            && root.number <= head.number
            && Anc(t, head, head.number - root.number) == Some(root)
            && g.confirmed + g.buf == Ancestry(t, head, head.number - root.number)
  {
    hide Advance, Handle, Run, Root, Current, Highest, ValidTree, Honest;
    RunIsGood(t, confirmations, xs);
    RunEnds(t, confirmations, xs);
    var path := Path(Run(confirmations, xs));
    ChainIsAncestry(t, path);
    ChainAncestor(t, path, 0);
    ChainNumbers(t, path, |path| - 1);
  }

  // Without a deep reorg the segment's root is the very first head.
  lemma {:induction false} RootOfShallowRun(confirmations: nat, xs: seq<Input>)
    requires xs != []
    requires forall i :: 0 < i < |xs| ==> !OutcomeAt(confirmations, xs, i).Deep?
    ensures Root(confirmations, xs) == xs[0].head
  {
    var n := |xs| - 1;
    if n > 0 {
      forall i | 0 < i < n ensures !OutcomeAt(confirmations, xs[..n], i).Deep? {
        assert xs[..n][..i] == xs[..i];
        assert !OutcomeAt(confirmations, xs, i).Deep?;
      }
      assert !OutcomeAt(confirmations, xs, n).Deep?;
      RootOfShallowRun(confirmations, xs[..n]);
    }
  }

  // Heights are confirmed contiguously from the root, each once, up to exactly
  // `confirmations` below the greatest head seen; the window is never longer
  // than `confirmations`.
  lemma FrontierIsExact(t: Tree, confirmations: nat, xs: seq<Input>)
    requires ValidTree(t) && confirmations >= 1 && xs != []
    requires forall i :: 0 <= i < |xs| ==> HonestInput(t, xs[i])
    ensures var g := Run(confirmations, xs);
            var root := Root(confirmations, xs).number;
            && (forall i :: 0 <= i < |g.confirmed| ==> g.confirmed[i].number == root + i)
            && |g.confirmed| == Max(0, Highest(confirmations, xs) - confirmations + 1 - root)
            && 1 <= |g.buf| <= confirmations
  {
    hide Advance, Handle;
    RunIsGood(t, confirmations, xs);
    RunEnds(t, confirmations, xs);
    var g := Run(confirmations, xs);
    var path := Path(g);
    forall i | 0 <= i < |g.confirmed| ensures g.confirmed[i].number == path[0].number + i {
      ChainNumbers(t, path, i);
      assert g.confirmed[i] == path[i];
    }
    ChainNumbers(t, path, |path| - 1);
  }

  // Until a deep reorg, confirmed headers only accumulate.
  lemma {:induction false} ConfirmedAccumulates(t: Tree, confirmations: nat, xs: seq<Input>, i: nat, j: nat)
    requires ValidTree(t) && confirmations >= 1 && i <= j <= |xs|
    requires forall k :: 0 <= k < |xs| ==> HonestInput(t, xs[k])
    requires forall k :: i <= k < j ==> !OutcomeAt(confirmations, xs, k).Deep?
    ensures Run(confirmations, xs[..i]).confirmed <= Run(confirmations, xs[..j]).confirmed
  {
    if i < j {
      assert !OutcomeAt(confirmations, xs, j - 1).Deep?;
      ConfirmedAccumulates(t, confirmations, xs, i, j - 1);
      assert xs[..j][..j - 1] == xs[..j - 1];
      RunIsGood(t, confirmations, xs[..j - 1]);
      assert HonestInput(t, xs[j - 1]);
      AdvanceStep(t, confirmations, Run(confirmations, xs[..j - 1]), xs[j - 1]);
    }
  }

  // A header confirmed before head i is not dropped by head j >= i.
  lemma ConfirmedNeverDropped(t: Tree, confirmations: nat, xs: seq<Input>, i: nat, j: nat, h: Header)
    requires ValidTree(t) && confirmations >= 1 && i <= j < |xs|
    requires forall k :: 0 <= k < |xs| ==> HonestInput(t, xs[k])
    requires forall k :: i <= k < j ==> !OutcomeAt(confirmations, xs, k).Deep?
    requires h in Run(confirmations, xs[..i]).confirmed
    ensures h in Run(confirmations, xs[..j]).confirmed
    ensures OutcomeAt(confirmations, xs, j).Reorg? ==> h !in OutcomeAt(confirmations, xs, j).dropped
  {
    ConfirmedAccumulates(t, confirmations, xs, i, j);
    var before := Run(confirmations, xs[..i]).confirmed;
    var at :| 0 <= at < |before| && before[at] == h;
    var g := Run(confirmations, xs[..j]);
    assert g.confirmed[at] == h;
    RunIsGood(t, confirmations, xs[..j]);
    if OutcomeAt(confirmations, xs, j).Reorg? {
      assert HonestInput(t, xs[j]);
      AdvanceStep(t, confirmations, g, xs[j]);
      ConfirmedBelowWindow(t, g, at);
    }
  }

  lemma ConfirmedBelowWindow(t: Tree, g: History, at: nat)
    requires ValidTree(t) && Chain(t, Path(g)) && at < |g.confirmed|
    ensures g.confirmed[at] !in g.buf
  {
    ChainHeights(t, Path(g));
    assert g.confirmed[at] == Path(g)[at];
    forall k | 0 <= k < |g.buf| ensures g.buf[k] != g.confirmed[at] {
      assert g.buf[k] == Path(g)[|g.confirmed| + k];
    }
  }

  // With 0 confirmations the window is always empty: every head is confirmed at
  // once and none is checked against its parent.
  lemma {:induction false} ZeroConfirmations(xs: seq<Input>)
    ensures Run(0, xs).buf == []
    ensures xs != [] ==> OutcomeAt(0, xs, |xs| - 1) == Clean([xs[|xs| - 1].head])
  {
    if xs != [] {
      ZeroConfirmations(xs[..|xs| - 1]);
      var head := xs[|xs| - 1].head;
      assert [] + [head] == [head];
      assert DrainCount(0, [head], head.number) == 1;
    }
  }

  // ----- Conservation -----

  // Over a whole run: headers put in the window, confirmed, reported as dropped,
  // and thrown away by deep reorgs (which report no dropped header).
  datatype Ledger = Ledger(appended: multiset<Header>, settled: multiset<Header>,
                           dropped: multiset<Header>, abandoned: multiset<Header>)

  ghost function Booked(l: Ledger, buf: seq<Header>, out: Outcome, head: Header): Ledger {
    match out
    case Clean(c) =>
      l.(appended := l.appended + multiset{head}, settled := l.settled + multiset(c))
    case Reorg(_, branch, dropped, c) =>
      l.(appended := l.appended + multiset(branch), settled := l.settled + multiset(c),
         dropped := l.dropped + multiset(dropped))
    case Deep(_, h, c) =>
      l.(appended := l.appended + multiset{h}, settled := l.settled + multiset(c),
         abandoned := l.abandoned + multiset(buf))
    case Raised(_, _) => l
  }

  ghost function LedgerOf(confirmations: nat, xs: seq<Input>): Ledger {
    if xs == [] then Ledger(multiset{}, multiset{}, multiset{}, multiset{})
    else
      var n := |xs| - 1;
      Booked(LedgerOf(confirmations, xs[..n]), Run(confirmations, xs[..n]).buf,
             OutcomeAt(confirmations, xs, n), xs[n].head)
  }

  ghost predicate Balanced(l: Ledger, buf: seq<Header>, h: Header) {
    l.appended[h] == l.settled[h] + multiset(buf)[h] + l.dropped[h] + l.abandoned[h]
  }

  lemma ConfirmConserves(confirmations: nat, full: seq<Header>, h: Header)
    requires full != []
    ensures var (kept, c) := Confirm(confirmations, full);
            multiset(c)[h] + multiset(kept)[h] == multiset(full)[h]
  {
    var n := DrainCount(confirmations, full, full[|full| - 1].number);
    assert full == full[..n] + full[n..];
  }

  lemma SpliceConserves(confirmations: nat, buf: seq<Header>, i: nat, branch: seq<Header>, h: Header)
    requires i < |buf| && branch != []
    ensures var (kept, c) := Confirm(confirmations, buf[..i + 1] + branch);
            multiset(buf)[h] + multiset(branch)[h] == multiset(c)[h] + multiset(kept)[h] + multiset(buf[i + 1..])[h]
  {
    hide Confirm;
    ConfirmConserves(confirmations, buf[..i + 1] + branch, h);
    assert buf == buf[..i + 1] + buf[i + 1..];
  }

  lemma HandleConserves(confirmations: nat, buf: seq<Header>, l: Ledger, head: Header, resolve: Resolver, h: Header)
    requires Balanced(l, buf, h)
    ensures var (buf', out) := Handle(confirmations, buf, head, resolve);
            Balanced(Booked(l, buf, out, head), buf', h)
  {
    hide Confirm, Walk;
    if LinksClean(buf, head) {
      ConfirmConserves(confirmations, buf + [head], h);
    } else {
      match Walk(buf, resolve, head, [head], |buf| + 1)
      case Found(i, branch) =>
        WalkKeepsHead(buf, resolve, head, [head], |buf| + 1);
        SpliceConserves(confirmations, buf, i, branch, h);
      case Exhausted => ConfirmConserves(confirmations, [head], h);
      case Missing(_, _) =>
    }
  }

  lemma {:induction false} WalkKeepsHead(buf: seq<Header>, resolve: Resolver, cursor: Header, branch: seq<Header>,
                                         steps: nat)
    requires branch != []
    ensures var w := Walk(buf, resolve, cursor, branch, steps);
            w.Found? ==> w.branch != [] && w.branch[|w.branch| - 1] == branch[|branch| - 1]
    decreases steps
  {
    if steps > 0 && LastIndex(buf, cursor.parentHash).None? {
      var parent := resolve(cursor.number - 1, cursor.parentHash);
      if parent.Some? {
        WalkKeepsHead(buf, resolve, parent.value, [parent.value] + branch, steps - 1);
      }
    }
  }

  // Every header is put in the window as often as it is confirmed, still in it,
  // dropped or abandoned by a deep reorg; for every number of confirmations and
  // whatever the parent lookups return.
  lemma {:induction false} HeadersConserved(confirmations: nat, xs: seq<Input>, h: Header)
    ensures Balanced(LedgerOf(confirmations, xs), Run(confirmations, xs).buf, h)
  {
    if xs != [] {
      var n := |xs| - 1;
      HeadersConserved(confirmations, xs[..n], h);
      HandleConserves(confirmations, Run(confirmations, xs[..n]).buf, LedgerOf(confirmations, xs[..n]),
                      xs[n].head, xs[n].resolve, h);
    }
  }

  // ----- The verdict on one head -----

  lemma BufferedAncestor(t: Tree, buf: seq<Header>, head: Header, j: nat)
    requires ValidTree(t) && InTree(t, head) && j >= 1 && Anc(t, head, j).Some?
    requires forall i :: 0 <= i < |buf| ==> InTree(t, buf[i])
    ensures Buffered(buf, Anc(t, head, j).value.hash) <==> Anc(t, head, j).value in buf
  {
    AncNumber(t, head, j);
    var a := Anc(t, head, j).value;
    if a in buf {
      var i :| 0 <= i < |buf| && buf[i] == a;
      assert buf[i].hash == a.hash;
    }
  }

  // The window rewound to its i-th header, the highest ancestor of the head in it.
  ghost predicate RewoundTo(t: Tree, buf: seq<Header>, head: Header, out: Outcome, i: nat) {
    && out.Reorg? && i < |buf|
    && IsAncestor(t, buf[i], head)
    && (forall j :: i < j < |buf| ==> !IsAncestor(t, buf[j], head))
    && out.rewoundTo == buf[i].number
    && out.dropped == buf[i + 1..]
    && Anc(t, head, head.number - buf[i].number - 1).Some?
    && out.newBranch == Ancestry(t, head, head.number - buf[i].number - 1)
  }

  lemma DeepMeetsNone(t: Tree, confirmations: nat, buf: seq<Header>, x: Input)
    requires ValidTree(t) && HonestInput(t, x) && (forall k :: 0 <= k < |buf| ==> InTree(t, buf[k]))
    requires Handle(confirmations, buf, x.head, x.resolve).1.Deep?
    ensures forall b :: b in buf && IsAncestor(t, b, x.head) ==> x.head.number - b.number > |buf| + 1
  {
    hide Walk, LastIndex, Confirm;
    WalkExact(t, buf, x.resolve, x.head, x.head, [x.head], 0, |buf| + 1);
    forall b | b in buf && IsAncestor(t, b, x.head) ensures x.head.number - b.number > |buf| + 1 {
      BufferedAncestor(t, buf, x.head, x.head.number - b.number);
    }
  }

  // When no parent lookup raises: the verdict is `deep` exactly when every
  // buffered ancestor of the head lies more than |buf| + 1 below it; otherwise
  // the window is rewound to the highest buffered ancestor, the headers above it
  // are the dropped ones, and the new branch is the ancestry in between. A deep
  // reorg reports the lowest height the window held, and confirms nothing.
  lemma VerdictIsExact(t: Tree, confirmations: nat, g: History, x: Input)
    requires ValidTree(t) && confirmations >= 1 && HonestInput(t, x) && Good(t, confirmations, g) && g.buf != []
    ensures var out := Handle(confirmations, g.buf, x.head, x.resolve).1;
            && (!out.Raised? ==>
                 (out.Deep? <==>
                    forall b :: b in g.buf && IsAncestor(t, b, x.head) ==> x.head.number - b.number > |g.buf| + 1))
            && (out.Reorg? ==> exists i: nat :: RewoundTo(t, g.buf, x.head, out, i))
            && (out.Deep? ==> out.newHead == x.head && out.confirmed == []
                              && (forall b :: b in g.buf ==> out.divergentOldest <= b.number)
                              && (exists b :: b in g.buf && b.number == out.divergentOldest))
  {
    var out := Handle(confirmations, g.buf, x.head, x.resolve).1;
    WindowHeights(t, g);
    match out
    case Clean(_) =>
      TipIsParent(t, g.buf, x.head);
    case Raised(_, _) =>
    case Deep(_, _, _) =>
      DeepMeetsNone(t, confirmations, g.buf, x);
      assert g.buf[0] in g.buf;
    case Reorg(_, _, _, _) =>
      ReorgVerdict(t, confirmations, g.buf, x);
  }

  // A head is taken in cleanly exactly when the window is empty or its tip is the
  // head's parent; what raises is the lookup of a parent on the way down to the window.
  lemma OutcomeMeaning(t: Tree, confirmations: nat, buf: seq<Header>, x: Input)
    requires ValidTree(t) && HonestInput(t, x)
    ensures var out := Handle(confirmations, buf, x.head, x.resolve).1;
            && (out.Clean? <==> buf == [] || buf[|buf| - 1].hash == x.head.parentHash)
            && (out.Raised? ==>
                  && x.resolve(out.number, out.hash).None?
                  && exists e: nat :: e <= |buf| && Anc(t, x.head, e).Some?
                       && out.number == Anc(t, x.head, e).value.number - 1
                       && out.hash == Anc(t, x.head, e).value.parentHash)
  {
    hide Walk, LastIndex, Confirm;
    WalkExact(t, buf, x.resolve, x.head, x.head, [x.head], 0, |buf| + 1);
  }

  lemma WindowHeights(t: Tree, g: History)
    requires ValidTree(t) && Chain(t, Path(g))
    ensures forall i :: 0 <= i < |g.buf| ==>
              InTree(t, g.buf[i]) && g.buf[i].number == g.buf[|g.buf| - 1].number - (|g.buf| - 1 - i)
  {
    ChainHeights(t, Path(g));
    forall i | 0 <= i < |g.buf|
      ensures InTree(t, g.buf[i]) && g.buf[i].number == g.buf[|g.buf| - 1].number - (|g.buf| - 1 - i)
    {
      assert g.buf[i] == Path(g)[|g.confirmed| + i] && g.buf[|g.buf| - 1] == Path(g)[|Path(g)| - 1];
    }
  }

  lemma TipIsParent(t: Tree, buf: seq<Header>, head: Header)
    requires ValidTree(t) && InTree(t, head) && buf != [] && LinksClean(buf, head) && InTree(t, buf[|buf| - 1])
    ensures IsAncestor(t, buf[|buf| - 1], head) && head.number - buf[|buf| - 1].number == 1
  {
    assert Linked(t, head.hash);
    assert Anc(t, t[head.parentHash], 0) == Some(buf[|buf| - 1]);
    assert Anc(t, head, 1) == Some(buf[|buf| - 1]);
  }

  lemma ReorgVerdict(t: Tree, confirmations: nat, buf: seq<Header>, x: Input)
    requires ValidTree(t) && HonestInput(t, x)
    requires forall i :: 0 <= i < |buf| ==>
               InTree(t, buf[i]) && buf[i].number == buf[|buf| - 1].number - (|buf| - 1 - i)
    requires Handle(confirmations, buf, x.head, x.resolve).1.Reorg?
    ensures exists i: nat :: RewoundTo(t, buf, x.head, Handle(confirmations, buf, x.head, x.resolve).1, i)
                             && x.head.number - buf[i].number <= |buf| + 1
  {
    hide Handle;
    var i, d := ReorgShape(t, confirmations, buf, x);
    AncStep(t, x.head, d - 1);
    assert InTree(t, buf[i]);
    AncNumber(t, x.head, d);
    forall j | i < j < |buf| ensures !IsAncestor(t, buf[j], x.head) {
      HigherIsNoAncestor(t, buf, x.head, d, i, j);
    }
    assert RewoundTo(t, buf, x.head, Handle(confirmations, buf, x.head, x.resolve).1, i);
  }

  lemma HigherIsNoAncestor(t: Tree, buf: seq<Header>, head: Header, d: nat, i: nat, j: nat)
    requires ValidTree(t) && InTree(t, head) && i < j < |buf|
    requires forall k :: 0 <= k < |buf| ==> InTree(t, buf[k])
    requires buf[j].number > head.number - d
    requires forall k :: 0 < k < d ==> Anc(t, head, k).Some? && !Buffered(buf, Anc(t, head, k).value.hash)
    ensures !IsAncestor(t, buf[j], head)
  {
    var k := head.number - buf[j].number;
    assert 0 < k ==> Anc(t, head, k).Some? && LastIndex(buf, Anc(t, head, k).value.hash).None?;
  }

  // Up to two above the tip the verdict is the plain one: deep exactly when no
  // buffered header is an ancestor of the head.
  lemma NearHeadVerdict(t: Tree, confirmations: nat, g: History, x: Input)
    requires ValidTree(t) && confirmations >= 1 && HonestInput(t, x) && Good(t, confirmations, g) && g.buf != []
    requires x.head.number <= g.buf[|g.buf| - 1].number + 2
    requires !Handle(confirmations, g.buf, x.head, x.resolve).1.Raised?
    ensures Handle(confirmations, g.buf, x.head, x.resolve).1.Deep?
            <==> forall b :: b in g.buf ==> !IsAncestor(t, b, x.head)
  {
    VerdictIsExact(t, confirmations, g, x);
    WindowHeights(t, g);
  }

  // A pure gap (no fork at all) of more than |buf| + 1 blocks is reported as deep.
  lemma GapVerdict(t: Tree, confirmations: nat, g: History, x: Input)
    requires ValidTree(t) && confirmations >= 1 && HonestInput(t, x) && Good(t, confirmations, g) && g.buf != []
    requires IsAncestor(t, g.buf[|g.buf| - 1], x.head)
    requires !Handle(confirmations, g.buf, x.head, x.resolve).1.Raised?
    ensures Handle(confirmations, g.buf, x.head, x.resolve).1.Deep?
            <==> x.head.number - g.buf[|g.buf| - 1].number > |g.buf| + 1
  {
    VerdictIsExact(t, confirmations, g, x);
    WindowHeights(t, g);
  }
}
