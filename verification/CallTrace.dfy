/** Raw call traces: parsed into trees, then walked for call events. */
module CallTrace {
  import opened Common
  import opened Filters
  import opened Snapshots
  import BlockTree

  const MAX_DEPTH := 64

  // One frame of callTracer output (amounts already read from hex).
  datatype RawCall = RawCall(kind: string, from: string, to: Option<string>, value: string, input: string,
                             error: Option<string>, calls: seq<RawCall>)

  datatype InternalCall = InternalCall(kind: string, fromAddr: string, toAddr: Option<string>, value: string,
                                       input: string,
                                       error: Option<string>, calls: seq<InternalCall>, created: Option<string>)

  // What a selector and an input give: the function's name and arguments; nothing
  // when the selector is unknown or decoding fails; or an exception of the lookup
  // (a malformed function entry).
  datatype Decoding = Named(name: string, args: Args) | Unknown | Raises

  // The internal-call parser at work on one block.
  datatype Parser = Parser(chainId: string, header: BlockTree.Header, decode: (string, string) -> Decoding)

  // The events a generator yielded, and whether it ended with an exception.
  datatype Yielded = Yielded(events: seq<Event>, raised: bool)

  const NOTHING := Yielded([], false)

  function Then(a: Yielded, b: Yielded): Yielded {
    if a.raised then a else Yielded(a.events + b.events, b.raised)
  }

  predicate IsCreate(kind: string) {
    kind == "CREATE" || kind == "CREATE2"
  }

  function LowerOrNone(a: Option<string>): Option<string> {
    if a.Some? && a.value != "" then Some(Lower(a.value)) else None
  }

  // A parsed frame with the given children.
  function Node(raw: RawCall, children: seq<InternalCall>): InternalCall {
    var kind := Upper(raw.kind);
    InternalCall(kind, Lower(raw.from), if IsCreate(kind) then None else LowerOrNone(raw.to), raw.value, raw.input,
                 raw.error, children, if IsCreate(kind) then LowerOrNone(raw.to) else None)
  }

  // EvmAdapter._parse_call
  function Parse(raw: RawCall, depth: nat): Option<InternalCall>
    decreases raw
  {
    if depth > MAX_DEPTH then None else Some(Node(raw, ParseAll(raw.calls, depth + 1)))
  }

  function ParseAll(calls: seq<RawCall>, depth: nat): seq<InternalCall>
    decreases calls
  {
    if calls == [] then []
    else (match Parse(calls[0], depth) case Some(c) => [c] case None => []) + ParseAll(calls[1..], depth)
  }

  // InternalCallParser._try_decode; it looks at the frame only, not at its children.
  function OfFrame(p: Parser, c: InternalCall): Yielded {
    if IsCreate(c.kind) then
      Yielded([CallEvent(p, c.created, "<create>", map["value" := Str(c.value)], c.kind)], false)
    else if |c.input| < 10 then NOTHING
    else match p.decode(Lower(c.input[..10]), c.input)
      case Unknown => NOTHING
      case Raises => Yielded([], true)
      case Named(name, args) =>
        var contract := if c.toAddr.Some? then Lower(c.toAddr.value) else "";
        Yielded([CallEvent(p, Some(contract), name, args, c.kind)], false)
  }

  function CallEvent(p: Parser, contract: Option<string>, name: string, args: Args, kind: string): Event {
    Event(p.chainId, p.header.number, p.header.hash, p.header.timestamp, "", None, None, "call", contract,
          Some(name), args, [kind])
  }

  // What one raw frame yields: for a creation, in any case, the created address; for a
  // call with a selector, the first ten characters, that the registry knows and decodes,
  // the callee with the function's name and arguments; nothing for any other frame; and
  // an exception when the registry raises.
  lemma FrameMeaning(p: Parser, raw: RawCall, e: Event)
    ensures var y, kind := OfFrame(p, Node(raw, [])), Upper(raw.kind);
            var creates := kind == "CREATE" || kind == "CREATE2";
            && |y.events| <= 1
            && (y.raised <==> !creates && |raw.input| >= 10 && p.decode(Lower(raw.input[..10]), raw.input).Raises?)
            && (y.events == [e] <==>
                 && e.chainId == p.chainId && e.blockNumber == p.header.number && e.blockHash == p.header.hash
                 && e.blockTimestamp == p.header.timestamp
                 && e.txHash == "" && e.txIndex == None && e.logIndex == None && e.kind == "call" && e.raw == [kind]
                 && if creates then
                      && e.name == Some("<create>") && e.args == map["value" := Str(raw.value)]
                      && e.contract == (if raw.to.Some? && raw.to.value != "" then Some(Lower(raw.to.value)) else None)
                    else
                      && |raw.input| >= 10 && p.decode(Lower(raw.input[..10]), raw.input).Named?
                      && e.name == Some(p.decode(Lower(raw.input[..10]), raw.input).name)
                      && e.args == p.decode(Lower(raw.input[..10]), raw.input).args
                      && e.contract == Some(if raw.to.Some? then Lower(raw.to.value) else ""))
  {
    if raw.to.Some? {
      LowerIdempotent(raw.to.value);
    }
  }

  // InternalCallParser._walk
  function Walk(p: Parser, c: InternalCall, depth: nat): Yielded
    decreases c
  {
    if depth > MAX_DEPTH || c.error.Some? then NOTHING
    else Then(OfFrame(p, c), WalkAll(p, c.calls, depth + 1))
  }

  function WalkAll(p: Parser, cs: seq<InternalCall>, depth: nat): Yielded
    decreases cs
  {
    if cs == [] then NOTHING else Then(Walk(p, cs[0], depth), WalkAll(p, cs[1..], depth))
  }

  // ----- The reference: list every frame of the raw trace, then select -----

  // A frame, how deep it lies, and whether it or a frame around it has an error.
  datatype Visit = Visit(frame: RawCall, depth: nat, failed: bool)

  function Preorder(raw: RawCall, depth: nat, failed: bool): seq<Visit>
    decreases raw
  {
    var f := failed || raw.error.Some?;
    [Visit(raw, depth, f)] + PreorderAll(raw.calls, depth + 1, f)
  }

  function PreorderAll(calls: seq<RawCall>, depth: nat, failed: bool): seq<Visit>
    decreases calls
  {
    if calls == [] then [] else Preorder(calls[0], depth, failed) + PreorderAll(calls[1..], depth, failed)
  }

  // At most MAX_DEPTH deep and outside every error.
  predicate Visited(v: Visit) {
    v.depth <= MAX_DEPTH && !v.failed
  }

  // The events of the visited frames, up to the first one whose lookup raises.
  function Selected(p: Parser, vs: seq<Visit>): Yielded {
    if vs == [] then NOTHING
    else Then(if Visited(vs[0]) then OfFrame(p, Node(vs[0].frame, [])) else NOTHING, Selected(p, vs[1..]))
  }

  lemma {:induction false} SelectedConcat(p: Parser, a: seq<Visit>, b: seq<Visit>)
    ensures Selected(p, a + b) == Then(Selected(p, a), Selected(p, b))
  {
    hide OfFrame;
    if a == [] {
      assert a + b == b;
      assert [] + Selected(p, b).events == Selected(p, b).events;
    } else {
      hide Then;
      assert (a + b)[1..] == a[1..] + b;
      SelectedConcat(p, a[1..], b);
      var first := if Visited(a[0]) then OfFrame(p, Node(a[0].frame, [])) else NOTHING;
      ThenAssociates(first, Selected(p, a[1..]), Selected(p, b));
    }
  }

  lemma ThenAssociates(a: Yielded, b: Yielded, c: Yielded)
    ensures Then(Then(a, b), c) == Then(a, Then(b, c))
  {
    ConcatAssociates(a.events, b.events, c.events);
  }

  // The walk raises exactly when the lookup of some visited frame does.
  lemma {:induction false} SelectedRaises(p: Parser, vs: seq<Visit>)
    ensures Selected(p, vs).raised <==> exists v :: v in vs && Visited(v) && OfFrame(p, Node(v.frame, [])).raised
  {
    hide OfFrame;
    if vs != [] {
      SelectedRaises(p, vs[1..]);
      assert vs == [vs[0]] + vs[1..];
    }
  }

  // Below an error, and below the depth limit, nothing is selected.
  lemma {:induction false} NothingSelected(p: Parser, raw: RawCall, depth: nat, failed: bool)
    requires failed || depth > MAX_DEPTH
    ensures Selected(p, Preorder(raw, depth, failed)) == NOTHING
    decreases raw, 1
  {
    hide OfFrame;
    var f := failed || raw.error.Some?;
    NothingSelectedAll(p, raw.calls, depth + 1, f);
    assert Preorder(raw, depth, failed)[1..] == PreorderAll(raw.calls, depth + 1, f);
  }

  lemma {:induction false} NothingSelectedAll(p: Parser, calls: seq<RawCall>, depth: nat, failed: bool)
    requires failed || depth > MAX_DEPTH
    ensures Selected(p, PreorderAll(calls, depth, failed)) == NOTHING
    decreases calls, 0
  {
    hide OfFrame;
    if calls != [] {
      NothingSelected(p, calls[0], depth, failed);
      NothingSelectedAll(p, calls[1..], depth, failed);
      SelectedConcat(p, Preorder(calls[0], depth, failed), PreorderAll(calls[1..], depth, failed));
    }
  }

  // Children do not matter to a frame's own event.
  lemma FrameIgnoresChildren(p: Parser, raw: RawCall, cs: seq<InternalCall>)
    ensures OfFrame(p, Node(raw, cs)) == OfFrame(p, Node(raw, []))
  {
  }

  lemma {:induction false} WalkIsSelected(p: Parser, raw: RawCall, depth: nat)
    requires depth <= MAX_DEPTH
    ensures Walk(p, Parse(raw, depth).value, depth) == Selected(p, Preorder(raw, depth, false))
    decreases raw, 1
  {
    hide OfFrame;
    var c := Parse(raw, depth).value;
    var f := raw.error.Some?;
    assert Preorder(raw, depth, false)[1..] == PreorderAll(raw.calls, depth + 1, f);
    if f {
      NothingSelectedAll(p, raw.calls, depth + 1, true);
    } else {
      WalkAllIsSelected(p, raw.calls, depth + 1);
      FrameIgnoresChildren(p, raw, c.calls);
    }
  }

  lemma {:induction false} WalkAllIsSelected(p: Parser, calls: seq<RawCall>, depth: nat)
    ensures WalkAll(p, ParseAll(calls, depth), depth) == Selected(p, PreorderAll(calls, depth, false))
    decreases calls, 0
  {
    hide OfFrame;
    if calls != [] {
      var c, rest := Parse(calls[0], depth), ParseAll(calls[1..], depth);
      WalkAllIsSelected(p, calls[1..], depth);
      SelectedConcat(p, Preorder(calls[0], depth, false), PreorderAll(calls[1..], depth, false));
      if depth <= MAX_DEPTH {
        WalkIsSelected(p, calls[0], depth);
        assert ([c.value] + rest)[1..] == rest;
      } else {
        NothingSelected(p, calls[0], depth, false);
        assert [] + rest == rest;
      }
    }
  }

  // For the raw traces of a block: none is lost at the root, and walking the
  // parsed trees yields exactly the events of the decodable frames, in preorder, at
  // depth at most MAX_DEPTH and with no error on themselves or around them, up to
  // the first such frame whose selector lookup raises.
  lemma WalkMeaning(p: Parser, traces: seq<RawCall>)
    ensures |ParseAll(traces, 0)| == |traces|
    ensures var walked, vs := WalkAll(p, ParseAll(traces, 0), 0), PreorderAll(traces, 0, false);
            && walked == Selected(p, vs)
            && (walked.raised <==> exists v :: v in vs && Visited(v) && OfFrame(p, Node(v.frame, [])).raised)
  {
    ParsesAll(traces);
    WalkAllIsSelected(p, traces, 0);
    SelectedRaises(p, PreorderAll(traces, 0, false));
  }

  lemma {:induction false} ParsesAll(traces: seq<RawCall>)
    ensures |ParseAll(traces, 0)| == |traces|
    decreases |traces|
  {
    if traces != [] {
      ParsesAll(traces[1..]);
    }
  }

  // ----- The walker's own depth guard -----

  function WalkUnguarded(p: Parser, c: InternalCall): Yielded
    decreases c
  {
    if c.error.Some? then NOTHING else Then(OfFrame(p, c), WalkAllUnguarded(p, c.calls))
  }

  function WalkAllUnguarded(p: Parser, cs: seq<InternalCall>): Yielded
    decreases cs
  {
    if cs == [] then NOTHING else Then(WalkUnguarded(p, cs[0]), WalkAllUnguarded(p, cs[1..]))
  }

  function Height(c: InternalCall): nat
    decreases c
  {
    1 + Heights(c.calls)
  }

  function Heights(cs: seq<InternalCall>): nat
    decreases cs
  {
    if cs == [] then 0 else Max(Height(cs[0]), Heights(cs[1..]))
  }

  lemma {:induction false} ParseIsShallow(raw: RawCall, depth: nat)
    ensures Parse(raw, depth).Some? ==> depth + Height(Parse(raw, depth).value) <= MAX_DEPTH + 1
    decreases raw, 1
  {
    if depth <= MAX_DEPTH {
      ParseAllIsShallow(raw.calls, depth + 1);
    }
  }

  lemma {:induction false} ParseAllIsShallow(calls: seq<RawCall>, depth: nat)
    ensures ParseAll(calls, depth) != [] ==> depth + Heights(ParseAll(calls, depth)) <= MAX_DEPTH + 1
    ensures ParseAll(calls, depth) == [] ==> Heights(ParseAll(calls, depth)) == 0
    decreases calls, 0
  {
    if calls != [] {
      ParseIsShallow(calls[0], depth);
      ParseAllIsShallow(calls[1..], depth);
      var rest := ParseAll(calls[1..], depth);
      if depth <= MAX_DEPTH {
        assert ParseAll(calls, depth)[1..] == rest;
      } else {
        assert ParseAll(calls, depth) == rest;
      }
    }
  }

  lemma {:induction false} ShallowWalk(p: Parser, c: InternalCall, depth: nat)
    requires depth + Height(c) <= MAX_DEPTH + 1
    ensures Walk(p, c, depth) == WalkUnguarded(p, c)
    decreases c, 1
  {
    hide OfFrame;
    ShallowWalkAll(p, c.calls, depth + 1);
  }

  lemma {:induction false} ShallowWalkAll(p: Parser, cs: seq<InternalCall>, depth: nat)
    requires cs != [] ==> depth + Heights(cs) <= MAX_DEPTH + 1
    ensures WalkAll(p, cs, depth) == WalkAllUnguarded(p, cs)
    decreases cs, 0
  {
    hide OfFrame;
    if cs != [] {
      ShallowWalk(p, cs[0], depth);
      ShallowWalkAll(p, cs[1..], depth);
    }
  }

  // The guard never fires on parser output.
  lemma WalkGuardIsIdle(p: Parser, traces: seq<RawCall>)
    ensures WalkAll(p, ParseAll(traces, 0), 0) == WalkAllUnguarded(p, ParseAll(traces, 0))
  {
    ParseAllIsShallow(traces, 0);
    ShallowWalkAll(p, ParseAll(traces, 0), 0);
  }
}
