/** Filtering logs at the node, and why it changes no delivery. */
module PushDown {
  import opened Common
  import opened Filters
  import opened Snapshots
  import opened AbiRegistry
  import opened LogFetch
  import opened LogParsers
  import BlockTree
  import Matcher

  // ----- The filter -----

  // topic0 -> (abi_id, event name), in insertion order.
  function Index(reg: Registry): Dict<string, Owner> {
    if reg.NoRegistry? then [] else FirstWins(SigItems(reg.o, Topic, reg.abis))
  }

  // `None` leaves the dimension unfiltered. The node reads lists as sets.
  datatype LogFilter = LogFilter(addresses: Option<set<string>>, topic0s: Option<set<string>>, skipLogs: bool)

  function Relevant(snap: ConfigSnapshot, chainId: string): (r: seq<Subscription>)
    ensures forall s :: s in r <==> s in snap.subscriptions && s.chainId == chainId && s.enabled
                                    && (s.matchKind == EVENT || s.matchKind == TOKEN_TRANSFER)
  {
    LogConsumers(SubscriptionsForChain(snap.subscriptions, chainId))
  }

  function LogConsumers(subs: seq<Subscription>): (r: seq<Subscription>)
    ensures forall s :: s in r <==> s in subs && (s.matchKind == EVENT || s.matchKind == TOKEN_TRANSFER)
  {
    if subs == [] then []
    else
      (if subs[0].matchKind == EVENT || subs[0].matchKind == TOKEN_TRANSFER then [subs[0]] else [])
      + LogConsumers(subs[1..])
  }

  // The topic one subscription pins; None makes the whole topic filter bail out.
  function PinnedTopic(s: Subscription, index: Dict<string, Owner>): Option<string> {
    if s.matchKind == TOKEN_TRANSFER then Some(ERC20_TRANSFER_TOPIC0)
    else if s.abiId.None? || s.matchName.None? then None
    else KeyFor(index, (s.abiId.value, s.matchName.value))
  }

  function PinnedTopics(relevant: seq<Subscription>, index: Dict<string, Owner>): set<string>
    requires forall s :: s in relevant ==> PinnedTopic(s, index).Some?
  {
    set s | s in relevant :: PinnedTopic(s, index).value
  }

  // The topics of all relevant subscriptions, or None as soon as one pins none.
  method CollectTopic0s(relevant: seq<Subscription>, reg: Registry) returns (r: Option<set<string>>)
    ensures r.None? <==> exists s :: s in relevant && PinnedTopic(s, Index(reg)).None?
    ensures r.Some? ==> r.value == PinnedTopics(relevant, Index(reg))
  {
    hide Index, KeyFor, PinnedTopics;
    var acc: set<string> := {};
    NothingPinned(Index(reg));
    for i := 0 to |relevant|
      invariant forall s :: s in relevant[..i] ==> PinnedTopic(s, Index(reg)).Some?
      invariant acc == PinnedTopics(relevant[..i], Index(reg))
    {
      var s := relevant[i];
      assert relevant[..i + 1] == relevant[..i] + [s];
      if s.matchKind == TOKEN_TRANSFER {
        PinOneMore(relevant[..i], s, Index(reg));
        acc := acc + {ERC20_TRANSFER_TOPIC0};
        continue;
      }
      if s.abiId.None? || s.matchName.None? || reg.NoRegistry? {
        NoRegistryNoTopic(s, reg);
        return None;
      }
      var t0 := KeyFor(Index(reg), (s.abiId.value, s.matchName.value));
      if t0.None? {
        assert PinnedTopic(s, Index(reg)).None? && s in relevant;
        return None;
      }
      PinOneMore(relevant[..i], s, Index(reg));
      acc := acc + {t0.value};
    }
    assert relevant[..|relevant|] == relevant;
    return Some(acc);
  }

  lemma NothingPinned(index: Dict<string, Owner>)
    ensures PinnedTopics([], index) == {}
  {
  }

  lemma PinOneMore(subs: seq<Subscription>, s: Subscription, index: Dict<string, Owner>)
    requires PinnedTopic(s, index).Some? && forall x :: x in subs ==> PinnedTopic(x, index).Some?
    ensures PinnedTopics(subs + [s], index) == PinnedTopics(subs, index) + {PinnedTopic(s, index).value}
  {
    hide PinnedTopic;
    forall t
      ensures t in PinnedTopics(subs + [s], index) <==> t in PinnedTopics(subs, index) + {PinnedTopic(s, index).value}
    {
      if t in PinnedTopics(subs, index) {
        var x :| x in subs && PinnedTopic(x, index).value == t;
        assert x in subs + [s];
      }
      assert s in subs + [s];
    }
  }

  lemma NoRegistryNoTopic(s: Subscription, reg: Registry)
    requires s.matchKind != TOKEN_TRANSFER && (s.abiId.None? || s.matchName.None? || reg.NoRegistry?)
    ensures PinnedTopic(s, Index(reg)).None?
  {
  }

  function FilterOf(snap: ConfigSnapshot, chainId: string, reg: Registry): LogFilter {
    var relevant := Relevant(snap, chainId);
    if relevant == [] then LogFilter(None, None, true)
    else
      LogFilter(
        if exists s :: s in relevant && s.address.None? then None
        else Some(set s | s in relevant :: Lower(s.address.value)),
        if exists s :: s in relevant && PinnedTopic(s, Index(reg)).None? then None
        else Some(PinnedTopics(relevant, Index(reg))),
        false)
  }

  method BuildEvmLogFilter(snap: ConfigSnapshot, chainId: string, reg: Registry) returns (f: LogFilter)
    ensures f == FilterOf(snap, chainId, reg)
  {
    hide PinnedTopic, Index;
    var relevant := Relevant(snap, chainId);
    if relevant == [] {
      return LogFilter(None, None, true);
    }
    var addresses := if exists s :: s in relevant && s.address.None? then None
                     else Some(set s | s in relevant :: Lower(s.address.value));
    var topics := CollectTopic0s(relevant, reg);
    return LogFilter(addresses, topics, false);
  }

  // eth_getLogs: the address list is an OR, topic position 0 is an OR; hex is
  // compared without case; an empty list is not sent at all.
  predicate NodePasses(f: LogFilter, l: Log) {
    && (f.addresses.Some? && f.addresses.value != {} ==> Lower(l.address) in f.addresses.value)
    && (f.topic0s.Some? && f.topic0s.value != {} ==> l.topics != [] && Lower(l.topics[0]) in f.topic0s.value)
  }

  function NodeLogs(f: LogFilter, logs: seq<Log>): seq<Log> {
    if f.skipLogs then [] else Passing(f, logs)
  }

  function Passing(f: LogFilter, logs: seq<Log>): seq<Log> {
    if logs == [] then [] else (if NodePasses(f, logs[0]) then [logs[0]] else []) + Passing(f, logs[1..])
  }

  // ----- Deliveries -----

  type Delivery = (Event, seq<Matcher.Hit>)

  function Bound(hits: seq<Matcher.Hit>): seq<Matcher.Hit> {
    if hits == [] then [] else (if hits[0].1 != [] then [hits[0]] else []) + Bound(hits[1..])
  }

  // [(sub, chans) for sub, chans in matcher.match(event) if chans]
  function HitsOf(snap: ConfigSnapshot, e: Event): seq<Matcher.Hit> {
    Bound(Matcher.Scan(snap.subscriptions, snap.channels, e))
  }

  function Deliveries(snap: ConfigSnapshot, events: seq<Event>): seq<Delivery> {
    if events == [] then []
    else
      var hits := HitsOf(snap, events[0]);
      (if hits == [] then [] else [(events[0], hits)]) + Deliveries(snap, events[1..])
  }

  lemma {:induction false} DeliveriesConcat(snap: ConfigSnapshot, a: seq<Event>, b: seq<Event>)
    ensures Deliveries(snap, a + b) == Deliveries(snap, a) + Deliveries(snap, b)
  {
    hide HitsOf;
    if a == [] {
      assert a + b == b;
    } else {
      assert (a + b)[1..] == a[1..] + b;
      DeliveriesConcat(snap, a[1..], b);
    }
  }

  // An event is delivered with its hits, in order, that have a channel; an event
  // without one is not delivered at all.
  lemma BoundKeeps(a: seq<Matcher.Hit>, h: Matcher.Hit, b: seq<Matcher.Hit>)
    ensures Bound(a + [h] + b) == Bound(a) + (if h.1 == [] then [] else [h]) + Bound(b)
  {
    assert [h][1..] == [];
    assert Bound([]) == [];
    assert Bound([h]) == if h.1 == [] then [] else [h];
    hide Bound;
    BoundConcat(a + [h], b);
    BoundConcat(a, [h]);
  }

  lemma {:induction false} BoundConcat(a: seq<Matcher.Hit>, b: seq<Matcher.Hit>)
    ensures Bound(a + b) == Bound(a) + Bound(b)
  {
    if a == [] {
      assert a + b == b;
    } else {
      assert (a + b)[1..] == a[1..] + b;
      BoundConcat(a[1..], b);
    }
  }

  lemma DeliveryOfOne(snap: ConfigSnapshot, e: Event)
    ensures Deliveries(snap, [e]) == if HitsOf(snap, e) == [] then [] else [(e, HitsOf(snap, e))]
  {
    hide HitsOf;
    assert [e][1..] == [];
    assert Deliveries(snap, []) == [];
  }

  lemma {:induction false} HitHasMatch(subs: seq<Subscription>, channels: seq<Channel>, e: Event)
    requires Bound(Matcher.Scan(subs, channels, e)) != []
    ensures exists s ::
              s in subs && s.enabled && s.chainId == e.chainId && s.matchKind == e.kind && Matcher.Matches(s, e)
  {
    hide Matcher.Matches;
    var s := subs[0];
    if s.enabled && s.chainId == e.chainId && s.matchKind == e.kind && Matcher.Matches(s, e) {
    } else {
      assert Matcher.Scan(subs, channels, e) == Matcher.Scan(subs[1..], channels, e);
      HitHasMatch(subs[1..], channels, e);
    }
  }

  lemma {:induction false} MatchHasHit(subs: seq<Subscription>, channels: seq<Channel>, e: Event, s: Subscription)
    requires s in subs && s.enabled && s.chainId == e.chainId && s.matchKind == e.kind && Matcher.Matches(s, e)
    requires Matcher.ChannelsOf(channels, s.channelIds) != []
    ensures Bound(Matcher.Scan(subs, channels, e)) != []
  {
    hide Matcher.Matches, Matcher.ChannelsOf;
    var first, rest := subs[0], Matcher.Scan(subs[1..], channels, e);
    var hit := (first, Matcher.ChannelsOf(channels, first.channelIds));
    if first.enabled && first.chainId == e.chainId && first.matchKind == e.kind && Matcher.Matches(first, e) {
      assert Matcher.Scan(subs, channels, e) == [hit] + rest;
      assert ([hit] + rest)[1..] == rest;
    } else {
      assert Matcher.Scan(subs, channels, e) == rest;
    }
    if first != s {
      MatchHasHit(subs[1..], channels, e, s);
    }
  }

  // ----- One log -----

  lemma LowerAddrNorm(s: string)
    ensures Lower(Matcher.AddrNorm(s)) == Lower(s)
  {
    LowerIdempotent(s);
  }

  // A subscription that matches an event of a log lets the log's address through.
  lemma AddressPasses(snap: ConfigSnapshot, chainId: string, reg: Registry, s: Subscription, e: Event, l: Log)
    requires s in Relevant(snap, chainId) && Matcher.Matches(s, e) && e.contract == Some(Lower(l.address))
    ensures var f := FilterOf(snap, chainId, reg); f.addresses.Some? ==> Lower(l.address) in f.addresses.value
  {
    hide PinnedTopic, Index;
    var f := FilterOf(snap, chainId, reg);
    if f.addresses.Some? {
      LowerAddrNorm(s.address.value);
      LowerAddrNorm(Lower(l.address));
      LowerIdempotent(l.address);
    }
  }

  lemma TopicInFilter(snap: ConfigSnapshot, chainId: string, reg: Registry, s: Subscription)
    requires s in Relevant(snap, chainId)
    ensures var f := FilterOf(snap, chainId, reg);
            f.topic0s.Some? ==> PinnedTopic(s, Index(reg)).Some? && PinnedTopic(s, Index(reg)).value in f.topic0s.value
  {
    hide PinnedTopic, Index;
  }

  // This log makes an event that the subscription matches.
  ghost predicate Delivers(chainId: string, reg: Registry, decode: Decode, s: Subscription, key: string, b: Block,
                           l: Log) {
    && reg.Registry? && l.topics != [] && Lower(l.topics[0]) == key
    && HandleLog(chainId, b, reg, decode, l).Made?
    && Matcher.Matches(s, HandleLog(chainId, b, reg, decode, l).event)
  }

  // Addresses are compared in lower case only when they start with "0x".
  predicate AddressCanMatch(s: Subscription) {
    s.address.Some? ==> StartsWith(s.address.value, "0x") || Lower(s.address.value) == s.address.value
  }

  // The entry behind a topic0 decodes these topics and data.
  predicate Decodes(reg: Registry, decode: Decode, key: string, topics: seq<string>, data: string) {
    && reg.Registry? && topics != [] && Lower(topics[0]) == key
    && var r := LookupSig(reg.o, Topic, reg.abis, key);
       r.Hit? && decode(r.value.1.entry, topics, data).Ok?
  }

  // ... to arguments that pass the subscription's filters.
  predicate Accepts(reg: Registry, decode: Decode, s: Subscription, key: string, topics: seq<string>, data: string) {
    && Decodes(reg, decode, key, topics, data)
    && var args := decode(LookupSig(reg.o, Topic, reg.abis, key).value.1.entry, topics, data).args;
       Evaluate(s.argFilters, args) == Pass
  }

  ghost predicate CanAccept(reg: Registry, decode: Decode, s: Subscription, key: string) {
    AddressCanMatch(s) && exists topics, data :: Accepts(reg, decode, s, key, topics, data)
  }

  // The name hypothesis: the filter pins one topic0 per (abi_id, name), but the
  // matcher compares names only. Every indexed topic0 that carries the name of an
  // event subscription must be in the filter, unless the subscription's own address
  // or argument filters reject whatever is decoded under it.
  ghost predicate NamesPinned(snap: ConfigSnapshot, chainId: string, reg: Registry, decode: Decode) {
    var f := FilterOf(snap, chainId, reg);
    f.topic0s.Some? ==>
      forall s, item :: s in Relevant(snap, chainId) && s.matchKind == EVENT && item in Index(reg)
        && s.matchName == Some(item.1.1) && CanAccept(reg, decode, s, item.0)
        ==> item.0 in f.topic0s.value
  }

  // The condition on the configuration and the decoder alone says exactly when some
  // log with the topic0 makes an event that the subscription matches.
  lemma CanAcceptIsExact(chainId: string, reg: Registry, decode: Decode, s: Subscription, item: (string, Owner))
    requires item in Index(reg) && s.matchName == Some(item.1.1)
    ensures (exists b, l :: Delivers(chainId, reg, decode, s, item.0, b, l)) <==> CanAccept(reg, decode, s, item.0)
  {
    hide Index, LookupSig, Matcher.Matches;
    if exists b, l :: Delivers(chainId, reg, decode, s, item.0, b, l) {
      var b, l :| Delivers(chainId, reg, decode, s, item.0, b, l);
      DeliveredIsAccepted(chainId, reg, decode, s, item.0, b, l);
    }
    if CanAccept(reg, decode, s, item.0) {
      var topics, data :| Accepts(reg, decode, s, item.0, topics, data);
      var b, l := AcceptedIsDelivered(chainId, reg, decode, s, item, topics, data);
    }
  }

  lemma DeliveredIsAccepted(chainId: string, reg: Registry, decode: Decode, s: Subscription, key: string, b: Block,
                            l: Log)
    requires s.matchName.Some? && Delivers(chainId, reg, decode, s, key, b, l)
    ensures AddressCanMatch(s) && Accepts(reg, decode, s, key, l.topics, l.data)
  {
    hide LookupSig, Evaluate;
    LowerIdempotent(l.address);
  }

  lemma AcceptedIsDelivered(chainId: string, reg: Registry, decode: Decode, s: Subscription, item: (string, Owner),
                            topics: seq<string>, data: string) returns (b: Block, l: Log)
    requires item in Index(reg) && s.matchName == Some(item.1.1)
    requires AddressCanMatch(s) && Accepts(reg, decode, s, item.0, topics, data)
    ensures Delivers(chainId, reg, decode, s, item.0, b, l)
  {
    hide Evaluate, SigItems, FirstWins, DecoderOf;
    var number := if s.startBlock.Some? then s.startBlock.value else 0;
    var address := if s.address.Some? then s.address.value else "";
    b := Block(BlockTree.Header(number, "", "", 0), [], [], []);
    l := Log("", 0, address, topics, data, number);
    FirstWinsKeys(SigItems(reg.o, Topic, reg.abis), item);
    FirstWinsIsScan(SigItems(reg.o, Topic, reg.abis), item.0);
    LowerIdempotent(address);
  }

  // An event the ABI parser made and named comes from an index entry of that name.
  lemma NamedEventIsIndexed(chainId: string, b: Block, reg: Registry, decode: Decode, l: Log)
    requires reg.Registry? && HandleLog(chainId, b, reg, decode, l).Made?
    requires HandleLog(chainId, b, reg, decode, l).event.name.Some?
    ensures l.topics != []
    ensures exists item :: item in Index(reg) && item.0 == Lower(l.topics[0])
              && Some(item.1.1) == HandleLog(chainId, b, reg, decode, l).event.name
  {
    hide SigItems, FirstWins, DecoderOf;
    var key := Lower(l.topics[0]);
    var items := SigItems(reg.o, Topic, reg.abis);
    FirstWinsIsScan(items, key);
    GetIsMember(FirstWins(items), key);
  }

  lemma MadeShape(chainId: string, b: Block, reg: Registry, decode: Decode, l: Log)
    requires reg.Registry? && HandleLog(chainId, b, reg, decode, l).Made?
    ensures var e := HandleLog(chainId, b, reg, decode, l).event;
            e.chainId == chainId && e.kind == EVENT && e.contract == Some(Lower(l.address))
  {
    hide LookupSig;
  }

  // A log the node filters out makes no event that anyone matches.
  lemma DroppedAbiEvent(snap: ConfigSnapshot, chainId: string, b: Block, reg: Registry, decode: Decode, l: Log)
    requires NamesPinned(snap, chainId, reg, decode) && reg.Registry?
    requires HandleLog(chainId, b, reg, decode, l).Made?
    requires var f := FilterOf(snap, chainId, reg); f.skipLogs || !NodePasses(f, l)
    ensures HitsOf(snap, HandleLog(chainId, b, reg, decode, l).event) == []
  {
    hide Matcher.Scan, Matcher.Matches, Bound, FilterOf, HandleLog, NamesPinned, NodePasses;
    MadeShape(chainId, b, reg, decode, l);
    var e := HandleLog(chainId, b, reg, decode, l).event;
    if HitsOf(snap, e) != [] {
      HitHasMatch(snap.subscriptions, snap.channels, e);
      var s :| s in snap.subscriptions && s.enabled && s.chainId == e.chainId && s.matchKind == e.kind
        && Matcher.Matches(s, e);
      EventKept(snap, chainId, b, reg, decode, l, s);
      assert false;
    }
  }

  lemma EventKept(snap: ConfigSnapshot, chainId: string, b: Block, reg: Registry, decode: Decode, l: Log,
                  s: Subscription)
    requires NamesPinned(snap, chainId, reg, decode) && reg.Registry?
    requires HandleLog(chainId, b, reg, decode, l).Made?
    requires s in Relevant(snap, chainId) && s.matchKind == EVENT
    requires Matcher.Matches(s, HandleLog(chainId, b, reg, decode, l).event)
    ensures var f := FilterOf(snap, chainId, reg); !f.skipLogs && NodePasses(f, l)
  {
    hide Index, KeyFor, LookupSig, CanAccept;
    var f, e := FilterOf(snap, chainId, reg), HandleLog(chainId, b, reg, decode, l).event;
    AddressPasses(snap, chainId, reg, s, e, l);
    if f.topic0s.Some? {
      TopicInFilter(snap, chainId, reg, s);
      NamedEventIsIndexed(chainId, b, reg, decode, l);
      var item :| item in Index(reg) && item.0 == Lower(l.topics[0]) && Some(item.1.1) == e.name;
      assert Delivers(chainId, reg, decode, s, item.0, b, l);
      CanAcceptIsExact(chainId, reg, decode, s, item);
    }
  }

  lemma DroppedErc20Event(snap: ConfigSnapshot, chainId: string, b: Block, reg: Registry, l: Log)
    requires Erc20Event(chainId, b, l).Some?
    requires var f := FilterOf(snap, chainId, reg); f.skipLogs || !NodePasses(f, l)
    ensures HitsOf(snap, Erc20Event(chainId, b, l).value) == []
  {
    hide Matcher.Scan, Index, KeyFor, Bound, HexValue, Dec;
    var e := Erc20Event(chainId, b, l).value;
    if HitsOf(snap, e) != [] {
      HitHasMatch(snap.subscriptions, snap.channels, e);
      var s :| s in snap.subscriptions && s.enabled && s.chainId == e.chainId && s.matchKind == e.kind
        && Matcher.Matches(s, e);
      AddressPasses(snap, chainId, reg, s, e, l);
      TopicInFilter(snap, chainId, reg, s);
      assert false;
    }
  }

  // ----- All logs of a block -----

  ghost predicate NoCrash(chainId: string, b: Block, reg: Registry, decode: Decode, logs: seq<Log>) {
    reg.Registry? ==> forall l :: l in logs ==> !HandleLog(chainId, b, reg, decode, l).Crash?
  }

  lemma {:induction false} Erc20SameDeliveries(snap: ConfigSnapshot, chainId: string, b: Block, reg: Registry,
                                               logs: seq<Log>)
    ensures var f := FilterOf(snap, chainId, reg);
            Deliveries(snap, Erc20Events(chainId, b, NodeLogs(f, logs)))
            == Deliveries(snap, Erc20Events(chainId, b, logs))
  {
    hide FilterOf, HitsOf, NodePasses, Erc20Event;
    if logs != [] {
      var f := FilterOf(snap, chainId, reg);
      var l, rest := logs[0], logs[1..];
      assert logs == [l] + rest;
      Erc20SameDeliveries(snap, chainId, b, reg, rest);
      Erc20Cons(chainId, b, l, rest);
      var made := if Erc20Event(chainId, b, l).Some? then [Erc20Event(chainId, b, l).value] else [];
      DeliveriesConcat(snap, made, Erc20Events(chainId, b, rest));
      if f.skipLogs || !NodePasses(f, l) {
        assert NodeLogs(f, logs) == NodeLogs(f, rest);
        if Erc20Event(chainId, b, l).Some? {
          DroppedErc20Event(snap, chainId, b, reg, l);
        }
        assert Deliveries(snap, made) == [];
      } else {
        assert NodeLogs(f, logs) == [l] + NodeLogs(f, rest);
        Erc20Cons(chainId, b, l, NodeLogs(f, rest));
        DeliveriesConcat(snap, made, Erc20Events(chainId, b, NodeLogs(f, rest)));
      }
    }
  }

  lemma Erc20Cons(chainId: string, b: Block, l: Log, rest: seq<Log>)
    ensures Erc20Events(chainId, b, [l] + rest)
            == (if Erc20Event(chainId, b, l).Some? then [Erc20Event(chainId, b, l).value] else [])
               + Erc20Events(chainId, b, rest)
  {
    hide Erc20Event;
    assert ([l] + rest)[1..] == rest;
  }

  lemma AbiCons(chainId: string, b: Block, reg: Registry, decode: Decode, l: Log, rest: seq<Log>)
    requires reg.Registry? && !HandleLog(chainId, b, reg, decode, l).Crash?
    ensures AbiEvents(chainId, b, reg, decode, [l] + rest)
            == EventOf(HandleLog(chainId, b, reg, decode, l))
               + AbiEvents(chainId, b, reg, decode, rest)
  {
    hide HandleLog;
    assert ([l] + rest)[1..] == rest;
  }

  lemma {:induction false} AbiSameDeliveries(snap: ConfigSnapshot, chainId: string, b: Block, reg: Registry,
                                             decode: Decode, logs: seq<Log>)
    requires NamesPinned(snap, chainId, reg, decode) && NoCrash(chainId, b, reg, decode, logs)
    ensures var f := FilterOf(snap, chainId, reg);
            Deliveries(snap, AbiEvents(chainId, b, reg, decode, NodeLogs(f, logs)))
            == Deliveries(snap, AbiEvents(chainId, b, reg, decode, logs))
  {
    hide FilterOf, HitsOf, NodePasses, HandleLog, NamesPinned;
    if logs != [] && reg.Registry? {
      var f := FilterOf(snap, chainId, reg);
      var l, rest := logs[0], logs[1..];
      assert logs == [l] + rest;
      AbiSameDeliveries(snap, chainId, b, reg, decode, rest);
      AbiCons(chainId, b, reg, decode, l, rest);
      var made := EventOf(HandleLog(chainId, b, reg, decode, l));
      DeliveriesConcat(snap, made, AbiEvents(chainId, b, reg, decode, rest));
      if f.skipLogs || !NodePasses(f, l) {
        assert NodeLogs(f, logs) == NodeLogs(f, rest);
        if made != [] {
          DroppedAbiEvent(snap, chainId, b, reg, decode, l);
        }
        assert Deliveries(snap, made) == [];
      } else {
        assert NodeLogs(f, logs) == [l] + NodeLogs(f, rest);
        AbiCons(chainId, b, reg, decode, l, NodeLogs(f, rest));
        DeliveriesConcat(snap, made, AbiEvents(chainId, b, reg, decode, NodeLogs(f, rest)));
      }
    }
  }

  // ----- Main results -----

  // For every block and every list of its logs on which no decoder raises
  // anything but DecodeFailed.
  ghost predicate Preserved(snap: ConfigSnapshot, chainId: string, reg: Registry, decode: Decode, b: Block,
                            logs: seq<Log>) {
    var f := FilterOf(snap, chainId, reg);
    Deliveries(snap, PipelineRun(chainId, b, reg, decode, NodeLogs(f, logs)))
    == Deliveries(snap, PipelineRun(chainId, b, reg, decode, logs))
  }

  // Node-side filtering changes no delivery, neither what is delivered nor its order.
  lemma PushDownPreservesDeliveries(snap: ConfigSnapshot, chainId: string, reg: Registry, decode: Decode, b: Block,
                                    logs: seq<Log>)
    requires NamesPinned(snap, chainId, reg, decode) && NoCrash(chainId, b, reg, decode, logs)
    ensures Preserved(snap, chainId, reg, decode, b, logs)
  {
    hide Erc20Events, AbiEvents, FilterOf, NodeLogs;
    var f := FilterOf(snap, chainId, reg);
    Erc20SameDeliveries(snap, chainId, b, reg, logs);
    AbiSameDeliveries(snap, chainId, b, reg, decode, logs);
    PipelineSplits(snap, chainId, b, reg, decode, logs);
    PipelineSplits(snap, chainId, b, reg, decode, NodeLogs(f, logs));
  }

  lemma PipelineSplits(snap: ConfigSnapshot, chainId: string, b: Block, reg: Registry, decode: Decode, logs: seq<Log>)
    ensures Deliveries(snap, PipelineRun(chainId, b, reg, decode, logs))
            == Deliveries(snap, b.before) + Deliveries(snap, Erc20Events(chainId, b, logs))
               + Deliveries(snap, AbiEvents(chainId, b, reg, decode, logs)) + Deliveries(snap, b.after)
  {
    hide Deliveries, Erc20Events, AbiEvents;
    var x, y := Erc20Events(chainId, b, logs), AbiEvents(chainId, b, reg, decode, logs);
    DeliveriesConcat(snap, b.before + x + y, b.after);
    DeliveriesConcat(snap, b.before + x, y);
    DeliveriesConcat(snap, b.before, x);
  }

  lemma DroppedAlone(f: LogFilter, l: Log)
    requires !NodePasses(f, l)
    ensures NodeLogs(f, [l]) == []
  {
    assert [l][1..] == [];
    assert Passing(f, []) == [];
  }

  // A log whose topic0 is missing from the filter takes its delivery with it.
  lemma MissingTopicLosesLog(snap: ConfigSnapshot, chainId: string, reg: Registry, decode: Decode, s: Subscription,
                             key: string, b: Block, l: Log)
    requires s in Relevant(snap, chainId) && s.matchKind == EVENT
    requires Matcher.ChannelsOf(snap.channels, s.channelIds) != []
    requires Delivers(chainId, reg, decode, s, key, b, l)
    requires var f := FilterOf(snap, chainId, reg); f.topic0s.Some? && key !in f.topic0s.value
    ensures var quiet := b.(before := [], after := []);
            NoCrash(chainId, quiet, reg, decode, [l]) && !Preserved(snap, chainId, reg, decode, quiet, [l])
  {
    hide LookupSig, Erc20Event, Matcher.Scan, Matcher.ChannelsOf, HitsOf, Index, KeyFor, PinnedTopic;
    var f, quiet := FilterOf(snap, chainId, reg), b.(before := [], after := []);
    TopicInFilter(snap, chainId, reg, s);
    assert [l][1..] == [];
    assert f.topic0s.value != {} && !NodePasses(f, l);
    DroppedAlone(f, l);
    var e := HandleLog(chainId, b, reg, decode, l).event;
    assert HandleLog(chainId, quiet, reg, decode, l) == Made(e);
    MatchHasHit(snap.subscriptions, snap.channels, e, s);
    HitsAreBound(snap, e);
    assert AbiEvents(chainId, quiet, reg, decode, [l]) == [e];
    PipelineSplits(snap, chainId, quiet, reg, decode, [l]);
    assert Deliveries(snap, [e]) != [];
  }

  lemma HitsAreBound(snap: ConfigSnapshot, e: Event)
    ensures HitsOf(snap, e) == Bound(Matcher.Scan(snap.subscriptions, snap.channels, e))
  {
  }

  ghost predicate AlwaysPreserved(snap: ConfigSnapshot, chainId: string, reg: Registry, decode: Decode) {
    forall b, logs :: NoCrash(chainId, b, reg, decode, logs) ==> Preserved(snap, chainId, reg, decode, b, logs)
  }

  // A topic0 that shares a subscription's name and is missing from the filter loses
  // a delivery: of some log of that topic0.
  lemma CollisionLosesDelivery(snap: ConfigSnapshot, chainId: string, reg: Registry, decode: Decode, s: Subscription,
                               item: (string, Owner))
    requires s in Relevant(snap, chainId) && s.matchKind == EVENT
    requires Matcher.ChannelsOf(snap.channels, s.channelIds) != []
    requires item in Index(reg) && s.matchName == Some(item.1.1) && CanAccept(reg, decode, s, item.0)
    requires var f := FilterOf(snap, chainId, reg); f.topic0s.Some? && item.0 !in f.topic0s.value
    ensures !AlwaysPreserved(snap, chainId, reg, decode)
  {
    hide Preserved, NoCrash, FilterOf, Index, Matcher.ChannelsOf, Delivers, CanAccept;
    CanAcceptIsExact(chainId, reg, decode, s, item);
    var b, l :| Delivers(chainId, reg, decode, s, item.0, b, l);
    MissingTopicLosesLog(snap, chainId, reg, decode, s, item.0, b, l);
  }

  // Exactly when push-down is safe, for snapshots whose subscriptions all have a
  // channel (load_snapshot skips the others).
  lemma PushDownIsExact(snap: ConfigSnapshot, chainId: string, reg: Registry, decode: Decode)
    requires forall s :: s in snap.subscriptions ==> Matcher.ChannelsOf(snap.channels, s.channelIds) != []
    ensures AlwaysPreserved(snap, chainId, reg, decode) <==> NamesPinned(snap, chainId, reg, decode)
  {
    hide Preserved, NoCrash, FilterOf, Index, Matcher.ChannelsOf, CanAccept;
    if NamesPinned(snap, chainId, reg, decode) {
      forall b, logs | NoCrash(chainId, b, reg, decode, logs) ensures Preserved(snap, chainId, reg, decode, b, logs) {
        PushDownPreservesDeliveries(snap, chainId, reg, decode, b, logs);
      }
    } else {
      var f := FilterOf(snap, chainId, reg);
      var s, item :| s in Relevant(snap, chainId) && s.matchKind == EVENT && item in Index(reg)
        && s.matchName == Some(item.1.1) && CanAccept(reg, decode, s, item.0) && item.0 !in f.topic0s.value;
      CollisionLosesDelivery(snap, chainId, reg, decode, s, item);
    }
  }

  // ----- The check on names alone -----

  // No indexed topic0 outside the filter carries the name of an event subscription.
  ghost predicate NamesUnshared(snap: ConfigSnapshot, chainId: string, reg: Registry) {
    var f := FilterOf(snap, chainId, reg);
    f.topic0s.Some? ==>
      forall s, item :: s in Relevant(snap, chainId) && s.matchKind == EVENT && item in Index(reg)
        && s.matchName == Some(item.1.1)
        ==> item.0 in f.topic0s.value
  }

  lemma UnsharedNamesSuffice(snap: ConfigSnapshot, chainId: string, reg: Registry, decode: Decode, b: Block,
                             logs: seq<Log>)
    requires NamesUnshared(snap, chainId, reg) && NoCrash(chainId, b, reg, decode, logs)
    ensures Preserved(snap, chainId, reg, decode, b, logs)
  {
    hide Preserved, NoCrash, FilterOf, Index;
    PushDownPreservesDeliveries(snap, chainId, reg, decode, b, logs);
  }

  // It is exact when subscriptions have no argument filters and addresses that can
  // match, and every entry that carries the name of one decodes some log.
  lemma UnsharedNamesAreExact(snap: ConfigSnapshot, chainId: string, reg: Registry, decode: Decode)
    requires forall s :: s in snap.subscriptions ==> Matcher.ChannelsOf(snap.channels, s.channelIds) != []
    requires forall s :: s in Relevant(snap, chainId) && s.matchKind == EVENT ==>
               s.argFilters == [] && AddressCanMatch(s)
    requires forall s, item ::
               s in Relevant(snap, chainId) && s.matchKind == EVENT
               && item in Index(reg) && s.matchName == Some(item.1.1)
               ==> exists topics, data :: Decodes(reg, decode, item.0, topics, data)
    ensures AlwaysPreserved(snap, chainId, reg, decode) <==> NamesUnshared(snap, chainId, reg)
  {
    hide AlwaysPreserved, FilterOf, Index, Matcher.ChannelsOf, LookupSig, Decodes;
    PushDownIsExact(snap, chainId, reg, decode);
    forall s, item | s in Relevant(snap, chainId) && s.matchKind == EVENT
                     && item in Index(reg) && s.matchName == Some(item.1.1)
      ensures CanAccept(reg, decode, s, item.0)
    {
      var topics, data :| Decodes(reg, decode, item.0, topics, data);
      assert Accepts(reg, decode, s, item.0, topics, data);
    }
  }

  // Two ABIs with an event of the same name: the filter built for a subscription to
  // the first one drops the logs of the second, which the matcher would deliver.
  const MINE := AbiEntry("event", "Deposit", "(uint256)")
  const OTHER := AbiEntry("event", "Deposit", "(address,uint256)")
  const ABI_A := Abi("a", "evm", Entries([MINE]))
  const ABI_B := Abi("b", "evm", Entries([OTHER]))
  const TWO_ABIS := [ABI_A, ABI_B]
  const ON_MINE := Subscription("s", "1", None, Some("a"), EVENT, Some("Deposit"), [], true, ["c"], None)
  const ONE_SUBSCRIPTION := ConfigSnapshot(1, [ON_MINE], [Channel("c", "hook")], TWO_ABIS)

  predicate TopicsDiffer(o: Oracles) {
    && o.topic0(MINE).Some? && o.topic0(OTHER).Some?
    && Lower(o.topic0(MINE).value) != Lower(o.topic0(OTHER).value)
  }

  // A decoder that always succeeds.
  const DECODE_ALL: Decode := (e: AbiEntry, topics: seq<string>, data: string) => Decoded.Ok(map[])

  lemma SameNameLosesDelivery(o: Oracles)
    requires TopicsDiffer(o)
    ensures var reg := Registry(o, TWO_ABIS);
            var l := Log("0x01", 0, "0x02", [o.topic0(OTHER).value], "0x", 7);
            var b := Block(BlockTree.Header(7, "0x03", "0x04", 0), [], [], []);
            NoCrash("1", b, reg, DECODE_ALL, [l]) && !Preserved(ONE_SUBSCRIPTION, "1", reg, DECODE_ALL, b, [l])
  {
    var reg := Registry(o, TWO_ABIS);
    var l := Log("0x01", 0, "0x02", [o.topic0(OTHER).value], "0x", 7);
    var b := Block(BlockTree.Header(7, "0x03", "0x04", 0), [], [], []);
    var mine, other := Lower(o.topic0(MINE).value), Lower(o.topic0(OTHER).value);
    TwoAbisIndexed(o);
    ExampleLookup(o);
    ExampleFilter(o);
    MissingTopicLosesLog(ONE_SUBSCRIPTION, "1", reg, DECODE_ALL, ON_MINE, other, b, l);
  }

  lemma OneEntryItems(o: Oracles, id: string, e: AbiEntry)
    requires e.kind == "event" && o.topic0(e).Some?
    ensures EntryItems(o, Topic, id, [e]) == [(Lower(o.topic0(e).value), (id, e.name))]
  {
    assert [e][..0] == [];
    assert EntryItems(o, Topic, id, []) == [];
  }

  lemma TwoAbisItems(o: Oracles)
    requires o.topic0(MINE).Some? && o.topic0(OTHER).Some?
    ensures SigItems(o, Topic, TWO_ABIS)
            == [(Lower(o.topic0(MINE).value), ("a", "Deposit")), (Lower(o.topic0(OTHER).value), ("b", "Deposit"))]
  {
    OneEntryItems(o, "a", MINE);
    OneEntryItems(o, "b", OTHER);
    assert TWO_ABIS[..1] == [ABI_A] && [ABI_A][..0] == [];
    assert SigItems(o, Topic, []) == [];
    assert SigItems(o, Topic, [ABI_A]) == [(Lower(o.topic0(MINE).value), ("a", "Deposit"))];
  }

  lemma TwoAbisIndexed(o: Oracles)
    requires TopicsDiffer(o)
    ensures Index(Registry(o, TWO_ABIS))
            == [(Lower(o.topic0(MINE).value), ("a", "Deposit")), (Lower(o.topic0(OTHER).value), ("b", "Deposit"))]
  {
    hide SigItems;
    TwoAbisItems(o);
    var first := (Lower(o.topic0(MINE).value), ("a", "Deposit"));
    var second := (Lower(o.topic0(OTHER).value), ("b", "Deposit"));
    assert [first, second][..1] == [first] && [first][..0] == [] && [first][1..] == [];
    assert FirstWins<string, Owner>([]) == [];
    assert FirstWins([first]) == [first];
    assert Get([first], second.0).None?;
    assert FirstWins([first, second]) == AddNew([first], second) == [first] + [second];
    assert Index(Registry(o, TWO_ABIS)) == FirstWins([first, second]);
  }

  lemma ExampleLookup(o: Oracles)
    requires TopicsDiffer(o)
    ensures LookupSig(o, Topic, TWO_ABIS, Lower(o.topic0(OTHER).value)) == Hit(("Deposit", EventDecoder(OTHER)))
  {
    hide SigItems;
    TwoAbisItems(o);
    var key := Lower(o.topic0(OTHER).value);
    assert SigItems(o, Topic, TWO_ABIS)[1..] == [(key, ("b", "Deposit"))];
    assert Get(SigItems(o, Topic, TWO_ABIS), key) == Some(("b", "Deposit"));
    assert TWO_ABIS[1..] == [ABI_B];
    assert AbiOf(TWO_ABIS, "b") == Some(ABI_B);
    assert ScanEntries(o, Topic, [OTHER], key) == Hit(EventDecoder(OTHER));
  }

  lemma ExampleFilter(o: Oracles)
    requires TopicsDiffer(o)
    ensures ON_MINE in Relevant(ONE_SUBSCRIPTION, "1")
    ensures FilterOf(ONE_SUBSCRIPTION, "1", Registry(o, TWO_ABIS)).topic0s == Some({Lower(o.topic0(MINE).value)})
  {
    hide Index;
    TwoAbisIndexed(o);
    var index := Index(Registry(o, TWO_ABIS));
    assert KeyFor(index, ("a", "Deposit")) == Some(index[0].0);
    assert PinnedTopic(ON_MINE, index) == Some(index[0].0);
    assert ON_MINE in Relevant(ONE_SUBSCRIPTION, "1");
    var relevant := Relevant(ONE_SUBSCRIPTION, "1");
    assert forall s :: s in relevant ==> s in ONE_SUBSCRIPTION.subscriptions && s == ON_MINE;
    assert PinnedTopics(relevant, index) == {index[0].0};
    assert relevant != [];
  }
}
