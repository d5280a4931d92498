/** Matching one event against the subscriptions of a snapshot. */
module Matcher {
  import opened Common
  import opened Filters
  import opened Snapshots

  function AddrNorm(s: string): string {
    if StartsWith(s, "0x") then Lower(s) else s
  }

  // `_matches`; an exception counts as no match (it is caught per subscription).
  predicate Matches(sub: Subscription, e: Event) {
    && !(sub.startBlock.Some? && e.blockNumber < sub.startBlock.value)
    && !(sub.address.Some? && (e.contract.None? || AddrNorm(sub.address.value) != AddrNorm(e.contract.value)))
    && !(sub.matchName.Some? && e.name != sub.matchName)
    && Evaluate(sub.argFilters, e.args).Pass?
  }

  // Addresses agree as they are, or in lower case when both start with "0x".
  predicate SameAddress(a: string, b: string) {
    a == b || (StartsWith(a, "0x") && StartsWith(b, "0x") && Lower(a) == Lower(b))
  }

  lemma NormMeansSameAddress(a: string, b: string)
    ensures AddrNorm(a) == AddrNorm(b) <==> SameAddress(a, b)
  {
    if StartsWith(a, "0x") {
      assert StartsWith(Lower(a), "0x");
    }
    if StartsWith(b, "0x") {
      assert StartsWith(Lower(b), "0x");
    }
  }

  // Each part of a subscription is one test of its own, left out when it is None; the
  // start block itself is let through.
  lemma MatchMeaning(sub: Subscription, e: Event)
    ensures Matches(sub, e) <==>
              && (sub.startBlock.Some? ==> e.blockNumber >= sub.startBlock.value)
              && (sub.address.Some? ==> e.contract.Some? && SameAddress(sub.address.value, e.contract.value))
              && (sub.matchName.Some? ==> e.name.Some? && e.name.value == sub.matchName.value)
              && forall i :: 0 <= i < |sub.argFilters| ==>
                   Entry(sub.argFilters[i].0, sub.argFilters[i].1, e.args) == Pass
  {
    hide AddrNorm, Entry;
    PassesIffAllPass(sub.argFilters, e.args);
    if sub.address.Some? && e.contract.Some? {
      NormMeansSameAddress(sub.address.value, e.contract.value);
    }
  }

  type Hit = (Subscription, seq<Channel>)

  // {c.id: c for c in channels}: the last channel of an id.
  function ChannelOf(channels: seq<Channel>, id: string): Option<Channel> {
    if channels == [] then None
    else if channels[|channels| - 1].id == id then Some(channels[|channels| - 1])
    else ChannelOf(channels[..|channels| - 1], id)
  }

  function ChannelsOf(channels: seq<Channel>, ids: seq<string>): seq<Channel> {
    if ids == [] then []
    else (match ChannelOf(channels, ids[0]) case Some(c) => [c] case None => []) + ChannelsOf(channels, ids[1..])
  }

  // The channels of a list of ids in two parts are those of the parts; a single id
  // gives the channel of that id listed last, if there is one.
  lemma {:induction false} ChannelsKeepOrder(channels: seq<Channel>, a: seq<string>, b: seq<string>)
    ensures ChannelsOf(channels, a + b) == ChannelsOf(channels, a) + ChannelsOf(channels, b)
  {
    hide ChannelOf;
    if a == [] {
      assert a + b == b;
    } else {
      assert (a + b)[1..] == a[1..] + b;
      ChannelsKeepOrder(channels, a[1..], b);
      var first := match ChannelOf(channels, a[0]) case Some(c) => [c] case None => [];
      ConcatAssociates(first, ChannelsOf(channels, a[1..]), ChannelsOf(channels, b));
    }
  }

  lemma ChannelsOfOne(channels: seq<Channel>, id: string)
    ensures ChannelsOf(channels, [id]) == [] <==> forall k :: 0 <= k < |channels| ==> channels[k].id != id
    ensures forall k :: 0 <= k < |channels| && channels[k].id == id
                        && (forall j :: k < j < |channels| ==> channels[j].id != id)
                        ==> ChannelsOf(channels, [id]) == [channels[k]]
  {
    hide ChannelOf;
    LastChannel(channels, id);
    assert [id][1..] == [];
  }

  lemma {:induction false} LastChannel(channels: seq<Channel>, id: string)
    ensures ChannelOf(channels, id).None? <==> forall k :: 0 <= k < |channels| ==> channels[k].id != id
    ensures forall k :: 0 <= k < |channels| && channels[k].id == id
                        && (forall j :: k < j < |channels| ==> channels[j].id != id)
                        ==> ChannelOf(channels, id) == Some(channels[k])
  {
    if channels != [] && channels[|channels| - 1].id != id {
      LastChannel(channels[..|channels| - 1], id);
    }
  }

  // The reference: one pass over all subscriptions.
  function Scan(subs: seq<Subscription>, channels: seq<Channel>, e: Event): seq<Hit> {
    if subs == [] then []
    else
      var s := subs[0];
      (if s.enabled && s.chainId == e.chainId && s.matchKind == e.kind && Matches(s, e)
       then [(s, ChannelsOf(channels, s.channelIds))] else [])
      + Scan(subs[1..], channels, e)
  }

  // The subscriptions under one index key, in snapshot order.
  function Candidates(subs: seq<Subscription>, key: (string, string)): seq<Subscription> {
    if subs == [] then []
    else
      var s := subs[|subs| - 1];
      Candidates(subs[..|subs| - 1], key) + if s.enabled && (s.chainId, s.matchKind) == key then [s] else []
  }

  class Matcher {
    const snapshot: ConfigSnapshot
    var byKey: map<(string, string), seq<Subscription>>
    var channels: map<string, Channel>

    ghost predicate Valid()
      reads this
    {
      Indexed(snapshot.subscriptions, byKey) && Tabled(snapshot.channels, channels)
    }

    constructor (snapshot: ConfigSnapshot)
      ensures Valid() && this.snapshot == snapshot
    {
      hide ChannelOf, Candidates;
      this.snapshot := snapshot;
      byKey, channels := map[], map[];
      new;
      hide Indexed, Tabled;
      NothingIndexed();
      for i := 0 to |snapshot.subscriptions|
        invariant Indexed(snapshot.subscriptions[..i], byKey) && channels == map[]
      {
        var s := snapshot.subscriptions[i];
        assert snapshot.subscriptions[..i + 1] == snapshot.subscriptions[..i] + [s];
        IndexOne(snapshot.subscriptions[..i], s, byKey);
        if s.enabled {
          var key := (s.chainId, s.matchKind);
          byKey := byKey[key := (if key in byKey then byKey[key] else []) + [s]];
        }
      }
      assert snapshot.subscriptions[..|snapshot.subscriptions|] == snapshot.subscriptions;
      for i := 0 to |snapshot.channels|
        invariant Indexed(snapshot.subscriptions, byKey)
        invariant Tabled(snapshot.channels[..i], channels)
      {
        assert snapshot.channels[..i + 1] == snapshot.channels[..i] + [snapshot.channels[i]];
        TableOne(snapshot.channels[..i], snapshot.channels[i], channels);
        channels := channels[snapshot.channels[i].id := snapshot.channels[i]];
      }
      assert snapshot.channels[..|snapshot.channels|] == snapshot.channels;
    }

    // The index finds exactly what a scan of all subscriptions finds, in order.
    method Match(e: Event) returns (hits: seq<Hit>)
      requires Valid()
      ensures hits == Scan(snapshot.subscriptions, snapshot.channels, e)
    {
      hide Scan, ChannelOf, ChannelsOf, Candidates;
      var key := (e.chainId, e.kind);
      var candidates := if key in byKey then byKey[key] else [];
      assert candidates == Candidates(snapshot.subscriptions, key);
      hits := [];
      NoCandidates(snapshot.channels, e);
      for i := 0 to |candidates|
        invariant hits == ScanCandidates(candidates[..i], snapshot.channels, e)
      {
        assert candidates[..i + 1] == candidates[..i] + [candidates[i]];
        ScanOneMore(candidates[..i], candidates[i], snapshot.channels, e);
        if Matches(candidates[i], e) {
          var chans := Bind(candidates[i]);
          hits := hits + [(candidates[i], chans)];
        }
      }
      assert candidates[..|candidates|] == candidates;
      CandidatesSuffice(snapshot.subscriptions, snapshot.channels, e);
    }

    // [self._channels[cid] for cid in sub.channel_ids if cid in self._channels]
    method Bind(sub: Subscription) returns (r: seq<Channel>)
      requires Valid()
      ensures r == ChannelsOf(snapshot.channels, sub.channelIds)
    {
      hide ChannelOf;
      r := [];
      for i := 0 to |sub.channelIds|
        invariant r + ChannelsOf(snapshot.channels, sub.channelIds[i..])
                  == ChannelsOf(snapshot.channels, sub.channelIds)
      {
        var cid := sub.channelIds[i];
        assert sub.channelIds[i..][1..] == sub.channelIds[i + 1..];
        ghost var now := if cid in channels then [channels[cid]] else [];
        ConcatAssociates(r, now, ChannelsOf(snapshot.channels, sub.channelIds[i + 1..]));
        if cid in channels {
          r := r + [channels[cid]];
        }
      }
    }
  }

  ghost predicate Tabled(channels: seq<Channel>, table: map<string, Channel>) {
    forall id :: ChannelOf(channels, id) == if id in table then Some(table[id]) else None
  }

  lemma TableOne(channels: seq<Channel>, c: Channel, table: map<string, Channel>)
    requires Tabled(channels, table)
    ensures Tabled(channels + [c], table[c.id := c])
  {
    assert (channels + [c])[..|channels|] == channels;
  }

  lemma NothingIndexed()
    ensures Indexed([], map[]) && Tabled([], map[])
  {
  }

  ghost predicate Indexed(subs: seq<Subscription>, byKey: map<(string, string), seq<Subscription>>) {
    forall key :: Candidates(subs, key) == if key in byKey then byKey[key] else []
  }

  lemma IndexOne(subs: seq<Subscription>, s: Subscription, byKey: map<(string, string), seq<Subscription>>)
    requires Indexed(subs, byKey)
    ensures var key := (s.chainId, s.matchKind);
            var known := if key in byKey then byKey[key] else [];
            Indexed(subs + [s], if s.enabled then byKey[key := known + [s]] else byKey)
  {
    assert (subs + [s])[..|subs|] == subs;
    forall key
      ensures Candidates(subs + [s], key)
              == Candidates(subs, key) + if s.enabled && (s.chainId, s.matchKind) == key then [s] else []
    {
    }
  }

  // What matching the candidates one after the other collects.
  function ScanCandidates(subs: seq<Subscription>, channels: seq<Channel>, e: Event): seq<Hit> {
    if subs == [] then []
    else
      var s := subs[|subs| - 1];
      ScanCandidates(subs[..|subs| - 1], channels, e)
      + if Matches(s, e) then [(s, ChannelsOf(channels, s.channelIds))] else []
  }

  lemma NoCandidates(channels: seq<Channel>, e: Event)
    ensures ScanCandidates([], channels, e) == []
  {
  }

  lemma ScanOneMore(subs: seq<Subscription>, s: Subscription, channels: seq<Channel>, e: Event)
    ensures ScanCandidates(subs + [s], channels, e)
            == ScanCandidates(subs, channels, e)
               + if Matches(s, e) then [(s, ChannelsOf(channels, s.channelIds))] else []
  {
    assert (subs + [s])[..|subs|] == subs;
  }

  lemma ScanCons(s: Subscription, subs: seq<Subscription>, channels: seq<Channel>, e: Event)
    ensures Scan([s] + subs, channels, e) == Scan([s], channels, e) + Scan(subs, channels, e)
  {
    hide Matches, ChannelsOf;
    assert ([s] + subs)[1..] == subs && [s][1..] == [];
    assert Scan([], channels, e) == [];
  }

  lemma {:induction false} ScanSnoc(subs: seq<Subscription>, s: Subscription, channels: seq<Channel>, e: Event)
    ensures Scan(subs + [s], channels, e) == Scan(subs, channels, e) + Scan([s], channels, e)
  {
    hide Matches, ChannelsOf;
    if subs == [] {
      assert subs + [s] == [s];
      assert [] + Scan([s], channels, e) == Scan([s], channels, e);
    } else {
      ScanCons(subs[0], subs[1..], channels, e);
      ScanCons(subs[0], subs[1..] + [s], channels, e);
      assert subs == [subs[0]] + subs[1..];
      assert subs + [s] == [subs[0]] + (subs[1..] + [s]);
      hide Scan;
      ScanSnoc(subs[1..], s, channels, e);
      ConcatAssociates(Scan([subs[0]], channels, e), Scan(subs[1..], channels, e), Scan([s], channels, e));
    }
  }

  lemma ScanOne(s: Subscription, channels: seq<Channel>, e: Event)
    ensures Scan([s], channels, e)
            == if s.enabled && s.chainId == e.chainId && s.matchKind == e.kind && Matches(s, e)
               then [(s, ChannelsOf(channels, s.channelIds))] else []
  {
    assert [s][1..] == [];
  }

  lemma CandidatesOneMore(subs: seq<Subscription>, s: Subscription, key: (string, string))
    ensures var more := s.enabled && (s.chainId, s.matchKind) == key;
            Candidates(subs + [s], key) == if more then Candidates(subs, key) + [s] else Candidates(subs, key)
  {
    assert (subs + [s])[..|subs|] == subs;
  }

  lemma {:induction false} CandidatesSuffice(subs: seq<Subscription>, channels: seq<Channel>, e: Event)
    ensures ScanCandidates(Candidates(subs, (e.chainId, e.kind)), channels, e) == Scan(subs, channels, e)
  {
    if subs != [] {
      hide Matches, ChannelsOf, Scan, ScanCandidates, Candidates;
      var front, s := subs[..|subs| - 1], subs[|subs| - 1];
      var key := (e.chainId, e.kind);
      assert subs == front + [s];
      CandidatesSuffice(front, channels, e);
      CandidatesOneMore(front, s, key);
      ScanSnoc(front, s, channels, e);
      ScanOne(s, channels, e);
      if s.enabled && (s.chainId, s.matchKind) == key {
        ScanOneMore(Candidates(front, key), s, channels, e);
      }
    }
  }
}
