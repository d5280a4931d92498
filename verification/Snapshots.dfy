/** The configuration snapshot a worker runs on, and the events it matches. */
module Snapshots {
  import opened Common
  import opened Filters
  import opened IdlTypes

  datatype Subscription = Subscription(
    id: string, chainId: string, address: Option<string>, abiId: Option<string>,
    matchKind: string, matchName: Option<string>, argFilters: seq<(string, Value)>,
    enabled: bool, channelIds: seq<string>, startBlock: Option<int>)

  datatype Channel = Channel(id: string, name: string)

  // One item of a JSON ABI; `rest` is everything but its type and name.
  datatype AbiEntry = AbiEntry(kind: string, name: string, rest: string)

  // One event or instruction of an IDL.
  datatype IdlItem = IdlItem(name: string, fields: seq<Field>)

  // An ABI body is a list of entries or a single document; a document is also
  // read as an IDL (programId is "" when metadata.address is missing).
  datatype Body =
    | Entries(entries: seq<AbiEntry>)
    | Document(entry: AbiEntry, programId: string, types: seq<TypeDef>, events: seq<IdlItem>,
               instructions: seq<IdlItem>)

  datatype Abi = Abi(id: string, kind: string, body: Body)

  datatype ConfigSnapshot = ConfigSnapshot(version: int, subscriptions: seq<Subscription>, channels: seq<Channel>,
                                           abis: seq<Abi>)

  datatype Event = Event(
    chainId: string, blockNumber: int, blockHash: string, blockTimestamp: int,
    txHash: string, txIndex: Option<int>, logIndex: Option<int>, kind: string,
    contract: Option<string>, name: Option<string>, args: Args, raw: seq<string>)

  // subscriptions_for_chain
  function SubscriptionsForChain(subs: seq<Subscription>, chainId: string): (r: seq<Subscription>)
    ensures forall s :: s in r <==> s in subs && s.chainId == chainId && s.enabled
  {
    if subs == [] then []
    else (if subs[0].chainId == chainId && subs[0].enabled then [subs[0]] else [])
         + SubscriptionsForChain(subs[1..], chainId)
  }

  // Nothing is reordered or repeated: a list in two parts is filtered part by part.
  lemma {:induction false} ForChainKeepsOrder(a: seq<Subscription>, b: seq<Subscription>, chainId: string)
    ensures SubscriptionsForChain(a + b, chainId)
            == SubscriptionsForChain(a, chainId) + SubscriptionsForChain(b, chainId)
  {
    if a == [] {
      assert a + b == b;
    } else {
      assert (a + b)[1..] == a[1..] + b;
      ForChainKeepsOrder(a[1..], b, chainId);
      var first := if a[0].chainId == chainId && a[0].enabled then [a[0]] else [];
      ConcatAssociates(first, SubscriptionsForChain(a[1..], chainId), SubscriptionsForChain(b, chainId));
    }
  }

  lemma ForChainOfOne(s: Subscription, chainId: string)
    ensures SubscriptionsForChain([s], chainId) == if s.chainId == chainId && s.enabled then [s] else []
  {
    assert [s][1..] == [];
  }
}
