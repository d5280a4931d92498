/** The in-memory ABI registry: four indexes, their caches, and the decoder cache. */
module AbiRegistry {
  import opened Common
  import opened Snapshots
  import opened IdlTypes

  // keccak, SHA-256 and JSON hashing, left open. A signature may fail to compute.
  datatype Oracles = Oracles(
    topic0: AbiEntry -> Option<string>, selector: AbiEntry -> Option<string>,
    bodyHash: Body -> string, eventDisc: string -> string, callDisc: string -> string)

  // Distinct bodies hash differently; no event topic equals a function selector.
  ghost predicate Sound(o: Oracles) {
    && (forall a, b :: o.bodyHash(a) == o.bodyHash(b) ==> a == b)
    && (forall e, f :: o.topic0(e).Some? && o.selector(f).Some?
          ==> Lower(o.topic0(e).value) != Lower(o.selector(f).value))
  }

  datatype Sig = Topic | Selector

  function SigOf(o: Oracles, sig: Sig, e: AbiEntry): Option<string> {
    match if sig == Topic then o.topic0(e) else o.selector(e)
    case Some(t) => Some(Lower(t))
    case None => None
  }

  function OtherSig(sig: Sig): Sig {
    if sig == Topic then Selector else Topic
  }

  function KindOf(sig: Sig): string {
    if sig == Topic then "event" else "function"
  }

  function EntriesOf(b: Body): seq<AbiEntry> {
    match b
    case Entries(es) => es
    case Document(e, _, _, _, _) => [e]
  }

  // ----- Ordered dictionaries: the first value of a key stays -----

  type Dict<K, V> = seq<(K, V)>

  function Get<K(==), V>(d: Dict<K, V>, k: K): Option<V> {
    if d == [] then None else if d[0].0 == k then Some(d[0].1) else Get(d[1..], k)
  }

  function AddNew<K(==), V>(d: Dict<K, V>, item: (K, V)): Dict<K, V> {
    if Get(d, item.0).Some? then d else d + [item]
  }

  function FirstWins<K(==), V>(items: seq<(K, V)>): Dict<K, V> {
    if items == [] then [] else AddNew(FirstWins(items[..|items| - 1]), items[|items| - 1])
  }

  lemma {:induction false} GetAppend<K, V>(d: Dict<K, V>, item: (K, V), k: K)
    ensures Get(d + [item], k) == if Get(d, k).Some? then Get(d, k) else if item.0 == k then Some(item.1) else None
  {
    if d == [] {
      assert d + [item] == [item] && [item][1..] == [];
    } else {
      assert (d + [item])[1..] == d[1..] + [item];
      GetAppend(d[1..], item, k);
    }
  }

  // Building the dictionary loses nothing a linear scan of all items would find.
  lemma {:induction false} FirstWinsIsScan<K, V>(items: seq<(K, V)>, k: K)
    ensures Get(FirstWins(items), k) == Get(items, k)
  {
    if items != [] {
      var front, last := items[..|items| - 1], items[|items| - 1];
      assert items == front + [last];
      FirstWinsIsScan(front, k);
      FirstWinsIsScan(front, last.0);
      GetAppend(front, last, k);
      GetAppend(FirstWins(front), last, k);
    }
  }

  lemma FirstWinsSnoc<K, V>(items: seq<(K, V)>, item: (K, V))
    ensures FirstWins(items + [item]) == AddNew(FirstWins(items), item)
  {
    assert (items + [item])[..|items|] == items;
  }

  // ----- What the indexes are built from, in the order it is met -----

  type Owner = (string, string)             // (abi_id, name)
  type IdlKey = (string, string)            // (program_id, discriminator)
  type IdlEntry = (string, string, Layout)  // (abi_id, name, struct)

  function EntryItem(o: Oracles, sig: Sig, id: string, e: AbiEntry): seq<(string, Owner)> {
    if e.kind != KindOf(sig) || SigOf(o, sig, e).None? then [] else [(SigOf(o, sig, e).value, (id, e.name))]
  }

  function EntryItems(o: Oracles, sig: Sig, id: string, es: seq<AbiEntry>): seq<(string, Owner)> {
    if es == [] then [] else EntryItems(o, sig, id, es[..|es| - 1]) + EntryItem(o, sig, id, es[|es| - 1])
  }

  function SigItems(o: Oracles, sig: Sig, abis: seq<Abi>): seq<(string, Owner)> {
    if abis == [] then []
    else
      var a := abis[|abis| - 1];
      SigItems(o, sig, abis[..|abis| - 1]) + EntryItems(o, sig, a.id, EntriesOf(a.body))
  }

  function DiscOf(o: Oracles, sig: Sig, name: string): string {
    if sig == Topic then o.eventDisc(name) else o.callDisc(name)
  }

  function IdlItemsOf(sig: Sig, a: Abi): (r: seq<IdlItem>)
    ensures r != [] ==> a.body.Document?
  {
    if a.kind != "solana_idl" || a.body.Entries? || a.body.programId == "" then []
    else if sig == Topic then a.body.events else a.body.instructions
  }

  function IdlEntryItem(o: Oracles, sig: Sig, a: Abi, it: IdlItem): seq<(IdlKey, IdlEntry)>
    requires a.body.Document?
  {
    match BuildStruct(it.fields, a.body.types)
    case None => []
    case Some(l) => [((a.body.programId, DiscOf(o, sig, it.name)), (a.id, it.name, l))]
  }

  function IdlEntryItems(o: Oracles, sig: Sig, a: Abi, items: seq<IdlItem>): seq<(IdlKey, IdlEntry)>
    requires items != [] ==> a.body.Document?
  {
    if items == [] then []
    else IdlEntryItems(o, sig, a, items[..|items| - 1]) + IdlEntryItem(o, sig, a, items[|items| - 1])
  }

  function IdlItems(o: Oracles, sig: Sig, abis: seq<Abi>): seq<(IdlKey, IdlEntry)> {
    if abis == [] then []
    else
      var a := abis[|abis| - 1];
      IdlItems(o, sig, abis[..|abis| - 1]) + IdlEntryItems(o, sig, a, IdlItemsOf(sig, a))
  }

  // ----- Decoders -----

  datatype Decoder = EventDecoder(entry: AbiEntry) | CallDecoder(entry: AbiEntry)

  // `Raised` stands for AbiNotFound, KeyError, or a signature that fails to compute.
  datatype Found<T> = Hit(value: T) | Miss | Raised

  function MakeDecoder(sig: Sig, e: AbiEntry): Decoder {
    if sig == Topic then EventDecoder(e) else CallDecoder(e)
  }

  // The first entry of the kind with the signature; raises on a malformed entry
  // met before it, or when there is none.
  function ScanEntries(o: Oracles, sig: Sig, es: seq<AbiEntry>, key: string): Found<Decoder> {
    if es == [] then Raised
    else if es[0].kind != KindOf(sig) then ScanEntries(o, sig, es[1..], key)
    else match SigOf(o, sig, es[0])
      case None => Raised
      case Some(t) => if t == key then Hit(MakeDecoder(sig, es[0])) else ScanEntries(o, sig, es[1..], key)
  }

  // _abis.get(id)
  function AbiOf(abis: seq<Abi>, id: string): (r: Option<Abi>)
    ensures r.Some? ==> r.value in abis && r.value.id == id
    ensures r.None? ==> forall a :: a in abis ==> a.id != id
  {
    if abis == [] then None else if abis[0].id == id then Some(abis[0]) else AbiOf(abis[1..], id)
  }

  function DecoderOf(o: Oracles, sig: Sig, abis: seq<Abi>, id: string, key: string): Found<Decoder> {
    match AbiOf(abis, id)
    case None => Raised
    case Some(a) => ScanEntries(o, sig, EntriesOf(a.body), key)
  }

  // ----- The references: linear scans of the current ABIs -----

  function LookupSig(o: Oracles, sig: Sig, abis: seq<Abi>, key: string): Found<(string, Decoder)> {
    match Get(SigItems(o, sig, abis), key)
    case None => Miss
    case Some(owner) =>
      match DecoderOf(o, sig, abis, owner.0, key)
      case Hit(d) => Hit((owner.1, d))
      case Miss => Miss
      case Raised => Raised
  }

  function LookupIdl(o: Oracles, sig: Sig, abis: seq<Abi>, key: IdlKey): Found<(string, Layout)> {
    match Get(IdlItems(o, sig, abis), key)
    case None => Miss
    case Some(entry) => Hit((entry.1, entry.2))
  }

  // The signature key of the first index item of an (abi_id, name).
  function KeyFor(items: Dict<string, Owner>, owner: Owner): Option<string> {
    if items == [] then None else if items[0].1 == owner then Some(items[0].0) else KeyFor(items[1..], owner)
  }

  predicate UniqueIds(abis: seq<Abi>) {
    forall i, j :: 0 <= i < j < |abis| ==> abis[i].id != abis[j].id
  }

  // A decoder of the other sort is cached under the key.
  predicate Crossed(decoders: map<(string, string), Decoder>, sig: Sig, id: string, key: string) {
    (id, key) in decoders && decoders[(id, key)].EventDecoder? != (sig == Topic)
  }

  function SortOf(d: Decoder): Sig {
    if d.EventDecoder? then Topic else Selector
  }

  // Every cached decoder is what a scan of its ABI's current body would build.
  ghost predicate DecodersCurrent(o: Oracles, abis: seq<Abi>, decoders: map<(string, string), Decoder>) {
    forall id, key {:trigger (id, key) in decoders} :: (id, key) in decoders ==>
      DecoderOf(o, SortOf(decoders[(id, key)]), abis, id, key) == Hit(decoders[(id, key)])
  }

  ghost predicate HashesCurrent(o: Oracles, abis: seq<Abi>, hashes: map<string, string>) {
    && (forall id :: id in hashes <==> AbiOf(abis, id).Some?)
    && (forall id :: id in hashes ==> hashes[id] == o.bodyHash(AbiOf(abis, id).value.body))
  }

  function HashesOf(o: Oracles, abis: seq<Abi>): map<string, string> {
    map a | a in abis :: a.id := o.bodyHash(AbiOf(abis, a.id).value.body)
  }

  // The ABI is deleted, or republished with a body of another hash.
  predicate Stale(o: Oracles, hashes: map<string, string>, next: seq<Abi>, id: string) {
    id in hashes && (AbiOf(next, id).None? || o.bodyHash(AbiOf(next, id).value.body) != hashes[id])
  }

  lemma HashesOfCurrent(o: Oracles, abis: seq<Abi>)
    ensures HashesCurrent(o, abis, HashesOf(o, abis))
  {
    forall id ensures id in HashesOf(o, abis) <==> AbiOf(abis, id).Some? {
      if AbiOf(abis, id).Some? {
        assert AbiOf(abis, id).value in abis;
      }
    }
  }

  // Decoders that are not evicted stay current: equal hashes mean equal bodies.
  lemma DecodersSurvive(o: Oracles, previous: seq<Abi>, next: seq<Abi>, hashes: map<string, string>,
                        decoders: map<(string, string), Decoder>)
    requires Sound(o) && HashesCurrent(o, previous, hashes) && DecodersCurrent(o, previous, decoders)
    ensures DecodersCurrent(o, next, map k | k in decoders && !Stale(o, hashes, next, k.0) :: decoders[k])
  {
    hide AbiOf, ScanEntries;
    forall id, key | (id, key) in decoders && !Stale(o, hashes, next, id)
      ensures DecoderOf(o, SortOf(decoders[(id, key)]), next, id, key) == Hit(decoders[(id, key)])
    {
      assert AbiOf(previous, id).Some?;
      assert AbiOf(next, id).Some? && AbiOf(next, id).value.body == AbiOf(previous, id).value.body;
    }
  }

  class AbiRegistry {
    const o: Oracles
    var abis: seq<Abi>                              // the ordered dict id -> abi
    var hashes: map<string, string>
    var decoders: map<(string, string), Decoder>
    var topic0Index: Dict<string, Owner>
    var topic0Cache: map<string, (string, Decoder)>
    var selectorIndex: Dict<string, Owner>
    var selectorCache: map<string, (string, Decoder)>
    var anchorIndex: Dict<IdlKey, IdlEntry>
    var anchorCache: map<IdlKey, (string, Layout)>
    var anchorCallIndex: Dict<IdlKey, IdlEntry>
    var anchorCallCache: map<IdlKey, (string, Layout)>

    ghost predicate IndexesCurrent()
      reads this
    {
      && topic0Index == FirstWins(SigItems(o, Topic, abis))
      && selectorIndex == FirstWins(SigItems(o, Selector, abis))
      && anchorIndex == FirstWins(IdlItems(o, Topic, abis))
      && anchorCallIndex == FirstWins(IdlItems(o, Selector, abis))
    }

    ghost predicate CachesCurrent()
      reads this
    {
      && (forall k :: k in topic0Cache ==> LookupSig(o, Topic, abis, k) == Hit(topic0Cache[k]))
      && (forall k :: k in selectorCache ==> LookupSig(o, Selector, abis, k) == Hit(selectorCache[k]))
      && (forall k :: k in anchorCache ==> LookupIdl(o, Topic, abis, k) == Hit(anchorCache[k]))
      && (forall k :: k in anchorCallCache ==> LookupIdl(o, Selector, abis, k) == Hit(anchorCallCache[k]))
    }

    ghost predicate Valid()
      reads this
    {
      && Sound(o) && DecodersCurrent(o, abis, decoders) && HashesCurrent(o, abis, hashes)
      && IndexesCurrent() && CachesCurrent()
    }

    constructor (o: Oracles)
      requires Sound(o)
      ensures Valid() && this.o == o && abis == []
    {
      this.o := o;
      abis, hashes, decoders := [], map[], map[];
      topic0Index, topic0Cache, selectorIndex, selectorCache := [], map[], [], map[];
      anchorIndex, anchorCache, anchorCallIndex, anchorCallCache := [], map[], [], map[];
    }

    // ----- refresh -----

    // Only entries of the evicted ABI go.
    method Evict(id: string)
      modifies this`decoders, this`hashes
      ensures hashes == old(hashes) - {id}
      ensures decoders == map k | k in old(decoders) && k.0 != id :: old(decoders)[k]
    {
      var todo := decoders.Keys;
      while todo != {}
        invariant todo <= decoders.Keys && hashes == old(hashes)
        invariant forall k :: k in decoders <==> k in old(decoders) && (k.0 != id || k in todo)
        invariant forall k :: k in decoders ==> decoders[k] == old(decoders)[k]
        decreases |todo|
      {
        var k :| k in todo;
        todo := todo - {k};
        if k.0 == id {
          decoders := decoders - {k};
        }
      }
      hashes := hashes - {id};
    }

    // Evict what was deleted or republished with another body.
    method EvictStale(next: seq<Abi>)
      modifies this`decoders, this`hashes
      ensures decoders == map k | k in old(decoders) && !Stale(o, old(hashes), next, k.0) :: old(decoders)[k]
    {
      var todo := hashes.Keys;
      while todo != {}
        invariant todo <= hashes.Keys
        invariant forall id :: id in todo ==> id in old(hashes) && hashes[id] == old(hashes)[id]
        invariant forall k :: k in decoders <==>
                    k in old(decoders) && (k.0 in todo || !Stale(o, old(hashes), next, k.0))
        invariant forall k :: k in decoders ==> decoders[k] == old(decoders)[k]
        decreases |todo|
      {
        var id :| id in todo;
        todo := todo - {id};
        var a := AbiOf(next, id);
        if a.None? {
          Evict(id);
        } else if o.bodyHash(a.value.body) != hashes[id] {
          Evict(id);
        }
      }
    }

    // The two signature indexes are rebuilt by the same loop.
    method RebuildSigIndex(sig: Sig) returns (idx: Dict<string, Owner>)
      ensures idx == FirstWins(SigItems(o, sig, abis))
    {
      hide FirstWins, AddNew, SigItems, EntryItems;
      idx := [];
      NoItems(o, sig);
      for i := 0 to |abis|
        invariant idx == FirstWins(SigItems(o, sig, abis[..i]))
      {
        var id, es := abis[i].id, EntriesOf(abis[i].body);
        ghost var before := SigItems(o, sig, abis[..i]);
        NoEntries(o, sig, id);
        assert before + [] == before;
        for j := 0 to |es|
          invariant idx == FirstWins(before + EntryItems(o, sig, id, es[..j]))
        {
          assert es[..j + 1] == es[..j] + [es[j]];
          OneMoreEntry(o, sig, id, es[..j], es[j], before);
          if es[j].kind == KindOf(sig) {
            var t := SigOf(o, sig, es[j]);
            if t.Some? {
              idx := AddNew(idx, (t.value, (id, es[j].name)));
            }
          }
        }
        assert es[..|es|] == es;
        assert abis[..i + 1] == abis[..i] + [abis[i]];
        OneMoreAbi(o, sig, abis[..i], abis[i]);
      }
      assert abis[..|abis|] == abis;
    }

    method RebuildIdlIndex(sig: Sig) returns (idx: Dict<IdlKey, IdlEntry>)
      ensures idx == FirstWins(IdlItems(o, sig, abis))
    {
      hide FirstWins, AddNew, IdlItems, IdlEntryItems;
      idx := [];
      NoItems(o, sig);
      for i := 0 to |abis|
        invariant idx == FirstWins(IdlItems(o, sig, abis[..i]))
      {
        var a := abis[i];
        var items := IdlItemsOf(sig, a);
        ghost var before := IdlItems(o, sig, abis[..i]);
        NoIdlEntries(o, sig, a);
        assert before + [] == before;
        for j := 0 to |items|
          invariant idx == FirstWins(before + IdlEntryItems(o, sig, a, items[..j]))
        {
          assert items[..j + 1] == items[..j] + [items[j]];
          OneMoreIdlEntry(o, sig, a, items[..j], items[j], before);
          var struct := BuildStruct(items[j].fields, a.body.types);
          if struct.Some? {
            var key := (a.body.programId, DiscOf(o, sig, items[j].name));
            idx := AddNew(idx, (key, (a.id, items[j].name, struct.value)));
          }
        }
        assert items[..|items|] == items;
        assert abis[..i + 1] == abis[..i] + [abis[i]];
        OneMoreIdl(o, sig, abis[..i], a);
      }
      assert abis[..|abis|] == abis;
    }

    method RebuildIndexes()
      modifies this`topic0Index, this`topic0Cache, this`selectorIndex, this`selectorCache
      modifies this`anchorIndex, this`anchorCache, this`anchorCallIndex, this`anchorCallCache
      ensures IndexesCurrent() && CachesCurrent()
    {
      hide FirstWins, SigItems, IdlItems, LookupSig, LookupIdl;
      topic0Index := RebuildSigIndex(Topic);
      topic0Cache := map[];
      selectorIndex := RebuildSigIndex(Selector);
      selectorCache := map[];
      anchorIndex := RebuildIdlIndex(Topic);
      anchorCache := map[];
      anchorCallIndex := RebuildIdlIndex(Selector);
      anchorCallCache := map[];
    }

    // After a refresh nothing of a superseded or deleted body is left anywhere,
    // and decoders of unchanged bodies are kept.
    method Refresh(next: seq<Abi>)
      requires Valid() && UniqueIds(next)
      modifies this
      ensures Valid() && abis == next
      ensures decoders == map k | k in old(decoders) && !Stale(o, old(hashes), next, k.0) :: old(decoders)[k]
    {
      hide DecodersCurrent, HashesCurrent, HashesOf, Stale, IndexesCurrent, CachesCurrent;
      DecodersSurvive(o, abis, next, hashes, decoders);
      HashesOfCurrent(o, next);
      EvictStale(next);
      abis := next;
      hashes := HashesOf(o, next);
      RebuildIndexes();
    }

    // ----- Decoders and lookups -----

    // Cached or not, the answer is that of a scan of the current body, except when
    // the one dictionary already holds a decoder of the other sort under the same
    // key; then the scan would have found none.
    method GetDecoder(sig: Sig, id: string, signature: string) returns (r: Found<Decoder>)
      requires Valid()
      modifies this`decoders
      ensures Valid()
      ensures var key := Lower(signature);
              var scanned := DecoderOf(o, sig, abis, id, key);
              if Crossed(old(decoders), sig, id, key) then r == Hit(old(decoders)[(id, key)]) && !scanned.Hit?
              else r == scanned
      ensures decoders == if r.Hit? then old(decoders)[(id, Lower(signature)) := r.value] else old(decoders)
    {
      hide SigItems, IdlItems, FirstWins, LookupSig, LookupIdl;
      var key := Lower(signature);
      if (id, key) in decoders {
        if Crossed(decoders, sig, id, key) {
          NoDecoderOfBothSorts(o, sig, abis, id, key);
        }
        return Hit(decoders[(id, key)]);
      }
      var a := AbiOf(abis, id);
      if a.None? {
        return Raised;
      }
      r := ScanEntries(o, sig, EntriesOf(a.value.body), key);
      if r.Hit? {
        ScanKeepsSort(o, sig, EntriesOf(a.value.body), key);
        decoders := decoders[(id, key) := r.value];
      }
    }

    method LookupEventByTopic0(topic0: string) returns (r: Found<(string, Decoder)>)
      requires Valid()
      modifies this`decoders, this`topic0Cache
      ensures Valid() && r == LookupSig(o, Topic, abis, Lower(topic0))
    {
      hide SigItems, IdlItems, FirstWins, LookupIdl, DecoderOf;
      var key := Lower(topic0);
      if key in topic0Cache {
        return Hit(topic0Cache[key]);
      }
      var entry := Get(topic0Index, key);
      FirstWinsIsScan(SigItems(o, Topic, abis), key);
      if entry.None? {
        return Miss;
      }
      var (id, name) := entry.value;
      SortOfKey(o, Topic, abis, key);
      assert OtherSig(Topic) == Selector && !DecoderOf(o, Selector, abis, id, key).Hit?;
      assert !Crossed(decoders, Topic, id, key);
      var d := GetDecoder(Topic, id, topic0);
      if !d.Hit? {
        return if d.Miss? then Miss else Raised;
      }
      r := Hit((name, d.value));
      topic0Cache := topic0Cache[key := (name, d.value)];
    }

    method LookupFunctionBySelector(selector: string) returns (r: Found<(string, Decoder)>)
      requires Valid()
      modifies this`decoders, this`selectorCache
      ensures Valid() && r == LookupSig(o, Selector, abis, Lower(selector))
    {
      hide SigItems, IdlItems, FirstWins, LookupIdl, DecoderOf;
      var key := Lower(selector);
      if key in selectorCache {
        return Hit(selectorCache[key]);
      }
      var entry := Get(selectorIndex, key);
      FirstWinsIsScan(SigItems(o, Selector, abis), key);
      if entry.None? {
        return Miss;
      }
      var (id, name) := entry.value;
      SortOfKey(o, Selector, abis, key);
      assert OtherSig(Selector) == Topic && !DecoderOf(o, Topic, abis, id, key).Hit?;
      assert !Crossed(decoders, Selector, id, key);
      var d := GetDecoder(Selector, id, selector);
      if !d.Hit? {
        return if d.Miss? then Miss else Raised;
      }
      r := Hit((name, d.value));
      selectorCache := selectorCache[key := (name, d.value)];
    }

    method LookupIdlEventByDiscriminator(program: string, disc: string) returns (r: Found<(string, Layout)>)
      requires Valid()
      modifies this`anchorCache
      ensures Valid() && r == LookupIdl(o, Topic, abis, (program, disc))
    {
      hide SigItems, IdlItems, FirstWins, LookupSig, DecoderOf;
      var key := (program, disc);
      if key in anchorCache {
        return Hit(anchorCache[key]);
      }
      var entry := Get(anchorIndex, key);
      FirstWinsIsScan(IdlItems(o, Topic, abis), key);
      if entry.None? {
        return Miss;
      }
      r := Hit((entry.value.1, entry.value.2));
      anchorCache := anchorCache[key := r.value];
    }

    method LookupIdlCallByDiscriminator(program: string, disc: string) returns (r: Found<(string, Layout)>)
      requires Valid()
      modifies this`anchorCallCache
      ensures Valid() && r == LookupIdl(o, Selector, abis, (program, disc))
    {
      hide SigItems, IdlItems, FirstWins, LookupSig, DecoderOf;
      var key := (program, disc);
      if key in anchorCallCache {
        return Hit(anchorCallCache[key]);
      }
      var entry := Get(anchorCallIndex, key);
      FirstWinsIsScan(IdlItems(o, Selector, abis), key);
      if entry.None? {
        return Miss;
      }
      r := Hit((entry.value.1, entry.value.2));
      anchorCallCache := anchorCallCache[key := r.value];
    }

    method EventTopic0For(id: string, name: string) returns (r: Option<string>)
      requires Valid()
      ensures r == KeyFor(FirstWins(SigItems(o, Topic, abis)), (id, name))
    {
      hide SigItems, IdlItems, FirstWins, LookupSig, LookupIdl, DecoderOf;
      for i := 0 to |topic0Index|
        invariant KeyFor(topic0Index[i..], (id, name)) == KeyFor(topic0Index, (id, name))
      {
        if topic0Index[i].1 == (id, name) {
          return Some(topic0Index[i].0);
        }
        assert topic0Index[i..][1..] == topic0Index[i + 1..];
      }
      return None;
    }
  }

  // ----- Rebuilding, one item at a time -----

  lemma NoItems(o: Oracles, sig: Sig)
    ensures SigItems(o, sig, []) == [] && IdlItems(o, sig, []) == []
    ensures FirstWins<string, Owner>([]) == [] && FirstWins<IdlKey, IdlEntry>([]) == []
  {
  }

  lemma NoEntries(o: Oracles, sig: Sig, id: string)
    ensures EntryItems(o, sig, id, []) == []
  {
  }

  lemma NoIdlEntries(o: Oracles, sig: Sig, a: Abi)
    ensures IdlEntryItems(o, sig, a, []) == []
  {
  }

  lemma OneMoreEntry(o: Oracles, sig: Sig, id: string, es: seq<AbiEntry>, e: AbiEntry, before: seq<(string, Owner)>)
    ensures var items := before + EntryItems(o, sig, id, es);
            FirstWins(before + EntryItems(o, sig, id, es + [e]))
            == if e.kind == KindOf(sig) && SigOf(o, sig, e).Some?
               then AddNew(FirstWins(items), (SigOf(o, sig, e).value, (id, e.name))) else FirstWins(items)
  {
    hide FirstWins, AddNew;
    assert (es + [e])[..|es|] == es;
    var items, more := EntryItems(o, sig, id, es), EntryItem(o, sig, id, e);
    ConcatAssociates(before, items, more);
    if more == [] {
      assert items + more == items;
    } else {
      FirstWinsSnoc(before + items, more[0]);
    }
  }

  lemma OneMoreAbi(o: Oracles, sig: Sig, abis: seq<Abi>, a: Abi)
    ensures SigItems(o, sig, abis + [a]) == SigItems(o, sig, abis) + EntryItems(o, sig, a.id, EntriesOf(a.body))
  {
    assert (abis + [a])[..|abis|] == abis;
  }

  lemma OneMoreIdlEntry(o: Oracles, sig: Sig, a: Abi, its: seq<IdlItem>, it: IdlItem, before: seq<(IdlKey, IdlEntry)>)
    requires a.body.Document?
    ensures var items := before + IdlEntryItems(o, sig, a, its);
            var l := BuildStruct(it.fields, a.body.types);
            FirstWins(before + IdlEntryItems(o, sig, a, its + [it]))
            == if l.Some?
               then AddNew(FirstWins(items), ((a.body.programId, DiscOf(o, sig, it.name)), (a.id, it.name, l.value)))
               else FirstWins(items)
  {
    hide FirstWins, AddNew, BuildStruct;
    assert (its + [it])[..|its|] == its;
    var items, more := IdlEntryItems(o, sig, a, its), IdlEntryItem(o, sig, a, it);
    ConcatAssociates(before, items, more);
    if more == [] {
      assert items + more == items;
    } else {
      FirstWinsSnoc(before + items, more[0]);
    }
  }

  lemma OneMoreIdl(o: Oracles, sig: Sig, abis: seq<Abi>, a: Abi)
    ensures IdlItems(o, sig, abis + [a]) == IdlItems(o, sig, abis) + IdlEntryItems(o, sig, a, IdlItemsOf(sig, a))
  {
    assert (abis + [a])[..|abis|] == abis;
  }

  // ----- Decoders of an index key -----

  lemma {:induction false} ScanKeepsSort(o: Oracles, sig: Sig, es: seq<AbiEntry>, key: string)
    ensures var r := ScanEntries(o, sig, es, key);
            r.Hit? ==> (r.value.EventDecoder? <==> sig == Topic) && SigOf(o, sig, r.value.entry) == Some(key)
                       && r.value.entry in es && r.value.entry.kind == KindOf(sig)
    ensures !ScanEntries(o, sig, es, key).Miss?
  {
    if es != [] {
      ScanKeepsSort(o, sig, es[1..], key);
    }
  }

  lemma {:induction false} EntryItemsHaveSource(o: Oracles, sig: Sig, id: string, es: seq<AbiEntry>,
                                                item: (string, Owner))
    requires item in EntryItems(o, sig, id, es)
    ensures exists e :: e in es && e.kind == KindOf(sig) && SigOf(o, sig, e) == Some(item.0) && item.1 == (id, e.name)
  {
    var front, last := es[..|es| - 1], es[|es| - 1];
    if item in EntryItems(o, sig, id, front) {
      EntryItemsHaveSource(o, sig, id, front, item);
    } else {
      assert item in EntryItem(o, sig, id, last);
    }
  }

  lemma {:induction false} SigItemsHaveSource(o: Oracles, sig: Sig, abis: seq<Abi>, item: (string, Owner))
    requires item in SigItems(o, sig, abis)
    ensures exists a, e :: a in abis && a.id == item.1.0 && e in EntriesOf(a.body)
              && e.kind == KindOf(sig) && SigOf(o, sig, e) == Some(item.0) && e.name == item.1.1
  {
    var front, last := abis[..|abis| - 1], abis[|abis| - 1];
    if item in SigItems(o, sig, front) {
      SigItemsHaveSource(o, sig, front, item);
    } else {
      EntryItemsHaveSource(o, sig, last.id, EntriesOf(last.body), item);
    }
  }

  lemma {:induction false} GetIsMember<K, V>(d: Dict<K, V>, k: K)
    ensures Get(d, k).Some? ==> (k, Get(d, k).value) in d
  {
    if d != [] {
      GetIsMember(d[1..], k);
    }
  }

  // A key of one index is never the key of a decoder of the other sort.
  lemma SortOfKey(o: Oracles, sig: Sig, abis: seq<Abi>, key: string)
    requires Sound(o) && Get(SigItems(o, sig, abis), key).Some?
    ensures forall id :: !DecoderOf(o, OtherSig(sig), abis, id, key).Hit?
  {
    hide SigItems;
    GetIsMember(SigItems(o, sig, abis), key);
    SigItemsHaveSource(o, sig, abis, (key, Get(SigItems(o, sig, abis), key).value));
    var other := OtherSig(sig);
    forall id ensures !DecoderOf(o, other, abis, id, key).Hit? {
      if AbiOf(abis, id).Some? {
        ScanKeepsSort(o, other, EntriesOf(AbiOf(abis, id).value.body), key);
      }
    }
  }

  lemma NoDecoderOfBothSorts(o: Oracles, sig: Sig, abis: seq<Abi>, id: string, key: string)
    requires Sound(o) && DecoderOf(o, OtherSig(sig), abis, id, key).Hit?
    ensures !DecoderOf(o, sig, abis, id, key).Hit?
  {
    var es := EntriesOf(AbiOf(abis, id).value.body);
    ScanKeepsSort(o, Topic, es, key);
    ScanKeepsSort(o, Selector, es, key);
  }

  // The exception does occur: whoever asks for an event decoder by a function's
  // selector after that function's decoder was built is handed the call decoder,
  // where an empty cache would have raised.
  method SelectorTakenForTopic(r: AbiRegistry, id: string, selector: string) returns (d: Found<Decoder>)
    requires r.Valid() && DecoderOf(r.o, Selector, r.abis, id, Lower(selector)).Hit?
    modifies r`decoders
    ensures d.Hit? && d.value.CallDecoder? && DecoderOf(r.o, Topic, r.abis, id, Lower(selector)) == Raised
  {
    hide SigItems, IdlItems, FirstWins, LookupSig, LookupIdl;
    var key := Lower(selector);
    NoDecoderOfBothSorts(r.o, Topic, r.abis, id, key);
    ScanKeepsSort(r.o, Topic, EntriesOf(AbiOf(r.abis, id).value.body), key);
    ScanKeepsSort(r.o, Selector, EntriesOf(AbiOf(r.abis, id).value.body), key);
    var call := r.GetDecoder(Selector, id, selector);
    assert !Crossed(r.decoders, Selector, id, key);
    d := r.GetDecoder(Topic, id, selector);
  }

  // ----- What a lookup finds, in terms of the ABIs alone -----

  predicate Signs(o: Oracles, sig: Sig, e: AbiEntry, key: string) {
    e.kind == KindOf(sig) && SigOf(o, sig, e) == Some(key)
  }

  predicate Malformed(o: Oracles, sig: Sig, e: AbiEntry) {
    e.kind == KindOf(sig) && SigOf(o, sig, e).None?
  }

  // An entry signs a key when it is of the sort and its signature, in lower case, is the
  // key; it is malformed when the signature fails to compute.
  lemma EntryMeaning(o: Oracles, e: AbiEntry, key: string)
    ensures Signs(o, Topic, e, key) <==> e.kind == "event" && o.topic0(e).Some? && Lower(o.topic0(e).value) == key
    ensures Signs(o, Selector, e, key)
            <==> e.kind == "function" && o.selector(e).Some? && Lower(o.selector(e).value) == key
    ensures Malformed(o, Topic, e) <==> e.kind == "event" && o.topic0(e).None?
    ensures Malformed(o, Selector, e) <==> e.kind == "function" && o.selector(e).None?
    ensures MakeDecoder(Topic, e) == EventDecoder(e) && MakeDecoder(Selector, e) == CallDecoder(e)
  {
  }

  // A list holds its entries in order, a single document is its only entry.
  lemma EntriesMeaning(es: seq<AbiEntry>, d: Body)
    ensures EntriesOf(Entries(es)) == es
    ensures d.Document? ==> EntriesOf(d) == [d.entry]
  {
  }

  // The first entry from index i on with the signature.
  function FirstFrom(o: Oracles, sig: Sig, es: seq<AbiEntry>, key: string, i: nat): (r: Option<nat>)
    requires i <= |es|
    ensures r.Some? ==> i <= r.value < |es| && Signs(o, sig, es[r.value], key)
    ensures r.Some? ==> forall j :: i <= j < r.value ==> !Signs(o, sig, es[j], key)
    ensures r.None? ==> forall j :: i <= j < |es| ==> !Signs(o, sig, es[j], key)
    decreases |es| - i
  {
    if i == |es| then None else if Signs(o, sig, es[i], key) then Some(i) else FirstFrom(o, sig, es, key, i + 1)
  }

  function FirstAt(o: Oracles, sig: Sig, es: seq<AbiEntry>, key: string): Option<nat> {
    FirstFrom(o, sig, es, key, 0)
  }

  // The first ABI from index i on with an entry of the signature.
  function FirstAbiFrom(o: Oracles, sig: Sig, abis: seq<Abi>, key: string, i: nat): (r: Option<nat>)
    requires i <= |abis|
    ensures r.Some? ==> i <= r.value < |abis| && FirstAt(o, sig, EntriesOf(abis[r.value].body), key).Some?
    ensures r.Some? ==> forall j :: i <= j < r.value ==> FirstAt(o, sig, EntriesOf(abis[j].body), key).None?
    ensures r.None? ==> forall j :: i <= j < |abis| ==> FirstAt(o, sig, EntriesOf(abis[j].body), key).None?
    decreases |abis| - i
  {
    if i == |abis| then None
    else if FirstAt(o, sig, EntriesOf(abis[i].body), key).Some? then Some(i)
    else FirstAbiFrom(o, sig, abis, key, i + 1)
  }

  function FirstAbi(o: Oracles, sig: Sig, abis: seq<Abi>, key: string): Option<nat> {
    FirstAbiFrom(o, sig, abis, key, 0)
  }

  lemma {:induction false} GetConcat<K, V>(a: Dict<K, V>, b: Dict<K, V>, k: K)
    ensures Get(a + b, k) == if Get(a, k).Some? then Get(a, k) else Get(b, k)
  {
    if a == [] {
      assert a + b == b;
    } else {
      assert (a + b)[1..] == a[1..] + b;
      GetConcat(a[1..], b, k);
    }
  }

  lemma LastSigns(o: Oracles, sig: Sig, id: string, e: AbiEntry, key: string)
    ensures Get(EntryItem(o, sig, id, e), key) == if Signs(o, sig, e, key) then Some((id, e.name)) else None
  {
  }

  lemma {:induction false} GetEntryItems(o: Oracles, sig: Sig, id: string, es: seq<AbiEntry>, n: nat, key: string)
    requires n <= |es|
    ensures Get(EntryItems(o, sig, id, es[..n]), key)
            == var r := FirstAt(o, sig, es, key);
               if r.Some? && r.value < n then Some((id, es[r.value].name)) else None
  {
    hide FirstFrom, Signs, EntryItem;
    if n > 0 {
      GetEntryItems(o, sig, id, es, n - 1, key);
      assert es[..n][..n - 1] == es[..n - 1];
      GetConcat(EntryItems(o, sig, id, es[..n - 1]), EntryItem(o, sig, id, es[n - 1]), key);
      LastSigns(o, sig, id, es[n - 1], key);
    }
  }

  // What one ABI contributes under a key.
  function OwnerIn(o: Oracles, sig: Sig, a: Abi, key: string): (r: Option<Owner>)
    ensures r.Some? <==> FirstAt(o, sig, EntriesOf(a.body), key).Some?
  {
    var es := EntriesOf(a.body);
    match FirstAt(o, sig, es, key)
    case None => None
    case Some(j) => Some((a.id, es[j].name))
  }

  lemma GetLastAbi(o: Oracles, sig: Sig, abis: seq<Abi>, a: Abi, key: string)
    ensures Get(SigItems(o, sig, abis + [a]), key)
            == if Get(SigItems(o, sig, abis), key).Some? then Get(SigItems(o, sig, abis), key)
               else OwnerIn(o, sig, a, key)
  {
    hide Get, SigItems, EntryItems;
    var es := EntriesOf(a.body);
    OneMoreAbi(o, sig, abis, a);
    GetEntryItems(o, sig, a.id, es, |es|, key);
    assert es[..|es|] == es;
    GetConcat(SigItems(o, sig, abis), EntryItems(o, sig, a.id, es), key);
  }

  lemma FirstAbiAt(o: Oracles, sig: Sig, abis: seq<Abi>, key: string, i: nat)
    requires i < |abis|
    ensures var r := FirstAbi(o, sig, abis, key);
            && (r == Some(i) <==> OwnerIn(o, sig, abis[i], key).Some? && !(r.Some? && r.value < i))
            && (r.Some? ==> r.value < |abis| && OwnerIn(o, sig, abis[r.value], key).Some?)
  {
    hide FirstAt;
  }

  lemma {:induction false} GetSigItems(o: Oracles, sig: Sig, abis: seq<Abi>, n: nat, key: string)
    requires n <= |abis|
    ensures FirstAbi(o, sig, abis, key).Some? ==> FirstAbi(o, sig, abis, key).value < |abis|
    ensures Get(SigItems(o, sig, abis[..n]), key)
            == var r := FirstAbi(o, sig, abis, key);
               if r.Some? && r.value < n then OwnerIn(o, sig, abis[r.value], key) else None
  {
    hide FirstAbi, SigItems, OwnerIn;
    if n == 0 {
      NoItems(o, sig);
      FirstAbiInRange(o, sig, abis, key);
    } else {
      hide Get;
      GetSigItems(o, sig, abis, n - 1, key);
      GetLastAbi(o, sig, abis[..n - 1], abis[n - 1], key);
      FirstAbiAt(o, sig, abis, key, n - 1);
      assert abis[..n - 1] + [abis[n - 1]] == abis[..n];
    }
  }

  lemma FirstAbiInRange(o: Oracles, sig: Sig, abis: seq<Abi>, key: string)
    ensures FirstAbi(o, sig, abis, key).Some? ==> FirstAbi(o, sig, abis, key).value < |abis|
  {
    hide FirstAt;
  }

  lemma {:induction false} ScanFindsFirst(o: Oracles, sig: Sig, es: seq<AbiEntry>, key: string, j: nat)
    requires j < |es| && Signs(o, sig, es[j], key)
    requires forall i :: 0 <= i < j ==> !Signs(o, sig, es[i], key)
    ensures ScanEntries(o, sig, es, key)
            == if exists i :: 0 <= i < j && Malformed(o, sig, es[i]) then Raised else Hit(MakeDecoder(sig, es[j]))
    decreases j
  {
    if j > 0 {
      if !Malformed(o, sig, es[0]) {
        ScanFindsFirst(o, sig, es[1..], key, j - 1);
        assert forall i :: 0 < i < j ==> es[i] == es[1..][i - 1];
      }
    }
  }

  lemma {:induction false} AbiOfUnique(abis: seq<Abi>, i: nat)
    requires UniqueIds(abis) && i < |abis|
    ensures AbiOf(abis, abis[i].id) == Some(abis[i])
  {
    if i > 0 {
      AbiOfUnique(abis[1..], i - 1);
    }
  }

  // Event and call lookups return the first entry of the first ABI with that
  // signature, and raise exactly when a malformed entry of the sort precedes it
  // in the same ABI (building the index skips such entries, scanning does not).
  lemma LookupIsFirstMatch(o: Oracles, sig: Sig, abis: seq<Abi>, key: string)
    requires UniqueIds(abis)
    ensures LookupSig(o, sig, abis, key)
            == match FirstAbi(o, sig, abis, key)
               case None => Miss
               case Some(i) =>
                 var es := EntriesOf(abis[i].body);
                 var j := FirstAt(o, sig, es, key).value;
                 if exists k :: 0 <= k < j && Malformed(o, sig, es[k]) then Raised
                 else Hit((es[j].name, MakeDecoder(sig, es[j])))
  {
    hide FirstAbiFrom, FirstFrom, ScanEntries;
    GetSigItems(o, sig, abis, |abis|, key);
    assert abis[..|abis|] == abis;
    var at := FirstAbi(o, sig, abis, key);
    if at.Some? {
      var es := EntriesOf(abis[at.value].body);
      ScanFindsFirst(o, sig, es, key, FirstAt(o, sig, es, key).value);
      AbiOfUnique(abis, at.value);
    }
  }

  // ----- The topic pinned for an (abi_id, name) -----

  lemma {:induction false} FirstWinsKeys<K, V>(items: seq<(K, V)>, item: (K, V))
    requires item in FirstWins(items)
    ensures Get(FirstWins(items), item.0) == Some(item.1)
  {
    var front, last := items[..|items| - 1], items[|items| - 1];
    GetAppend(FirstWins(front), last, item.0);
    if item in FirstWins(front) {
      FirstWinsKeys(front, item);
    }
  }

  lemma {:induction false} KeyForFinds(d: Dict<string, Owner>, owner: Owner)
    ensures var r := KeyFor(d, owner);
            if r.Some? then (r.value, owner) in d else forall k :: (k, owner) !in d
  {
    if d != [] {
      KeyForFinds(d[1..], owner);
      assert d == [d[0]] + d[1..];
    }
  }

  // event_topic0_for returns a topic whose first indexed owner is that event of
  // that ABI, and None exactly when there is no such topic: an event whose topic
  // an earlier ABI already claimed counts as unknown.
  lemma TopicForIsOwned(o: Oracles, abis: seq<Abi>, owner: Owner)
    ensures var r, items := KeyFor(FirstWins(SigItems(o, Topic, abis)), owner), SigItems(o, Topic, abis);
            if r.Some? then Get(items, r.value) == Some(owner) else forall t :: Get(items, t) != Some(owner)
  {
    hide SigItems, FirstWins;
    var items := SigItems(o, Topic, abis);
    var index := FirstWins(items);
    var r := KeyFor(index, owner);
    KeyForFinds(index, owner);
    if r.Some? {
      FirstWinsKeys(items, (r.value, owner));
      FirstWinsIsScan(items, r.value);
    } else {
      forall t ensures Get(items, t) != Some(owner) {
        FirstWinsIsScan(items, t);
        GetIsMember(index, t);
      }
    }
  }
}
