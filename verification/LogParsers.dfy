/** The two parsers that read logs: ERC-20 transfers and ABI events. */
module LogParsers {
  import opened Common
  import opened Filters
  import opened Snapshots
  import opened AbiRegistry
  import opened LogFetch
  import BlockTree

  // keccak("Transfer(address,address,uint256)")
  const ERC20_TRANSFER_TOPIC0 := "0xddf252ad1be2c8" + "9b69c2b068fc378d" + "aa952ba7f163c4a1" + "1628f55a4df523b3ef"

  const EVENT := "event"
  const TOKEN_TRANSFER := "token_transfer"

  // The registry as the filter and the parsers see it; absent on some chains.
  datatype Registry = NoRegistry | Registry(o: Oracles, abis: seq<Abi>)

  datatype Tx = Tx(hash: string, index: int)

  // A block as the log parsers read it; `before` and `after` are the events of
  // the parsers that read only its transactions.
  datatype Block = Block(header: BlockTree.Header, txs: seq<Tx>, before: seq<Event>, after: seq<Event>)

  function TxIndex(txs: seq<Tx>, hash: string): Option<int> {
    if txs == [] then None
    else if txs[|txs| - 1].hash == hash then Some(txs[|txs| - 1].index)
    else TxIndex(txs[..|txs| - 1], hash)
  }

  function RemovePrefix(s: string): string {
    if StartsWith(s, "0x") then s[2..] else s
  }

  function HexDigit(c: char): Option<nat> {
    if '0' <= c <= '9' then Some(c as int - '0' as int)
    else if 'a' <= c <= 'f' then Some(10 + c as int - 'a' as int)
    else if 'A' <= c <= 'F' then Some(10 + c as int - 'A' as int)
    else None
  }

  // int(s, 16)
  function HexValue(s: string): Option<nat> {
    if s == [] then None
    else match HexDigit(s[|s| - 1])
      case None => None
      case Some(d) =>
        if |s| == 1 then Some(d)
        else match HexValue(s[..|s| - 1]) case None => None case Some(n) => Some(16 * n + d)
  }

  function AddrFromTopic(t: string): string {
    var body := Lower(RemovePrefix(t));
    "0x" + if |body| < 40 then body else body[|body| - 40..]
  }

  // Erc20TransferParser._try_decode
  function Erc20Event(chainId: string, b: Block, l: Log): Option<Event> {
    if l.topics == [] || Lower(l.topics[0]) != ERC20_TRANSFER_TOPIC0 || |l.topics| != 3 then None
    else
      var data := RemovePrefix(l.data);
      if |data| < 64 then None
      else match HexValue(data[..64])
        case None => None
        case Some(v) =>
          Some(Event(chainId, b.header.number, b.header.hash, b.header.timestamp, l.txHash, TxIndex(b.txs, l.txHash),
                     Some(l.logIndex), TOKEN_TRANSFER, Some(Lower(l.address)), Some("Transfer"),
                     map["from" := Str(AddrFromTopic(l.topics[1])), "to" := Str(AddrFromTopic(l.topics[2])),
                         "value" := Str(Dec(v))],
                     []))
  }

  // A decoder run: arguments, DecodeFailed, or any other exception.
  datatype Decoded = Ok(args: Args) | DecodeFailed | Crashed

  type Decode = (AbiEntry, seq<string>, string) -> Decoded

  datatype Parsed = NoEvent | Made(event: Event) | Crash

  function AbiMade(chainId: string, b: Block, l: Log, name: Option<string>, args: Args, raw: seq<string>): Event {
    Event(chainId, b.header.number, b.header.hash, b.header.timestamp, l.txHash, None, Some(l.logIndex),
          EVENT, Some(Lower(l.address)), name, args, raw)
  }

  function Downgraded(chainId: string, b: Block, l: Log): Event {
    AbiMade(chainId, b, l, None, map[], l.topics + [l.data])
  }

  // AbiEventParser._handle_log
  function HandleLog(chainId: string, b: Block, reg: Registry, decode: Decode, l: Log): Parsed
    requires reg.Registry?
  {
    if l.topics == [] then NoEvent
    else match LookupSig(reg.o, Topic, reg.abis, Lower(l.topics[0]))
      case Miss => Made(Downgraded(chainId, b, l))
      case Raised => Crash
      case Hit(named) =>
        match decode(named.1.entry, l.topics, l.data)
        case Ok(args) => Made(AbiMade(chainId, b, l, Some(named.0), args, []))
        case DecodeFailed => Made(Downgraded(chainId, b, l))
        case Crashed => Crash
  }

  function EventOf(p: Parsed): seq<Event> {
    if p.Made? then [p.event] else []
  }

  function Erc20Events(chainId: string, b: Block, logs: seq<Log>): seq<Event> {
    if logs == [] then []
    else
      (match Erc20Event(chainId, b, logs[0]) case Some(e) => [e] case None => [])
      + Erc20Events(chainId, b, logs[1..])
  }

  // The pipeline keeps what a parser yielded before it raised, and drops the rest.
  function AbiEvents(chainId: string, b: Block, reg: Registry, decode: Decode, logs: seq<Log>): seq<Event> {
    if reg.NoRegistry? || logs == [] then []
    else match HandleLog(chainId, b, reg, decode, logs[0])
      case Crash => []
      case NoEvent => AbiEvents(chainId, b, reg, decode, logs[1..])
      case Made(e) => [e] + AbiEvents(chainId, b, reg, decode, logs[1..])
  }

  function PipelineRun(chainId: string, b: Block, reg: Registry, decode: Decode, logs: seq<Log>): seq<Event> {
    b.before + Erc20Events(chainId, b, logs) + AbiEvents(chainId, b, reg, decode, logs) + b.after
  }

  // ----- What a transfer log says -----

  function HexChar(d: nat): char
    requires d < 16
  {
    if d < 10 then ('0' as int + d) as char else ('a' as int + d - 10) as char
  }

  // n in hexadecimal, with leading zeros to the given width.
  function Hex(n: nat, width: nat): string {
    if width == 0 then "" else Hex(n / 16, width - 1) + [HexChar(n % 16)]
  }

  function Zeros(n: nat): string {
    seq(n, i => '0')
  }

  function Power16(width: nat): nat {
    if width == 0 then 1 else 16 * Power16(width - 1)
  }

  lemma HexCharIsRead(d: nat)
    requires d < 16
    ensures HexDigit(HexChar(d)) == Some(d)
  {
  }

  // Reading undoes writing, in lower case and for every number that fits.
  lemma {:induction false} HexRoundTrip(n: nat, width: nat)
    requires n < Power16(width)
    ensures |Hex(n, width)| == width
    ensures width > 0 ==> HexValue(Hex(n, width)) == Some(n)
  {
    if width > 0 {
      hide HexDigit, HexChar;
      HexCharIsRead(n % 16);
      HexRoundTrip(n / 16, width - 1);
      assert Hex(n, width)[..width - 1] == Hex(n / 16, width - 1);
    }
  }

  // Hexadecimal digits are read in either case, and nothing else is one.
  lemma HexDigitMeaning(c: char)
    ensures HexDigit(c) == HexDigit(LowerChar(c))
    ensures HexDigit(c).Some? <==> exists d: nat :: d < 16 && LowerChar(c) == HexChar(d)
  {
    match HexDigit(c)
    case Some(d) => assert LowerChar(c) == HexChar(d);
    case None =>
  }

  lemma PrefixMeaning(s: string)
    ensures RemovePrefix("0x" + s) == s
    ensures !StartsWith(s, "0x") ==> RemovePrefix(s) == s
  {
    assert ("0x" + s)[2..] == s;
  }

  // A topic too short for an address is kept whole.
  lemma ShortTopic(t: string)
    requires |t| < 40
    ensures AddrFromTopic("0x" + t) == "0x" + Lower(t)
  {
    PrefixMeaning(t);
  }

  // An address padded to 32 bytes is read back in lower case.
  lemma PaddedAddress(a: string)
    requires |a| == 40
    ensures AddrFromTopic("0x" + (Zeros(24) + a)) == "0x" + Lower(a)
  {
    var topic, body := "0x" + (Zeros(24) + a), Lower(Zeros(24) + a);
    assert topic[2..] == Zeros(24) + a;
    assert body[24..] == Lower(a);
  }

  // The log that a token emits for a transfer of n from address a to address b; what
  // follows the amount in its data is ignored.
  function TransferLog(token: string, a: string, b: string, n: nat, more: string, txHash: string, logIndex: int,
                       block: int): Log
  {
    Log(txHash, logIndex, token,
        [ERC20_TRANSFER_TOPIC0, "0x" + (Zeros(24) + a), "0x" + (Zeros(24) + b)], "0x" + (Hex(n, 64) + more), block)
  }

  lemma TopicIsLower()
    ensures Lower(ERC20_TRANSFER_TOPIC0) == ERC20_TRANSFER_TOPIC0
  {
    assert NoUpper("0xddf252ad1be2c8") && NoUpper("9b69c2b068fc378d");
    assert NoUpper("aa952ba7f163c4a1") && NoUpper("1628f55a4df523b3ef");
    assert NoUpper(ERC20_TRANSFER_TOPIC0);
  }

  predicate NoUpper(s: string) {
    forall i :: 0 <= i < |s| ==> LowerChar(s[i]) == s[i]
  }

  // Parsing undoes emitting: the sender, the receiver and the amount of a transfer,
  // with the token, the block's and the log's coordinates.
  lemma TransferRoundTrip(chainId: string, b: Block, token: string, from: string, to: string, n: nat, more: string,
                          txHash: string, logIndex: int)
    requires |from| == 40 && |to| == 40 && n < Power16(64)
    ensures var e := Erc20Event(chainId, b, TransferLog(token, from, to, n, more, txHash, logIndex, b.header.number));
            && e.Some?
            && e.value.kind == TOKEN_TRANSFER && e.value.name == Some("Transfer")
            && e.value.contract == Some(Lower(token))
            && e.value.args == map["from" := Str("0x" + Lower(from)), "to" := Str("0x" + Lower(to)),
                                   "value" := Str(Dec(n))]
            && e.value.chainId == chainId && e.value.blockNumber == b.header.number
            && e.value.blockHash == b.header.hash && e.value.blockTimestamp == b.header.timestamp
            && e.value.txHash == txHash && e.value.txIndex == TxIndex(b.txs, txHash)
            && e.value.logIndex == Some(logIndex)
  {
    hide HexValue, AddrFromTopic, Dec, Hex, Zeros, Power16, TxIndex, Lower;
    TopicIsLower();
    PaddedAddress(from);
    PaddedAddress(to);
    HexRoundTrip(n, 64);
    var data := "0x" + (Hex(n, 64) + more);
    assert data[2..] == Hex(n, 64) + more;
    assert (Hex(n, 64) + more)[..64] == Hex(n, 64);
  }

  // Only logs of that shape are transfers: three topics, the first the transfer topic
  // in any case, and 64 hexadecimal digits of data.
  lemma OtherLogsAreNoTransfers(chainId: string, b: Block, l: Log)
    requires |l.topics| != 3 || Lower(l.topics[0]) != ERC20_TRANSFER_TOPIC0 || |RemovePrefix(l.data)| < 64
             || exists i :: 0 <= i < 64 && HexDigit(RemovePrefix(l.data)[i]).None?
    ensures Erc20Event(chainId, b, l).None?
  {
    hide AddrFromTopic, Dec, HexDigit;
    if |l.topics| == 3 && |RemovePrefix(l.data)| >= 64 {
      var digits := RemovePrefix(l.data)[..64];
      if exists i :: 0 <= i < 64 && HexDigit(RemovePrefix(l.data)[i]).None? {
        var i :| 0 <= i < 64 && HexDigit(RemovePrefix(l.data)[i]).None?;
        assert digits[i] == RemovePrefix(l.data)[i];
        NoHexValue(digits, i);
      }
    }
  }

  lemma {:induction false} NoHexValue(s: string, i: nat)
    requires i < |s| && HexDigit(s[i]).None?
    ensures HexValue(s).None?
  {
    hide HexDigit;
    if i < |s| - 1 {
      NoHexValue(s[..|s| - 1], i);
    }
  }

  // The position of the log's transaction; None when the block does not list it.
  lemma {:induction false} TxIndexMeaning(txs: seq<Tx>, hash: string)
    ensures TxIndex(txs, hash).None? <==> forall k :: 0 <= k < |txs| ==> txs[k].hash != hash
    ensures forall k :: 0 <= k < |txs| && txs[k].hash == hash && (forall j :: k < j < |txs| ==> txs[j].hash != hash)
                        ==> TxIndex(txs, hash) == Some(txs[k].index)
  {
    if txs != [] && txs[|txs| - 1].hash != hash {
      TxIndexMeaning(txs[..|txs| - 1], hash);
    }
  }

  // ----- What the ABI parser makes of a log -----

  // A log that raises ends the parser: what it made before is kept, the rest is lost.
  lemma {:induction false} RaisingEndsParser(chainId: string, b: Block, reg: Registry, decode: Decode, logs: seq<Log>,
                                             k: nat)
    requires reg.Registry? && k < |logs| && HandleLog(chainId, b, reg, decode, logs[k]).Crash?
    ensures AbiEvents(chainId, b, reg, decode, logs) == AbiEvents(chainId, b, reg, decode, logs[..k])
  {
    hide HandleLog;
    if k > 0 {
      assert logs[..k][1..] == logs[1..][..k - 1];
      RaisingEndsParser(chainId, b, reg, decode, logs[1..], k - 1);
    }
  }

  // A log without a known topic, and one that fails to decode, is kept as an event
  // without name and arguments, with its topics and data; a decoded log has the name
  // of the entry and the decoder's arguments. Nothing else is yielded.
  lemma AbiEventMeaning(chainId: string, b: Block, reg: Registry, decode: Decode, l: Log)
    requires reg.Registry?
    ensures var p := HandleLog(chainId, b, reg, decode, l);
            && (p.NoEvent? <==> l.topics == [])
            && (p.Made? ==>
                 var e, found := p.event, LookupSig(reg.o, Topic, reg.abis, Lower(l.topics[0]));
                 && e.kind == EVENT && e.contract == Some(Lower(l.address)) && e.chainId == chainId
                 && e.blockNumber == b.header.number && e.blockHash == b.header.hash
                 && e.blockTimestamp == b.header.timestamp
                 && e.txHash == l.txHash && e.txIndex == None && e.logIndex == Some(l.logIndex)
                 && !found.Raised?
                 && (match found
                     case Hit(named) =>
                       (match decode(named.1.entry, l.topics, l.data)
                        case Ok(args) => e.name == Some(named.0) && e.args == args && e.raw == []
                        case _ => e.name == None && e.args == map[] && e.raw == l.topics + [l.data])
                     case _ => e.name == None && e.args == map[] && e.raw == l.topics + [l.data]))
            && (p.Crash? ==>
                 var found := LookupSig(reg.o, Topic, reg.abis, Lower(l.topics[0]));
                 found.Raised? || (found.Hit? && decode(found.value.1.entry, l.topics, l.data).Crashed?))
  {
    hide LookupSig;
  }
}
