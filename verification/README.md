# The worker's indexing core

A model of the part of the chain indexer's worker that decides which blocks and
events are processed, how often, and from which branch, with proofs of what it
promises. One module per component:

| module | component |
|---|---|
| `BlockTree` | the block tree (hash to header) that heads come from; ancestry recomputed from scratch |
| `ConfirmationBuffer`, `ReorgRuns` | the sliding window of unconfirmed headers as a class, and what holds over every run of heads |
| `HeadDriver`, `DeepReorgs` | the live EVM head handler: ancestor prefetch, tip hash, processing of confirmed heights; which heights deep reorgs skip |
| `LogFetch`, `EvmCatchup`, `SolanaCatchup` | bucketing, recursive bisection of log queries, windowed catch-up on both chain kinds |
| `NodeAdapters`, `SolanaAdapter` | what the two chain adapters hand to catch-up when requests go through the endpoint pool, and what that loses |
| `LogParsers`, `PushDown`, `EvmDeliveries`, `LiveDeliveries` | the two log parsers, node-side log filters, deliveries; catch-up and live processing with filters end to end |
| `Filters`, `Matcher`, `Snapshots` | argument filters, the subscription matcher and its index, configuration snapshots |
| `AbiRegistry`, `IdlLookups`, `IdlTypes` | the registry's indexes and caches, what the IDL lookups find, and the IDL type resolver |
| `ChainLock`, `Reconcile`, `ChainWorkers` | the lock as timed steps of many workers over one key, one worker's runners and locks, and the two together |
| `EndpointPool`, `ConfigWatcher`, `EmissionOrder` | the circuit breaker and the configuration watcher, under interleaving; in which order versions are emitted |
| `AnchorLogs`, `CallTrace`, `DeliveryCleanup` | program-stack log parser, call traces, delivery-record retention |

**Form.** Objects that the source updates in place are classes whose methods are
proved equal to a function of the old state; the theorems are about that
function. Concurrent protocols are step relations with run-level invariants.

**Outside world.** RPC answers, stop flags, failures and clocks are arbitrary
function parameters or steps. keccak, SHA-256 and the JSON body hash are the
fields of `AbiRegistry.Oracles`; only `AbiRegistry.Sound` is assumed of them
(different bodies have different hashes; no event topic equals a function
selector). Borsh, `eth_abi` and base58 decoding are uninterpreted functions.
Redis is the `Key` of `ChainLock.State`; the database is the `history` of
`ConfigWatcher.State` and the `rows` of `DeliveryCleanup.DeliveryRecordRepo`.

## Hypotheses, and where the code differs from its description

- Reorg theorems are for `confirmations >= 1`; with 0 the window stays empty and
  nothing is link-checked (`ReorgRuns.ZeroConfirmations`).
- `deep` is documented as "no common ancestor in the buffer". The walk is bounded
  by `len(buf) + 1` steps, so a gap longer than that with no fork at all is also
  reported as deep (`ReorgRuns.VerdictIsExact`, `ReorgRuns.GapVerdict`). For
  heads up to two above the tip the documented verdict is the actual one
  (`ReorgRuns.NearHeadVerdict`).
- Ancestor prefetch misses exactly for a head at height `<= len(buf)` that does
  not link and has no buffered ancestor (`HeadDriver.PrefetchIsExact`).
- Catch-up starts one above the least candidate, so a subscription's own
  `start_block`, which the matcher accepts, is not caught up when no lower
  candidate exists (`EvmCatchup.StartBlockCaughtUp`).
- Filter push-down pins one topic0 per `(abi_id, name)` while the matcher compares
  names only. It is safe exactly under `PushDown.NamesPinned`, a condition on the
  subscriptions, the index and the decoders (`PushDown.PushDownIsExact`); without
  argument filters the names alone decide (`PushDown.UnsharedNamesAreExact`). Two
  ABIs with an event of one name lose a delivery (`PushDown.SameNameLosesDelivery`).
- The lock excludes exactly when
  `(misses + 1) * (interval + delay) + release < ttl`
  (`ChainLock.ExclusionBound`). With the shipped constants two consecutive failed
  renewals are never tolerated (`ChainLock.ShippedConstants`).
- The watcher compares versions for difference only, so a slow reload can emit an
  older version after a newer one (`ConfigWatcher.OlderCanFollowNewer`), and one
  change can lead to three emissions (`EmissionOrder.EmittedTwice`), although at most
  one per change is promised. Versions ascend exactly when reloads finish in the
  order of the versions they read (`EmissionOrder.VersionsAscendIff`); no version is
  emitted twice exactly when none comes back after another
  (`EmissionOrder.EachVersionOnceIff`); both hold, with at most one emission for the
  first snapshot and each change, if a reload only begins when none is under way
  (`EmissionOrder.OneAtATimeAscends`). In any case the watcher converges once the
  reloads of the time of writing are over (`ConfigWatcher.Converges`).
- Queries reach the node through the endpoint pool, whose only error text is
  "all n endpoints failed". No size-limit hint occurs in it, so through the shipped
  EVM adapter a range is never bisected: a query makes one call and raises
  (`NodeAdapters.PooledQueriesAreNotDegraded`), and a window that every endpoint
  refuses ends catch-up (`NodeAdapters.RefusedWindowEndsCatchup`).
- Solana `get_blocks` turns a JSON-RPC error into an empty list, and always asks at
  `finalized`, while the tip and the blocks follow the chain's own commitment. Catch-up
  through the adapter processes what visiting every slot would exactly when, before the
  stop, no slot that processes lies in a window answered by an RPC error or above the
  finalized height behind the answer of its window
  (`SolanaAdapter.AdapterRunIsSlotBySlotIff`). At commitment `confirmed` healthy nodes
  lose a slot (`SolanaAdapter.UnfinalizedSlotIsLost`), at any commitment an RPC error
  does (`SolanaAdapter.ErrorWindowIsLost`); at commitment `finalized`, with no RPC error
  and no endpoint behind the one that gave the tip, nothing is lost
  (`SolanaAdapter.FinalizedRunIsExact`).
- A deep reorg restarts the window at its head, so heights between what was processed
  and that head are skipped. At no moment of a run is a height missed exactly when
  every segment that processes anything starts at most one above what was processed
  before it (`DeepReorgs.NeverSkipsIff`); it suffices that every deep head does
  (`DeepReorgs.NearHeadsNeverSkip`).
- `cleanup_success` is described as deleting the oldest rows. It deletes the ranks
  just after the newest `keep`, so the oldest go first exactly when one batch
  covers the excess (`DeliveryCleanup.OldestGoFirst`).
- A program's own log text ending in " success" pops the Anchor program stack
  (`AnchorLogs.LogLineReadAsSuccess`), and the text "invoke [1]" pushes the program
  "log:" (`AnchorLogs.LogLineReadAsInvoke`); a filler line is harmless exactly when it
  has none of the three recognised forms (`AnchorLogs.TransparentIffOther`).
- Registry lookups raise on a malformed entry that precedes the match in the same
  ABI, although the index skips such entries (`AbiRegistry.LookupIsFirstMatch`).
- Event and call decoders share one dictionary, so a decoder request can be
  answered with a cached decoder of the other sort (`AbiRegistry.SelectorTakenForTopic`);
  `AbiRegistry.AbiRegistry.GetDecoder` says exactly when, and lookups never meet it.
- An argument whose name ends in `_in`, `_gte` or `_lte` cannot be tested for
  equality (`Filters.EqualityReaches`).

## Model

| member | source | states |
|---|---|---|
| ReorgRuns.PathIsAncestry | core/chains/confirmation_buffer.py:62-145 | In every run of heads, headers confirmed in the current segment followed by the window are exactly the ancestry of the current head, recomputed from the block tree, down to the segment's root |
| ReorgRuns.RootOfShallowRun | core/chains/confirmation_buffer.py:91-135 | Without a deep reorg the segment's root is the first head of the run |
| ReorgRuns.FrontierIsExact | core/chains/confirmation_buffer.py:97-145 | Heights are confirmed contiguously from the root, each once, up to exactly the highest head seen minus `confirmations`; the window is never empty nor longer than `confirmations` |
| ReorgRuns.ConfirmedAccumulates | core/chains/confirmation_buffer.py:97-145 | Until a deep reorg, what was confirmed earlier is a prefix of what is confirmed later |
| ReorgRuns.ConfirmedNeverDropped | core/chains/confirmation_buffer.py:97-145 | A header confirmed before some head is still confirmed at every later head of the segment and is never among the dropped ones |
| ReorgRuns.HeadersConserved | core/chains/confirmation_buffer.py:62-145 | As multisets, headers put in the window equal confirmed plus buffered plus dropped plus abandoned ones, for every `confirmations` and whatever parent lookups return |
| ReorgRuns.VerdictIsExact | core/chains/confirmation_buffer.py:91-135 | A reorg is deep iff every buffered ancestor of the head lies more than `len(buf) + 1` below it; otherwise the window is rewound to the highest buffered ancestor, the headers above it are dropped and the new branch is the ancestry in between |
| ReorgRuns.NearHeadVerdict | core/chains/confirmation_buffer.py:95-135 | For heads at most two above the tip, deep iff no buffered header is an ancestor of the head |
| ReorgRuns.GapVerdict | core/chains/confirmation_buffer.py:95-135 | A head that descends from the tip is reported as deep iff it is more than `len(buf) + 1` above it |
| ReorgRuns.WalkExact | core/chains/confirmation_buffer.py:91-118 | The walk back finds the nearest buffered ancestor with the branch above it, or misses a parent before it, or passes exactly that many unbuffered ancestors |
| ReorgRuns.OutcomeMeaning | core/chains/confirmation_buffer.py:83-119 | A head is taken in cleanly iff the window is empty or its tip is the head's parent; what raises is the lookup of a parent on the way from the head down |
| ReorgRuns.ZeroConfirmations | core/chains/confirmation_buffer.py:124-145 | With 0 confirmations the window stays empty and every head is confirmed at once, unchecked |
| BlockTree.ChainIsAncestry | core/chains/confirmation_buffer.py:66-69 | A list of headers linked by parent hash is determined by its last header and length: it is that header's ancestry in the tree |
| ConfirmationBuffer.ConfirmationBuffer.constructor | core/chains/confirmation_buffer.py:50-54 | A new buffer is empty and keeps its number of confirmations |
| ConfirmationBuffer.ConfirmationBuffer.Append | core/chains/confirmation_buffer.py:62-74 | Raises iff the head does not link to the tip, then leaving the buffer as it was; otherwise extends it and gives up what became confirmed |
| ConfirmationBuffer.ConfirmationBuffer.DrainConfirmed | core/chains/confirmation_buffer.py:137-145 | Removes from the front exactly the headers that reached the depth under the tip, in order |
| ConfirmationBuffer.ConfirmationBuffer.PopTo | core/chains/confirmation_buffer.py:99-104 | Pops the suffix above the ancestor and returns it in height order |
| ConfirmationBuffer.ConfirmationBuffer.HandleNewHead | core/chains/confirmation_buffer.py:76-135 | The in-place update and the value returned are those of the window function the run theorems are about, including a raising parent lookup, a deep reorg and a splice |
| ConfirmationBuffer.DrainCount | core/chains/confirmation_buffer.py:137-145 | The longest front stretch of headers at depth `confirmations` or more |
| ConfirmationBuffer.LastIndex | core/chains/confirmation_buffer.py:94-98 | The last header of a hash is found, and only when there is one |
| HeadDriver.ChainRunner.PrefetchAncestorsFor | apps/worker/chain_runner.py:552-566 | Collects headers below the head down to `confirmations + 1`, height 0 or the first failed fetch |
| HeadDriver.ChainRunner.HandleEvmHead | apps/worker/chain_runner.py:510-550 | New buffer, tip hash and processed heights after one head; a missed ancestor leaves all three unchanged, a block that raises ends the handler after the buffer has moved on; it returns normally iff neither happens |
| HeadDriver.ChainRunner.ProcessConfirmed | apps/worker/chain_runner.py:549-550 | Confirmed heights are processed in order up to the first that raises |
| HeadDriver.HandleKeepsTip | apps/worker/chain_runner.py:533-534 | Unless a parent lookup raises, the head is the tip of the new window |
| HeadDriver.StepKeepsTip | apps/worker/chain_runner.py:523-535 | The remembered tip hash agrees with the buffer's tip after every head whatever is fetched; a head that raises changes nothing |
| HeadDriver.RunKeepsTip | apps/worker/chain_runner.py:523-535 | The same in every reachable state |
| HeadDriver.PrefetchIsExact | apps/worker/chain_runner.py:518-566 | With the head's branch fetched, handling raises iff the head does not link, its height is at most `len(buf)` and no buffered header is its ancestor |
| HeadDriver.PrefetchSuffices | apps/worker/chain_runner.py:552-566 | In every reachable state a head at height `confirmations + 1` or above never misses an ancestor |
| HeadDriver.DriverRefinesBuffer | apps/worker/chain_runner.py:510-550 | Every run of the driver is a run of the buffer with honest parent lookups |
| HeadDriver.DriverProcessesConfirmed | apps/worker/chain_runner.py:510-550 | In every run, through any number of deep reorgs, the heights processed since the segment started are those of the headers confirmed since then, or those before the block that raised |
| HeadDriver.RootIsSegmentStart | core/chains/confirmation_buffer.py:91-135 | The segment starts at the head that is its root, and at the first head when no reorg was deep |
| HeadDriver.LiveProcessingIsExact | apps/worker/chain_runner.py:510-550 | In every run the live loop processes the heights from the segment's root to `confirmations` below the highest head since then, in order, each once; if a block raised it is the first one missing; without a deep reorg this is the whole run |
| DeepReorgs.NeverSkipsIff | apps/worker/chain_runner.py:536-550 | At no moment of a run is a height between the first head and the greatest processed missed iff every segment that processes anything starts at most one above the greatest height processed before it |
| DeepReorgs.SegmentSkips | core/chains/confirmation_buffer.py:121-135 | After gap-free segments, the heights the current one leaves out are exactly those strictly between the greatest height processed before it and its root |
| DeepReorgs.NearHeadsNeverSkip | core/chains/confirmation_buffer.py:121-135 | Nothing is ever missed when each deep head is at most one above the greatest height processed when it arrives |
| LogFetch.BucketByBlock | apps/worker/chain_runner.py:52-56 | One bucket for each block that has logs, holding exactly its logs in order |
| LogFetch.SizeLimitMeaning | apps/worker/chain_runner.py:323-325 | A message is a size limit iff, in lower case, a degrade hint occurs in it |
| LogFetch.BisectionIsTransparent | apps/worker/chain_runner.py:313-336 | For every pattern of size-limit refusals, a fetch that returns gives the bucketing of all logs in the range |
| LogFetch.CallsAreBounded | apps/worker/chain_runner.py:313-336 | At most `2 * blocks - 1` calls; the answered ranges tile the range in order; it raises iff its last call is a fatal refusal, and no earlier call is |
| LogFetch.CallsAreNumbered | apps/worker/chain_runner.py:313-336 | The calls recorded are the calls made, in order, the first for the whole range |
| EvmCatchup.PlanOf | apps/worker/chain_runner.py:341-365 | A range is planned iff the tip is known and some candidate, the checkpoint or the start block of an enabled subscription of the chain, is below the safe tip; it starts above the least candidate, or `MAX_CATCHUP_BLOCKS` below the safe tip when that is higher, and ends at the safe tip |
| EvmCatchup.Starts | apps/worker/chain_runner.py:341-344 | The candidates are exactly the checkpoint and the start blocks of the chain's enabled subscriptions |
| EvmCatchup.CatchupRunner.CatchupEvm | apps/worker/chain_runner.py:338-413 | Nothing changes unless some candidate is below the safe tip; then blocks processed and the checkpoint are those of the windowed run over the planned range |
| EvmCatchup.CatchupRunner.RunWindow | apps/worker/chain_runner.py:391-405 | One window's blocks are processed in order up to a stop or a failure, checkpointing each |
| EvmCatchup.CatchupRunner.RunWindows | apps/worker/chain_runner.py:371-412 | The outer loop, with early return and break |
| EvmCatchup.CatchupRefinesOneByOne | apps/worker/chain_runner.py:371-412 | Blocks processed are from, from+1, ..., k, each once with exactly its own logs, where k+1 is the first block with an obstacle (the stop flag, its own failure, or the log query of the window starting there, on the calls then made), or k is the safe tip when there is none |
| EvmCatchup.CatchupIsBounded | apps/worker/chain_runner.py:341-413 | A whole catch-up refines block-by-block processing up to the first obstacle, does at most `MAX_CATCHUP_BLOCKS` blocks and leaves the checkpoint at the last of them |
| EvmCatchup.WindowSizeIsIrrelevant | apps/worker/chain_runner.py:370-412 | Neither the window size nor the pattern of refused ranges changes what is processed |
| EvmCatchup.StartBlockCaughtUp | apps/worker/chain_runner.py:341-373 | A subscription's start block, whose events the matcher does not reject, is processed iff it is at most the safe tip, within the cap, and some candidate is lower |
| SolanaCatchup.SlotRunner.CatchupSolana | apps/worker/chain_runner.py:430-483 | Slots processed, and whether it finished, stopped or raised, are those of the windowed run; the checkpoint is at the last slot processed |
| SolanaCatchup.SlotRunner.VisitAll | apps/worker/chain_runner.py:465-481 | The slots of a window are visited in order up to a stop; a failing slot is skipped |
| SolanaCatchup.SlotRunner.ProcessSolanaSlot | apps/worker/chain_runner.py:644-673 | The checkpoint stays at the last slot processed (`Valid`): a slot without a block, and one that raises, leaves both as they were |
| SolanaCatchup.VisitIsSlotBySlot | apps/worker/chain_runner.py:465-481 | Visiting any ascending list that covers a range is visiting every slot of it |
| SolanaCatchup.FallbackIsInvisible | apps/worker/chain_runner.py:459-508 | For every pattern of transient failures the slots processed are those of visiting every slot once; a range-too-large error cuts the run at the first window that is too large, and a run that finishes met none |
| SolanaCatchup.GetBlocksClassified | apps/worker/chain_runner.py:485-508 | A window raises iff its reply is a failure with a range-too-large hint |
| SolanaCatchup.RangeTooLargeMeaning | apps/worker/chain_runner.py:496-503 | A message is one iff, in lower case, a hint occurs in it |
| NodeAdapters.PooledQueriesAreNotDegraded | core/chains/evm.py:143-173 | Through the pool a log query of any range makes exactly one call, and raises iff every candidate endpoint fails |
| NodeAdapters.RefusedWindowEndsCatchup | apps/worker/chain_runner.py:386-411 | A window whose logs every candidate endpoint refuses ends catch-up with nothing of it processed |
| NodeAdapters.FailureHidesSizeLimit | core/chains/rpc_pool.py:93-95 | The pool's error text contains no degrade hint, for any number of endpoints |
| NodeAdapters.FailureHidesRangeTooLarge | core/chains/rpc_pool.py:93-95 | Nor a range-too-large hint |
| NodeAdapters.RequestFails | core/chains/rpc_pool.py:71-95 | A request gets the answer of the first candidate that answers, none iff all fail |
| SolanaAdapter.WindowOfBody | core/chains/solana.py:142-182 | Through the adapter a window is always classified: an RPC error lists nothing, an answer at most the finalized slots, every other reply the whole window |
| SolanaAdapter.AdapterRunKeeps | apps/worker/chain_runner.py:459-508 | A run through the adapter never raises and processes, as if visited one at a time, exactly the slots of each window up to where its reply reaches |
| SolanaAdapter.AdapterRunIsSlotBySlotIff | core/chains/solana.py:142-182 | It processes what visiting every slot would iff, before the stop, no slot that processes lies in a window answered by an RPC error or above the finalized height behind the answer of its window |
| SolanaAdapter.FinalizedRunIsExact | core/chains/solana.py:72-90 | At commitment `finalized`, with no RPC error and no endpoint behind the one that gave the tip, it does |
| SolanaAdapter.UnfinalizedSlotIsLost | core/chains/solana.py:153-159 | A run at commitment `confirmed`, with healthy nodes and no RPC error, that loses a slot |
| SolanaAdapter.ErrorWindowIsLost | core/chains/solana.py:172-182 | A run at commitment `finalized` that loses a slot to an RPC error |
| PushDown.CollectTopic0s | core/matcher/filter_set.py:73-95 | Bails out iff some relevant subscription pins no topic; otherwise the topics pinned by all of them |
| PushDown.BuildEvmLogFilter | core/matcher/filter_set.py:46-70 | The address list, topic list and skip flag are those of the filter the delivery theorems are about |
| PushDown.PushDownPreservesDeliveries | core/matcher/filter_set.py:46-95 | For every snapshot, registry, block and log list, deliveries from node-filtered logs (or none, with `skip_logs`) equal those from all logs, content and order, when names are pinned and decoders fail only by `DecodeFailed` |
| PushDown.PushDownIsExact | core/matcher/filter_set.py:46-95 | Push-down preserves deliveries for all blocks and logs iff every indexed topic0 that carries an event subscription's name is in the filter, or nothing its entry decodes passes the subscription's address and argument filters |
| PushDown.CanAcceptIsExact | core/matcher/matcher.py:49-58 | That condition on the subscription and the decoder says exactly when some log of the topic0 makes an event the subscription matches |
| PushDown.UnsharedNamesSuffice | core/matcher/filter_set.py:73-95 | The check on names alone suffices: no indexed topic0 outside the filter carries a subscription's name |
| PushDown.UnsharedNamesAreExact | core/matcher/filter_set.py:73-95 | It is exact when event subscriptions have no argument filters and addresses that can match, and entries that carry their names decode some log |
| PushDown.CollisionLosesDelivery | core/matcher/filter_set.py:73-95 | A topic0 missing from the filter that carries a subscription's name and can be accepted loses a delivery |
| PushDown.MissingTopicLosesLog | core/matcher/filter_set.py:73-95 | Namely that of every log of the topic0 that the subscription matches |
| PushDown.SameNameLosesDelivery | core/matcher/matcher.py:49-58 | A concrete snapshot, two ABIs with an event of the same name, and a log on which filtering changes what is delivered, for every hash function that tells the two events apart |
| PushDown.DroppedAbiEvent | core/parser/abi_event.py:27-98 | An event the ABI parser makes from a filtered-out log, decoded or downgraded, is matched by nobody |
| PushDown.DroppedErc20Event | core/parser/erc20.py:36-92 | A token transfer made from a filtered-out log is matched by nobody; unconditional |
| LogParsers.TransferRoundTrip | core/parser/erc20.py:36-99 | The log a token emits for a transfer is parsed back into its sender, receiver and amount, with the token, the block's and the log's coordinates |
| LogParsers.OtherLogsAreNoTransfers | core/parser/erc20.py:45-76 | A log with another first topic, not three topics, or no 64 hexadecimal digits of data makes no transfer |
| LogParsers.HexRoundTrip | core/parser/erc20.py:63-64 | Every amount that fits is read back from its hexadecimal digits |
| LogParsers.HexDigitMeaning | core/parser/erc20.py:63-64 | Digits are read in either case, and nothing else is one |
| LogParsers.PaddedAddress | core/parser/erc20.py:95-99 | An address padded to 32 bytes is read back in lower case |
| LogParsers.TxIndexMeaning | core/parser/erc20.py:24 | The position of the log's transaction in the block, None iff it is not listed |
| LogParsers.AbiEventMeaning | core/parser/abi_event.py:27-98 | What each log becomes: nothing without topics, the decoded event, or an event without name and arguments with its topics and data when the topic is unknown or decoding fails; it raises only when the lookup or the decoder does |
| LogParsers.RaisingEndsParser | core/parser/pipeline.py:24-34 | A log that raises ends the parser: what it made before is kept, the rest is lost |
| PushDown.BoundKeeps | apps/worker/chain_runner.py:612-617 | Hits with a channel are delivered in order, the others dropped |
| PushDown.DeliveryOfOne | apps/worker/chain_runner.py:612-617 | An event is delivered with its hits, or not at all when it has none |
| EvmDeliveries.FilteringIsInvisible | apps/worker/chain_runner.py:386-398 | Processing blocks one by one with filtered logs delivers what it delivers with all logs |
| EvmDeliveries.CatchupDeliversExactly | apps/worker/chain_runner.py:338-413 | Windowed, bisected, filtered catch-up delivers exactly what blocks last+1..k delivered one at a time with all their logs |
| LiveDeliveries.LiveDeliversExactly | apps/worker/chain_runner.py:510-593 | Live processing with filtered logs delivers, after what was delivered before the current segment, exactly what the heights from the segment's root deliver one at a time with all their logs, up to `confirmations` below the highest head |
| Matcher.Matcher.constructor | core/matcher/matcher.py:29-36 | The index and channel table describe the snapshot |
| Matcher.Matcher.Match | core/matcher/matcher.py:38-47 | Exactly the hits of one pass over all subscriptions, in snapshot order, with their bound channels |
| Matcher.MatchMeaning | core/matcher/matcher.py:49-58 | A subscription matches iff each part it has does: a block from the start block on, the same address up to case of hex, the same name, and every argument filter |
| Matcher.ChannelsKeepOrder | core/matcher/matcher.py:44 | Bound channels keep the order of the ids |
| Matcher.ChannelsOfOne | core/matcher/matcher.py:36-44 | One id gives the channel of that id, if there is one |
| Matcher.Matcher.Bind | core/matcher/matcher.py:44 | The channels a subscription's ids name, in order, skipping unknown ids |
| Matcher.CandidatesSuffice | core/matcher/matcher.py:29-47 | Looking only under the event's key loses no match and keeps the order |
| Filters.PassesIffAllPass | core/matcher/filters.py:46-64 | A match passes iff every filter entry passes: the order of entries never decides |
| Filters.EqualityMeaning | core/matcher/filters.py:48-55 | An entry without an operator suffix passes iff the field is there with the same value, hex strings compared without case; it never raises |
| Filters.MembershipMeaning | core/matcher/filters.py:56-59 | An `_in` entry passes iff the field is there with the same value as some element; a string is a list of its characters; it raises iff the field, or an element, is a list, or a number stands for the list |
| Filters.RangeMeaning | core/matcher/filters.py:60-63 | A range entry passes iff both values are read as integers in that order, and raises iff one is not |
| Filters.AbsentRejects | core/matcher/filters.py:50-51 | A missing field never passes, under any operator |
| Filters.NoNumber | core/matcher/filters.py:60-63 | A string with any other character is no number |
| Filters.EqualityReaches | core/matcher/filters.py:14-19 | A field can be tested for equality iff its name ends in none of the operator suffixes |
| Filters.SplitInverts | core/matcher/filters.py:14-19 | Splitting undoes appending a suffix |
| Filters.DecimalRoundTrip | core/matcher/filters.py:60-63 | A decimal string is read back as the number it was written from, of any size |
| Filters.IntegersAreRead | core/matcher/filters.py:60-63 | Signed decimals and integers are read as the numbers they are; lists are not numbers |
| Filters.DecimalsCompare | core/matcher/filters.py:60-63 | Range tests on large integers carried as decimal strings are those on the numbers |
| Snapshots.SubscriptionsForChain | core/config/snapshot.py:74-75 | Exactly the enabled subscriptions of the chain |
| Snapshots.ForChainKeepsOrder | core/config/snapshot.py:74-75 | A list in two parts is filtered part by part: nothing is reordered |
| Snapshots.ForChainOfOne | core/config/snapshot.py:74-75 | A single subscription is kept once, or dropped |
| AbiRegistry.AbiRegistry.constructor | core/abi/registry.py:46-59 | An empty registry is coherent |
| AbiRegistry.AbiRegistry.Refresh | core/abi/registry.py:61-82 | Every index and cache is coherent with the new ABIs; exactly the decoders of deleted or republished bodies are dropped |
| AbiRegistry.AbiRegistry.EvictStale | core/abi/registry.py:63-70 | Removes exactly the decoders of stale ABIs |
| AbiRegistry.AbiRegistry.Evict | core/abi/registry.py:84-88 | Removes exactly one ABI's decoders and hash |
| AbiRegistry.AbiRegistry.RebuildIndexes | core/abi/registry.py:74-81 | All four indexes describe the current ABIs and all four lookup caches are empty |
| AbiRegistry.AbiRegistry.RebuildSigIndex | core/abi/registry.py:90-115 | The event index (and, by the same loop, the selector index of lines 147-172) is the first-wins dictionary of all entries |
| AbiRegistry.AbiRegistry.RebuildIdlIndex | core/abi/registry.py:190-212 | The same for the two IDL indexes (the second at lines 229-253) |
| AbiRegistry.AbiRegistry.GetDecoder | core/abi/registry.py:285-331 | A decoder request answers as a scan of the ABI's current body, cached or not, unless a decoder of the other sort is cached under the same key; the answer is wrong exactly then, since the scan finds none |
| AbiRegistry.SelectorTakenForTopic | core/abi/registry.py:285-331 | That exception occurs: after a call decoder was built, an event decoder asked for by the same selector is that call decoder, where an empty cache raises |
| AbiRegistry.NoDecoderOfBothSorts | core/abi/registry.py:285-331 | One key never yields an event and a call decoder of the same ABI |
| AbiRegistry.AbiRegistry.LookupEventByTopic0 | core/abi/registry.py:131-145 | Cached or not, answers as the linear scan of the current ABIs, and stays coherent |
| AbiRegistry.AbiRegistry.LookupFunctionBySelector | core/abi/registry.py:174-188 | The same for function selectors |
| AbiRegistry.AbiRegistry.LookupIdlEventByDiscriminator | core/abi/registry.py:214-227 | The same for IDL events |
| AbiRegistry.AbiRegistry.LookupIdlCallByDiscriminator | core/abi/registry.py:255-268 | The same for IDL calls |
| AbiRegistry.AbiRegistry.EventTopic0For | core/abi/registry.py:117-129 | The first indexed topic of an (ABI, event name) pair |
| AbiRegistry.FirstWinsIsScan | core/abi/registry.py:106-114 | Building the dictionary loses nothing a linear scan of all entries would find |
| AbiRegistry.DecodersSurvive | core/abi/registry.py:63-73 | Decoders not evicted are those of the new bodies |
| AbiRegistry.LookupIsFirstMatch | core/abi/registry.py:131-145 | A lookup returns the first matching entry of the first ABI that has one, misses iff there is none, and raises iff a malformed entry precedes it in that ABI |
| AbiRegistry.EntryMeaning | core/abi/registry.py:95-105 | An entry signs a key iff it is of type event (function) and its topic (selector) in lower case is the key |
| AbiRegistry.EntriesMeaning | core/abi/registry.py:93 | A body that is a list holds its entries in order, a single document is its only entry |
| IdlLookups.IdlLookupIsFirstMatch | core/abi/registry.py:190-268 | An IDL lookup finds an event (instruction) iff some `solana_idl` document of the program has one with the discriminator of its name and a layout within the cap; it is the first of the first such document, with its name and layout |
| AbiRegistry.TopicForIsOwned | core/abi/registry.py:117-129 | The topic returned is owned by that event, and None iff an earlier ABI claimed every topic of it or it has none |
| AbiRegistry.SortOfKey | core/abi/registry.py:285-331 | A key in one signature index never finds a decoder of the other sort |
| IdlTypes.ResolveIsExact | core/abi/decoder.py:189-238 | For every type table, with or without the cycle guard the answer is the same: the layout of the type if it exists and is no deeper than the cap, else None |
| IdlTypes.Lookup | core/abi/decoder.py:205-206 | The first definition of a name, None iff there is none |
| IdlTypes.BuildStructIsExact | core/abi/decoder.py:249-260 | An event's struct is the layout of its fields if each is resolvable within the cap, else None |
| IdlTypes.GuardIsIrrelevant | core/abi/decoder.py:202-219 | The guard never changes an answer at any point of the recursion |
| IdlTypes.SelfNeedFails | core/abi/decoder.py:202-219 | A name reachable from its own definition resolves to None at every depth |
| IdlTypes.UnguardedSound | core/abi/decoder.py:189-238 | What is resolved is a layout of the type within the cap |
| IdlTypes.UnguardedComplete | core/abi/decoder.py:189-238 | Every layout within the cap is found |
| IdlTypes.CapOnlyCuts | core/abi/decoder.py:189-238 | The guard alone already terminates (names left, then type size), and the cap only cuts off answers that are too deep |
| ChainLock.LockIsSafe | core/worker/chain_lock.py:30-67 | Under the timing bound, in every reachable state of any number of workers at most one runner is live, it owns the live key, and no renew loop has lost the lock |
| ChainLock.ExclusionBound | core/worker/chain_lock.py:30-67 | Two or more workers exclude each other in every run iff (misses+1)·(interval+delay)+release < TTL |
| ChainLock.StepKeepsInv | core/worker/chain_lock.py:30-67 | Every step of every worker, including crashes and the non-atomic get/expire and get/delete, keeps the timing invariant |
| ChainLock.KeyRules | core/worker/chain_lock.py:30-67 | The key changes only by taking it while free, for the whole TTL, extending it after a check, and deleting it after a check, the last two whoever holds it by then |
| ChainLock.CheckRules | core/worker/chain_lock.py:50-62 | A check succeeds only for the owner of the live key; any other worker stops renewing, or leaves the key alone when releasing |
| ChainWorkers.OneLiveRunner | apps/worker/main.py:323-411 | Any number of workers whose traces are those of reconciles and shutdowns, over one key: under the timing bound a chain never has two live runners, and the worker that runs it owns the live key |
| ChainWorkers.RunsAreLockRuns | apps/worker/main.py:323-375 | Whatever the workers' traces drive the lock to is reachable by the lock protocol, and each worker's phase is the one its trace leaves it in |
| ChainWorkers.StepIsEnabled | apps/worker/main.py:334-375 | A step that keeps every trace in order is one the lock protocol allows |
| ChainLock.ExpiresWhileRunning | core/worker/chain_lock.py:56-67 | If failed renewals can span the TTL, two runners are live in some run |
| ChainLock.DeletesTheNextHolder | core/worker/chain_lock.py:43-54 | If only the release can be late, it deletes the next holder's key and two runners are live in some run |
| ChainLock.ShippedConstants | core/worker/chain_lock.py:10-12 | With TTL 30 and interval 10, one failed renewal is tolerated iff delays and release stay under 10 in total, and two are never tolerated |
| Reconcile.Worker.Reconcile | apps/worker/main.py:323-364 | Exactly the enabled chains that were running or could be acquired and started are running, all on the new snapshot, with runner and lock keys equal |
| Reconcile.Worker.DropGone | apps/worker/main.py:327-332 | Exactly the runners of chains no longer enabled are stopped, their locks released |
| Reconcile.Worker.TakeUp | apps/worker/main.py:334-364 | One enabled chain is updated, taken up, or left alone with its lock given back |
| Reconcile.Worker.StopRunner | apps/worker/main.py:366-375 | Stops one runner while its lock is still held |
| Reconcile.Worker.Shutdown | apps/worker/main.py:400-411 | No runner and no lock is left |
| Reconcile.RunnerInsideLock | apps/worker/main.py:323-375 | At every moment of every history, a chain whose runner is alive has its lock acquired and its release not begun |
| Reconcile.OrderMeaning | apps/worker/main.py:323-375 | A well-ordered history leaves a chain running iff started and not stopped, and locked iff acquired and its release not begun |
| EndpointPool.EndpointPool.constructor | core/chains/rpc_pool.py:41-62 | A new pool has all endpoints healthy |
| EndpointPool.EndpointPool.Call | core/chains/rpc_pool.py:71-95 | Returns the first candidate in priority order that answers, raises iff all fail; the one that answers is as good as new, each tried before it has one failure more and cools down from then once at the threshold, the others are unchanged |
| EndpointPool.Candidates | core/chains/rpc_pool.py:67-69 | Exactly the healthy endpoints, or all when none is healthy, in priority order; never empty |
| EndpointPool.InterleavingKeepsCoherent | core/chains/rpc_pool.py:71-111 | Under any interleaving an endpoint has a cooldown set iff it failed `threshold` times in a row; each call tries its candidates in order, its answer is that of the first one that answered after all earlier ones failed, and it ends without one only when all failed |
| EndpointPool.EveryRunIsCoherent | core/chains/rpc_pool.py:71-111 | The same in every run |
| EndpointPool.FreshEndpointReflects | core/chains/rpc_pool.py:97-111 | Under any interleaving an endpoint's counter is the number of failed attempts since its last answer, and it cools down from the last of them iff they reach the threshold |
| EndpointPool.EveryRunReflects | core/chains/rpc_pool.py:97-111 | The same from any state that reflects its attempts |
| EndpointPool.DeadEndpointBudget | core/chains/rpc_pool.py:67-111 | In sequential calls with some healthy endpoint each, an endpoint that never answers is tried at most its remaining failures plus one per cooldown |
| EndpointPool.DeadEndpointBound | core/chains/rpc_pool.py:67-111 | From fresh: at most threshold + floor(span / cooldown) attempts |
| EndpointPool.CooldownsIsFloor | core/chains/rpc_pool.py:105-111 | The recursive count of cooldowns is the integer quotient |
| ConfigWatcher.ConfigWatcher.ReloadAndMaybeEmit | apps/worker/config_watcher.py:119-130 | Emits a loaded snapshot iff its version differs from the last one; a failed load changes nothing |
| ConfigWatcher.EmissionsAreSound | core/config/snapshot.py:90-95 | In every interleaving of writers and reloads, a snapshot of version v holds every write committed up to v, and consecutive emitted versions differ |
| ConfigWatcher.StepKeepsInv | apps/worker/config_watcher.py:86-130 | Every write, table read and reload end keeps that |
| ConfigWatcher.QuietStep | apps/worker/config_watcher.py:119-130 | Once writers are quiet, finishing any reload settles the watcher and nothing unsettles it |
| ConfigWatcher.Converges | apps/worker/config_watcher.py:119-130 | After writes stop and earlier reloads end, the next finished reload leaves the last emitted snapshot equal to the database, for good |
| ConfigWatcher.OlderCanFollowNewer | apps/worker/config_watcher.py:126-129 | A run in which version 0 is emitted after version 1 |
| EmissionOrder.EmittedAreChanges | apps/worker/config_watcher.py:119-130 | In every run the versions emitted are those reloads finish with, without immediate repetitions |
| EmissionOrder.VersionsAscendIff | apps/worker/config_watcher.py:119-130 | Emitted versions ascend iff reloads finish in the order of the versions they read |
| EmissionOrder.EachVersionOnceIff | apps/worker/config_watcher.py:35-38 | No version is emitted twice iff no finished version comes back after another one |
| EmissionOrder.OneAtATimeAscends | apps/worker/config_watcher.py:86-130 | If a reload only begins when none is under way, versions ascend and there is at most one emission for the first snapshot and each change |
| EmissionOrder.EmittedTwice | apps/worker/config_watcher.py:35-38 | A run with one change and three emissions |
| AnchorLogs.ExtractPayloads | core/parser/anchor_event.py:34-50 | The loop over an explicit stack attributes payloads as the recursive reading does |
| AnchorLogs.ParserInvertsPrinter | core/parser/anchor_event.py:34-50 | For every tree of successful invocations, the printed log is read back with every payload attributed to its emitter, in order |
| AnchorLogs.ExtractPrinted | core/parser/anchor_event.py:34-50 | The same in any context, with the stack restored after each subtree |
| AnchorLogs.TransparentIffOther | core/parser/anchor_event.py:36-45 | A line leaves every attribution alone wherever it stands iff it has none of the three forms |
| AnchorLogs.LogLineReadAsSuccess | core/parser/anchor_event.py:41-44 | Program output ending in " success" is read as the end of an invocation |
| AnchorLogs.LogLineReadAsInvoke | core/parser/anchor_event.py:37-40 | Program output "invoke [1]" is read as an invocation |
| AnchorLogs.ProgramLineIsRead | core/parser/anchor_event.py:36-47 | "Program ", a word and a text are an invocation iff the text is "invoke [n]", else a success iff its last word is "success", else a payload iff the word is "data:", else nothing |
| AnchorLogs.OtherLinesAreFiller | core/parser/anchor_event.py:36-47 | Lines that do not start with "Program " are nothing |
| AnchorLogs.NoWordIsRead | core/parser/anchor_event.py:18-47 | Without a word after "Program " a line is no invocation and no payload |
| AnchorLogs.DepthIsLevel | core/parser/anchor_event.py:18 | Every depth in decimal is a level |
| AnchorLogs.PayloadIsRead | core/parser/anchor_event.py:41-46 | A data line with a base64 payload is never taken for another form |
| AnchorLogs.InvokeIsRead | core/parser/anchor_event.py:18-39 | An invoke line is read back with its program |
| AnchorLogs.SuccessIsRead | core/parser/anchor_event.py:37-44 | A success line is read as one |
| CallTrace.WalkMeaning | core/parser/internal_call.py:24-41 | For the raw traces of a block, the walk yields the events of decodable frames in preorder, at depth at most 64 and with no error on or around them, up to the first such frame whose selector lookup raises; it raises iff there is one |
| CallTrace.FrameMeaning | core/parser/internal_call.py:43-88 | What a raw frame yields: the created address for a creation, the callee with the function's name and arguments for a decodable call, nothing otherwise, an exception iff the lookup raises |
| CallTrace.SelectedRaises | core/parser/internal_call.py:65-67 | Selecting raises iff the lookup of some visited frame does |
| CallTrace.WalkGuardIsIdle | core/parser/internal_call.py:31-32 | The walker's own depth guard never fires on parser output |
| CallTrace.ParseIsShallow | core/chains/evm.py:281-288 | Parsed trees are at most 65 frames high, counted from the root |
| DeliveryCleanup.DeliveryRecordRepo.CleanupSuccess | core/config/repositories.py:301-321 | The success rows of ranks keep..keep+batch-1, newest first, are gone and no other row is; returns min(batch, excess) |
| DeliveryCleanup.CleanupCutsPage | core/config/repositories.py:301-321 | One call removes the success rows of ranks keep..keep+batch-1 and leaves every other row alone |
| DeliveryCleanup.CleanupCounts | core/config/repositories.py:301-321 | The number deleted is min(batch, excess) |
| DeliveryCleanup.CleanupConverges | core/config/repositories.py:301-321 | n calls leave exactly the newest `keep` success rows iff n·batch covers the excess; other rows are untouched |
| DeliveryCleanup.OldestGoFirst | core/config/repositories.py:301-321 | A call deletes the oldest success rows iff one batch covers the excess or nothing is deleted |

## Left out

- EvmCatchup.CatchupRefinesOneByOne: counts a block as processed when fetching and processing it both succeeded; notifications already dispatched by a block that then failed are not counted.
- EvmCatchup.CatchupRunner.CatchupEvm: one configuration per catch-up; a snapshot applied between two windows is not modelled.
- HeadDriver.LiveProcessingIsExact: speaks of heights; the block body and logs of a confirmed height are fetched again by number, which is not tied to the confirmed hash.
- LiveDeliveries.LiveDeliversExactly: takes the block and the logs of a height as fixed, for the same reason.
- ReorgRuns.PathIsAncestry: for `confirmations >= 1`; the other case is `ReorgRuns.ZeroConfirmations`.
- ReorgRuns.FrontierIsExact: for `confirmations >= 1`; with 0 nothing is checked and heights need not be contiguous.
- SolanaCatchup.FallbackIsInvisible: assumes that `get_blocks` lists ascending slots of the range, among them every slot that processes, and that the stop flag, once seen, stays set; `SolanaAdapter.AdapterRunIsSlotBySlotIff` is the statement without the first assumption.
- SolanaAdapter.AdapterRunIsSlotBySlotIff: assumes that a listed answer holds every slot that processes up to the finalized height of the endpoint that gave it.
- LogFetch.BisectionIsTransparent: assumes that a successful query returns the logs of exactly the blocks asked for, those of one block in order; the node's honesty is not something the worker can check.
- NodeAdapters.PooledQueriesAreNotDegraded: malformed log fields, which make the adapter raise after a successful request, are not modelled.
- ChainLock.LockIsSafe: time is discrete; exceptions while acquiring or releasing, and a Redis that forgets keys, are not modelled.
- Reconcile.Worker.Reconcile: exceptions of acquiring, releasing and applying a snapshot are not modelled; a runner task that crashes by itself stays in the table, as in the source, but its crash is not an event of the model; nor is a shutdown that overtakes a reconcile.
- Reconcile.Worker.Shutdown: runners are stopped one after the other in any order, where the source stops them in parallel before any lock is released; release errors, which the source ignores, are not modelled.
- EndpointPool.DeadEndpointBound: threshold and cooldown are at least 1 and times are integers.
- ConfigWatcher.EmissionsAreSound: each of chains, ABIs and subscriptions (with their channel bindings) is read as one table; writes are committed together with a serialised version bump; putting on the queue is atomic with remembering the version, so its bound of 8 never blocks between the two.
- PushDown.BuildEvmLogFilter: address and topic lists are sets, since the node reads them as such; the order of the lists sent is not modelled.
- PushDown.PushDownPreservesDeliveries: events of the parsers that do not read logs are a fixed list before and after; numbers in topics and data are read as plain hexadecimal, without the blanks and underscores Python's `int` also accepts.
- Filters.DecimalRoundTrip: for natural numbers in decimal; `int` of blanks, underscores and other forms is not modelled.
- AnchorLogs.ExtractPayloads: blanks, digits and letter case are ASCII, and a trailing newline after an invoke line is not accepted; what a payload decodes to is not modelled.
- CallTrace.WalkMeaning: amounts are kept as strings, so a malformed hexadecimal amount, which makes the source's parse raise, does not occur.
- SolanaCatchup.SlotRunner.ProcessSolanaSlot: one outcome per slot stands for fetching, parsing, dispatching and saving.
- DeliveryCleanup.CleanupConverges: rows with the same `created_at` are in one fixed order, where the database may choose any.
- IdlTypes.ResolveIsExact: IDL types are well-formed values; malformed JSON (a field without a name) is not modelled.
- The handover from catch-up to live heads, missed heads of the poller, and the checkpoint across restarts: each theorem is per phase.
- Replay, payload building, native, SPL and SOL instruction parsers, delivery retries and channel drivers: would add only easy members.
- Web UI, routers, schemas, migrations, logging, metrics and settings.
