# neve: a verified model of its store, fill protocols, replication and codecs

neve copies blocks from an upstream Avalanche node into a height-keyed store with two
indexes and answers reads only when it can answer them completely. This project models the
parts in which that promise is decided and proves it for every input, every run or every
reachable state.

| files | what they model |
|---|---|
| `U64`, `Seqs`, `BlockDb`, `Storage`, `Stamps` | saturating arithmetic, the blockstore and its contiguous frontier, the two-stage `put` with crashes, the stamps checked on each open |
| `PlatformBlock`, `PlatformIngest` | one P-chain block and its cross-check, the polling loop with its one-deep hold for reward proposals |
| `Backfill`, `Logs`, `TipCache`, `JoinBuffer`, `Aimd` | the C-chain backfill while live heads write the same store, its two log sources, its cached tip, the block/logs join, the adaptive delay |
| `Replication` | the server's range replay against the client's bootstrap over a FIFO channel that can be cut anywhere |
| `Json`, `Record`, `StoredText`, `Base58`, `Codec`, `TxIndex` | the record array over raw JSON text (RFC 8259, sections 2 to 7), CB58 and hex (section 8 of RFC 4648), transaction positions |
| `GetLogs`, `ServedLogs`, `PlatformServe` | chunked `eth_getLogs`, its answers against the chain's logs, `platform.getBlock` and `platform.getTx` |
| `Pacing` | the pacer, and the host pacer followed by each chain's own |

Code that updates state in place is a class or a looping method (`Store.PutBlock`,
`MetaStore.VerifyAndStamp`, `FillRange`, `LogWindow.Load`, `Buffer.OnBlock`, `Pacer.Wait`,
`EncodeRecord`, `ScanRange`, ...), each tied to a function; protocols in which several
parties take turns are step functions folded over arbitrary event sequences.

Reading conventions:

- SHA-256 is an arbitrary function to 32 bytes. Upstream, put outcomes, clocks and sockets
  are parameters or events, so a theorem quantifies over everything they may do.
- *Finality* (one block per height, every block and transaction ID in one place) is an
  explicit hypothesis (`Storage.Final`, `Truthful`, `Faithful`) where the source relies on it.
- Heights are natural numbers; `saturating_add` and `saturating_sub` are written out, or the
  heights of a history stay below 2^64 - 1, where they still move.

Where a property one would expect of the code fails, the code is followed, a failing input is
given, and the exact condition under which the property holds is proved:

- **A floor above the frontier stalls C-chain catch-up.** Backfill works from
  `max(contiguous, floor - 1)`. `SolidIff` gives the exact condition for a pass to start where
  the store's frontier ends (always true for a store whose minimum is at or above the floor).
  Where it holds, every successful pass closes the gap (`GapShrinks`); where it does not, the
  frontier stays put over every history until a head fills the hole behind it
  (`OffSolidGroundStalls`), and a run with no other writer advances it if and only if the
  condition holds (`QuietRunProgressIff`). `FloorAboveTheTipStalls` gives the histories that
  lead there; a restart, which drops the floor, ends it (`RestartIsSolid`).
- **A C-chain floor of 0 starts at height 1** (`FirstRunStartsAtTheFloorIff`); the P-chain
  loop is right at 0.
- **A stored transaction index is a rank among decodable entries**, so it names the
  transaction if and only if no undecodable entry precedes it (`StoredIndexResolves`,
  `GetTxIsTheTxIff`; `UndecodableEntryMisleads` is the failing input).
- **The host pacer bounds counts, and spacing only sometimes.** The count bound always holds
  (`HostBudgetHolds`). Spacing at the moment of sending survives every schedule without delays
  if and only if there is one chain or no chain is slower than the host
  (`HostSpacingSurvivesIff`; `HostSpacingIsLostAtRelease` builds the failing schedule for any
  other configuration).
- **A rewritten height breaks hash lookup** (`ReorgBreaksHashLookup`). Without finality a
  lookup is right if and only if the last write taken at the indexed height carried the hash,
  or the transaction id at its position (`HashLookupRightIff`, `TxLookupRightIff`).
- **The two log sources agree at a height if and only if each of its logs carries a readable
  block number** (`SourcesAgree`; `UnreadableNumberIsLost` is the failing input).
- **Heights stored while log ingestion was off answer `[]`.** Over every sequence of processes
  `eth_getLogs` answers a stored range with the chain's logs, for each of its parts and every
  filter, if and only if each height was written by a writer that carries its logs exactly
  (`ServedLogsAreTheChainsIff`; `BeforeIngestionAnswersNothing` is the failing input).
- **A mirror whose floor is below the server's minimum never starts**, one without a floor
  included unless the server starts at genesis: it stores nothing over every history
  (`LowFloorNeverStarts`). A connection gets going if and only if what it asks for is not below
  the server's minimum (`ConnectStartsIff`).
- **A range ending at 2^64 - 1 repeats its last record** until the socket closes; every other
  range ends (`ServeRange`).
- **Block data without an identity stamp** is let in by a format stamp alone
  (`UnidentifiedData`), a combination no history of the program produces (`NeverMixed`).

Taking the singular `tx` out of a block leaves a JSON null in its list (`BlockValue.TakeNth`).

## Model

| member | source | states |
|---|---|---|
| `BlockDb.FrontierIff` | src/storage.rs:342-352 | the frontier reaches a height exactly when no height from the minimum up to it is missing |
| `BlockDb.FrontierGrows` | src/storage.rs:342-352 | whatever is added under the same minimum, the frontier never falls |
| `BlockDb.AnchorIff` | src/storage.rs:580-605 | a new store will take exactly its first height and above, and anything from the floor up |
| `Storage.Store.PutBlock` | src/storage.rs:559-633 | a put succeeds exactly when arity, block write and batch do; a wrong arity or failed write changes nothing, a failed batch leaves exactly what a crash between the stages leaves, and a success is both stages of the state machine |
| `Storage.IndexPointsInside` | src/storage.rs:532-633 | in every reachable state, with any number of puts in flight and crashes between the stages, every hash and transaction entry points at a stored height |
| `Storage.TxEntriesRange` | src/storage.rs:609-628 | the batch adds exactly the block's transaction ids, each at its own height and one of its positions, and touches no other entry |
| `Storage.CommitIndexes` | src/storage.rs:609-628 | a committed put is found by its hash at its height and by each of its transactions at its height and one of its positions; nothing else in the index moves |
| `Storage.EndsOnePut` | src/storage.rs:559-633 | a batch that commits or fails ends exactly its own put, a crash all of them, and only a commit touches the index |
| `Storage.ReachableFromChain` | src/storage.rs:559-633 | under finality every stored block, put in flight and index entry agrees with the one chain |
| `Storage.LookupsAreRight` | src/storage.rs:418-438 | under finality a lookup by hash returns the block of that hash, a lookup by transaction id the block and position of that transaction, and an index hit never becomes a miss |
| `Storage.UnindexedHeights` | src/storage.rs:532-633 | a stored height without an index entry is in flight now, or was in flight at some earlier crash or failed batch |
| `Storage.UnindexedTxs` | src/storage.rs:532-633 | under finality a transaction of a stored block that is not indexed has its block's put in flight now, or had it at an earlier crash or failed batch |
| `Storage.LastWriteIsStored` | src/storage.rs:559-608 | a stored height holds the block of the last write taken there |
| `Storage.HashLookupRightIff` | src/storage.rs:418-438 | over every history, finality or not, an indexed hash is answered with the last block written at its height, and rightly if and only if that write carried the hash |
| `Storage.TxLookupRightIff` | src/storage.rs:517-530 | the same for a transaction id and its recorded position |
| `Storage.ReorgBreaksHashLookup` | src/storage.rs:609-628 | without finality the first hash of a rewritten height resolves to the second block |
| `Stamps.MetaStore.Verify` | src/storage.rs:51-164 | the checks in source order accept exactly what `Accepts` does |
| `Stamps.MetaStore.VerifyAndStamp` | src/storage.rs:51-187 | a refusal inserts nothing; an acceptance inserts exactly the missing stamps in the order chain, identity, format |
| `Stamps.PrefixApplied` | src/storage.rs:166-187 | exactly which stamps a crash after any number of inserts leaves behind |
| `Stamps.HistorySound` | src/storage.rs:51-187 | over every history of opens, crashes and writes a format stamp implies an identity stamp and all data belongs to the stamped chain and identity; a store that starts with unidentified data never changes |
| `Stamps.UnidentifiedStaysShut` | src/storage.rs:145-161 | block data with neither identity nor format stamp is refused by every open of every history, and nothing is stamped |
| `Stamps.NeverMixed` | src/storage.rs:51-187 | data written under one (chain, identity) never opens under another, a refused open changes no stamp, and data without an identity stamp is only ever data that started so, refused to everyone |
| `Stamps.OpensIff` | src/storage.rs:51-164 | over every history an open is let in exactly when no stamp contradicts its chain and identity, a missing chain stamp beside an identity standing for C |
| `Stamps.OpenStamps` | src/storage.rs:165-187 | an open that is let in and not cut short is a session under its name with all three stamps in place, under which blocks can be written |
| `Stamps.NewDirectoryOpens` | src/storage.rs:165-187 | a new directory can be opened under any chain and identity and is stamped for it |
| `Stamps.OwnerCanReopen` | src/storage.rs:51-187 | the owner of stored data is let in after any history of crashes between stamp inserts, exactly unless the data never had an identity stamp |
| `Stamps.OwnerReopens` | src/storage.rs:51-187 | after any history and a close or crash the owner's next open is a session again |
| `Stamps.UnidentifiedData` | README.md:139-148 | data with no identity stamp is let in only by a format stamp, which `NeverMixed` shows cannot stand alone |
| `Stamps.ParseDecimal` | src/storage.rs:112-183 | the format version parses back from the decimal text it was stamped as, an optional plus sign included |
| `Stamps.ParsesDigitsOnly` | src/storage.rs:112-118 | empty texts, texts that do not end in a digit and numbers of 2^32 or more do not parse |
| `PlatformBlock.VerifyIff` | src/platform/ingest.rs:456-525 | `verify` admits exactly the records whose bytes hash to the reported ID, at the reported and asked height, with kind, ids and staking transaction read off the same halves |
| `PlatformBlock.RewardProposalIff` | src/platform/ingest.rs:543-552 | a block is recognised as proposing the reward of a staking transaction exactly when its `tx` carries that `txID` and neither time nor inputs |
| `PlatformBlock.DecodeIdIff` | src/platform/ingest.rs:570-582 | a transaction is numbered under an ID exactly when its `id` spells that ID |
| `PlatformBlock.BlockValue.TakeNth` | src/platform/mod.rs:42-70 | taking position i of the `txs`-then-`tx` list returns what the list shows there; the rest of the array keeps its multiset, a taken `tx` becomes null |
| `PlatformBlock.SwapRemoved` | src/platform/mod.rs:53-70 | `swap_remove` drops one occurrence and keeps every other |
| `PlatformIngest.FetchIsChecked` | src/platform/ingest.rs:436-445 | whatever two encodings upstream returns, a fetched block sits at the asked height and is self-verifying, and two encodings of such a block are always accepted |
| `PlatformIngest.FillRange` | src/platform/ingest.rs:206-268 | the loop with its hold computes the function `Fill`, about which the next rows speak |
| `PlatformIngest.WriteAtFrontier` | src/platform/ingest.rs:319-357 | a write at the anchor or at frontier + 1 keeps the store one interval and moves the frontier there |
| `PlatformIngest.RunWritesAtTheFrontier` | src/platform/ingest.rs:206-268 | for every upstream a run writes consecutive heights from the anchor or frontier + 1; over k heights, not cut short, it writes k, or k - 1 exactly when the last block is a held reward proposal |
| `PlatformIngest.FillRewards` | src/platform/ingest.rs:227-315 | under finality a run stores every block with the rewards element its successor decides: `[]` on abort, the staking transaction's UTXOs on commit, never on another outcome, `[]` for other blocks |
| `PlatformIngest.ResolvedRewards` | src/platform/ingest.rs:278-315 | what settles a held proposal is what the next block of the chain decides |
| `PlatformIngest.TurnKeeps` | src/platform/ingest.rs:130-190 | one turn of the loop keeps the store one interval, keeps its minimum and never lowers its frontier |
| `PlatformIngest.Ingest` | src/platform/ingest.rs:116-191 | the loop over polls and runs computes the fold `After`, about which the next row speaks |
| `PlatformIngest.LoopIsGapFreeAndRight` | src/platform/ingest.rs:116-191 | for every schedule of tips, failures, floors and restarts the store is one gap-free interval whose start never moves and whose end never falls, and under finality every stored block is the chain's with the right rewards |
| `PlatformIngest.StoredRewardsInFields` | src/platform/ingest.rs:227-315 | the same rewards in the fields of the blocks: a `tx` proposing a reward carries `[]` before an abort's bytes, the staking transaction's UTXOs before a commit's, and is stored before nothing else; every other block carries `[]` |
| `PlatformIngest.TurnAdvances` | src/platform/ingest.rs:130-190 | a turn whose calls succeed brings the frontier to the tip or 8192 heights on, one short exactly at a held proposal; a new store starts at the floor, or at the tip without one |
| `PlatformIngest.FillSucceeds` | src/platform/ingest.rs:206-268 | a run is only cut short by a failed fetch or put or an undecided proposal |
| `PlatformIngest.FailuresEndTheRun` | src/platform/ingest.rs:206-268 | a failed fetch or put ends the run there, leaving a block that was written before its batch failed |
| `Replication.WireRoundTrip` | src/platform/mirror.rs:235-257 | the client admits only self-verifying records, and a self-verifying record survives the wire unchanged |
| `Replication.VerifiedHistoryIsFaithful` | src/platform/mirror.rs:235-257 | a server of verified records meets the hypothesis of the next rows with the client's real cross-check |
| `Replication.ServeRange` | src/subscribe.rs:244-344 | a request is refused up front exactly when it starts below the minimum or its fixed end is not within [start..frontier]; an accepted one sends the records in order with no hole while the store moves, and stops only with the socket or past its target, the fixed end or the tip wherever it has moved by then; an end of 2^64 - 1 never stops |
| `Replication.ConnectStartsIff` | src/platform/mirror.rs:86-107 | a connection leaves the idle state exactly when what the client asks for is not below the server's minimum |
| `Replication.LowFloorNeverStarts` | src/platform/mirror.rs:67-107 | a cold mirror whose floors all lie below the server's minimum, or that has none of a server above genesis, stores nothing over every history |
| `Replication.ConnectionCatchesUp` | src/platform/mirror.rs:67-165 | a connection that may start can always end live with the client's frontier at or past the server's |
| `Replication.RoundsGoLive` | src/platform/mirror.rs:86-165 | a bootstrap whose records are sent and delivered reaches its target and goes live |
| `Replication.LiveRecordStores` | src/platform/mirror.rs:168-210 | a record followed live is stored as the server holds it, touches no other, and moves the frontier when it continues it |
| `Replication.FailureEndsTheSession` | src/platform/mirror.rs:118-165 | a record that does not verify or whose put fails ends the session and loses nothing |
| `Replication.Surroundings` | src/subscribe.rs:244-344 | what server writes, stray frames and a cut do to each side |
| `Replication.Bootstrap` | src/platform/mirror.rs:86-165 | whatever the cut, the client holds only the server's records, lost nothing and has filled a gap-free prefix that only the cut or a failed put ended; it is done exactly when all frames arrived and every put succeeded, and then its frontier is at or past the target |
| `Replication.HistoryKeeps` | src/platform/mirror.rs:67-165 | the protocol invariant over every interleaving and every server anchor: the frames under way are the records from the first undelivered height on, and everything below is stored |
| `Replication.MirrorAgrees` | src/platform/mirror.rs:67-165 | at every moment each record of the client is the server's record at that height, and a bootstrap under way has stored a gap-free prefix from `from` |
| `Replication.BootstrapHeals` | src/platform/mirror.rs:86-165 | a bootstrap that completes leaves agreement on all of [from..=target] and no hole from the minimum to the target, whatever live following had skipped |
| `Replication.FrontierNeverFalls` | src/platform/mirror.rs:67-210 | over any sequence of sessions the client keeps its minimum and its frontier never falls |
| `Logs.LogWindow.Load` | src/eth/backfill.rs:128-140 | after a load the window holds exactly the new array's logs, bucketed by height in order, and nothing from before |
| `Logs.ReceiptsConcatenate` | src/eth/ingest.rs:458-468 | each receipt contributes its logs, in order, and nothing is lost |
| `Logs.SourcesAgree` | src/eth/ingest.rs:458-468 | the window and the receipts store the same sequence at a height of the range if and only if its logs have readable numbers; outside the range the window serves nothing |
| `Logs.UnreadableNumberIsLost` | src/eth/backfill.rs:128-140 | a log without a readable number is stored from receipts and missing from the window |
| `Logs.RangeAtHeight` | src/eth/backfill.rs:123-186 | bucketing a range's logs recovers each height's own logs |
| `Backfill.HistoryKeepsRun` | src/eth/backfill.rs:324-419 | whatever is interleaved, the heights a run has passed or skipped are stored and nothing is lost |
| `Backfill.TrueRunReachesItsEnd` | src/eth/backfill.rs:324-374 | a run that returns true has stored all of its range and left the frontier at or past its end when the frontier it started from had reached its start |
| `Backfill.FinishedPassIsTrue` | src/eth/backfill.rs:216-298 | a pass whose run finishes covered the range it computed, whatever other writers did meanwhile |
| `Backfill.SolidIff` | src/eth/backfill.rs:242-246 | a pass starts at the frontier exactly when the floor is at most frontier + 1 and the frontier is not below genesis; always so for a store anchored at or above its floor |
| `Backfill.GapShrinks` | src/eth/backfill.rs:230-297 | each such successful pass shrinks the gap to a fixed target by at least min(behind, 2048), hence strictly |
| `Backfill.CatchesUp` | src/eth/backfill.rs:230-297 | n successful passes close a gap of up to 2048 n heights, also when restarts between them drop the floor |
| `Backfill.AnsweredPassFinishes` | src/eth/backfill.rs:216-298 | a pass with work whose fetches are answered, or find the height stored, and whose puts succeed stores every height from the later of floor and frontier + 1 to the target or 2048 heights on |
| `Backfill.CanCatchUp` | src/eth/backfill.rs:230-297 | from solid ground such passes bring the frontier to any target |
| `Backfill.HeadIsStored` | src/eth/ingest.rs:720-745 | a head is stored at its height, touches no other and moves the frontier when it continues it |
| `Backfill.FailuresEndTheRun` | src/eth/backfill.rs:324-374 | a failed fetch or put ends the run, leaving a block that was written before its batch failed |
| `Backfill.WaitsForTheFirstHead` | src/eth/backfill.rs:230-240 | without a floor no history backfills anything before the first head |
| `Backfill.DroppedFloorIsSolid` | src/main.rs:517-577 | a pass that starts at the frontier still does after the floor is dropped |
| `Backfill.QuietRunProgressIff` | src/eth/backfill.rs:242-297 | with no other writer a successful run advances the frontier to its end if and only if it started at the frontier, and otherwise not at all |
| `Backfill.OffSolidGroundStalls` | src/eth/backfill.rs:230-297 | otherwise, over every history, the frontier never moves until a head is written into the hole behind it |
| `Backfill.FloorAboveTheTipStalls` | src/eth/backfill.rs:242-246 | a first head more than one below the floor anchors the store there, and unless the very next head is written no history moves its frontier |
| `Backfill.RestartIsSolid` | src/main.rs:517-577 | the floor is dropped once the store exists, so after a restart a pass starts at the frontier whatever is configured |
| `Backfill.FirstRunStartsAtTheFloorIff` | src/eth/backfill.rs:246-246 | on an empty store the first run starts at the configured floor, else at the mirrored upstream's minimum, if and only if that is not 0 |
| `Backfill.StoredLogsAreExactIff` | src/eth/backfill.rs:332-362 | over every sequence of processes, each with its own floor, log source and window, a stored height holds the chain's block, and exactly its upstream logs if and only if it has none, or its writer fetched them live or from receipts, or bucketed logs that all carry readable numbers |
| `Backfill.LivesProvenance` | src/main.rs:234-262 | across restarts that probe another log source every record carries what its own writer gives for that height and no other |
| `Backfill.HistoryProvenance` | src/eth/backfill.rs:324-419 | one process, from any store of such records: every record and every outcome under way carries what its source gives for that height and no other |
| `Backfill.ExactIff` | src/eth/ingest.rs:410-431 | what each kind of writer stores is the height's logs exactly under the condition named there |
| `ServedLogs.ServedLogsAreTheChainsIff` | src/eth/rpc.rs:415-496 | a stored range is always answered, and with the chain's logs for every part and filter if and only if each of its heights was written by a writer that carries its logs exactly |
| `ServedLogs.BeforeIngestionAnswersNothing` | README.md:211-213 | a height with logs stored by a process that did not ingest them answers `[]` |
| `TipCache.Cache.Decide` | src/eth/backfill.rs:255-281 | one pass of the cached loop up to its work-or-idle choice |
| `TipCache.Cache.Get` | src/eth/backfill.rs:99-121 | a fresh value is reused, a stale one is read again, a failed read keeps the old value |
| `TipCache.CacheRefinesPolling` | src/eth/backfill.rs:259-281 | when tips never fall and reads succeed, the cached loop makes the same choice as one that reads every pass |
| `TipCache.CaughtUpWasConfirmed` | src/eth/backfill.rs:247-281 | a pass that declares caught up attempted exactly one upstream read in that pass and decided on its result |
| `TipCache.CacheNeverAhead` | src/eth/backfill.rs:88-121 | while tips never fall the cached tip is never above the upstream's, failed reads included |
| `TipCache.KnownWorkIsNotIdle` | src/eth/backfill.rs:99-121 | a tip once read is not forgotten by a failed read, and work known of is never idled over |
| `TipCache.AtMostOneReadPerTtl` | src/eth/backfill.rs:88-121 | after an attempt, working or not, passes with known work ask nothing for ten seconds, and then once |
| `JoinBuffer.Buffer.OnBlock` | src/join.rs:153-204 | new buffer, outcome and written record of a block's arrival; never more than `cap` heights pending |
| `JoinBuffer.Buffer.OnLogs` | src/join.rs:208-247 | the same for a logs half |
| `JoinBuffer.Buffer.Finish` | src/join.rs:251-277 | a completed pair is written once, or reported failed and not written |
| `JoinBuffer.Buffer.BufferedBlock` | src/join.rs:282-287 | a block is served from the buffer exactly while it waits there |
| `JoinBuffer.JoinIsExact` | src/join.rs:153-277 | over every arrival sequence each written record pairs a block and logs of its height with no arrival for it and no flush between them, and an arrival is in a record exactly when used, in at most one |
| `JoinBuffer.EveryHalfIsAccountedFor` | src/join.rs:153-277 | every half is used, lost with its partner to a failed write, replaced by a later half of its kind, flushed at an overflow, refused by one, or pending; refused exactly when the buffer was full without its height |
| `JoinBuffer.RefinesOneSlotPerHeight` | src/join.rs:153-247 | the shared buffer has pending exactly what a reference on the arrivals alone leaves waiting at each height |
| `JoinBuffer.FullIsOverflow` | src/join.rs:185-188 | it flushes exactly when the reference counts `cap` waiting halves and none at the arrival's height |
| `JoinBuffer.WritesWhatTheReferenceWrites` | src/join.rs:153-277 | and it writes one record exactly when an arrival meets the other half the reference has waiting and the put succeeds |
| `Aimd.AimdDelay.Record` | src/eth/ingest.rs:356-366 | one step of the controller, staying within the cap |
| `Aimd.DelayWithinCap` | src/eth/ingest.rs:339-366 | for every outcome sequence the delay stays in [0, cap] |
| `Aimd.EmptyRateBound` | src/eth/ingest.rs:339-366 | if the cap never cuts an increase short, n heads hold at most (n + cap in ms) / 11 first-try empties |
| `Aimd.UnclampedDelay` | src/eth/ingest.rs:339-366 | if neither clamp binds, the delay is exactly 10 ms per empty less 1 ms per ok |
| `Aimd.EmptiesClimb` | src/eth/ingest.rs:356-366 | after any history n empties in a row add 10 ms each, up to exactly the cap |
| `Aimd.OksDescend` | src/eth/ingest.rs:356-366 | and n oks take 1 ms each, down to zero |
| `Aimd.EmptiesPaidFor` | src/eth/ingest.rs:339-366 | the amortised form: eleven steps per empty are paid by the heads and the current delay |
| `Aimd.ZeroCapIsInert` | src/eth/ingest.rs:339-366 | a zero cap keeps the delay at zero |
| `Pacing.Pacer.Wait` | src/upstream.rs:158-184 | a claim gets a slot no earlier than now and the previous next slot, and moves the next slot one interval on |
| `Pacing.WindowHolds` | src/upstream.rs:158-184 | any window of length L holds at most floor(L / interval) + 1 slots that are an interval apart |
| `Pacing.EveryWindowHolds` | src/upstream.rs:158-184 | the same for the host's slots and each chain's after every interleaving |
| `Pacing.EveryPacerSpaces` | src/chain.rs:316-321 | for every interleaving the i-th and j-th slots of the host pacer, and of each chain's, are at least (j - i) intervals apart |
| `Pacing.HostBudgetHolds` | src/chain.rs:316-321 | through both pacers all chains together send at most floor((t - t0) / host interval) + 1 requests by time t |
| `Pacing.HostSpacingSurvivesIff` | src/chain.rs:316-321 | under every schedule without delays sends are a host interval apart if and only if there is one chain or no chain is slower than the host |
| `Pacing.PacedSendsAreSpaced` | src/chain.rs:316-321 | one direction, for every such schedule |
| `Pacing.HostSpacingIsLostAtRelease` | src/chain.rs:316-321 | the other: next to any second chain, a chain slower than the host has a schedule whose sends are closer than a host interval |
| `Json.WellFormedIff` | src/record.rs:142-153 | the scanner decides the grammar: a text is one JSON value exactly when skipping a value leaves nothing |
| `Json.SkipValueOver` | src/record.rs:142-153 | skipping the text of any value, however nested or escaped, stops exactly at its end |
| `Json.ValueTaken` | src/record.rs:142-153 | whatever the scanner skips is the text of some value |
| `Json.PlainCharacters` | src/record.rs:142-153 | a string holds one character bare exactly when it is no control character, quote or backslash |
| `Json.EscapeCharacters` | src/record.rs:142-153 | exactly eight characters may follow a backslash |
| `Json.UnicodeCharacters` | src/record.rs:142-153 | hex digits of either case, and only those, complete a `\u` escape |
| `Record.EncodeRecord` | src/record.rs:121-137 | the pushing loop writes the elements between brackets, separated by commas |
| `Record.SplitOver` | src/record.rs:142-153 | every JSON array of two or more values, whitespace anywhere, splits into spans that slice out exactly those values |
| `Record.SplitTree` | src/record.rs:142-153 | and nothing else splits |
| `Record.RecordRoundTrip` | src/record.rs:121-212 | for any two or more JSON values element i of the encoded record is the i-th input, later indexes are absent, and the span slices out those characters |
| `Record.BareObjectIsNotARecord` | src/record.rs:161-212 | a bare object is element 0 of itself, has no other element and is never read as a record |
| `Record.SplitIsNotBare` | src/record.rs:161-176 | whatever splits is not taken for a bare block |
| `Record.ElementIsWellFormed` | src/record.rs:187-212 | whatever bytes are stored, an element that is returned is one JSON value inside the record |
| `Record.WhitespaceBeforeTheLayout` | src/record.rs:161-191 | leading ASCII whitespace does not decide the layout, a form feed included, behind which nothing is read |
| `StoredText.ElementIsTheSpan` | src/record.rs:187-212 | what the store returns for an element is the slice the text has there, with the same misses and errors |
| `StoredText.EncodedIsCombined` | src/record.rs:121-153 | an encoded record is stored as its elements |
| `StoredText.ObjectIsBare` | src/record.rs:161-191 | an object stored alone is a bare block |
| `Base58.RecodeInverse` | src/platform/codec.rs:86-115 | changing base and back restores every digit string, leading zeros included |
| `Base58.RecodeKeeps` | src/platform/codec.rs:86-115 | changing base keeps the number and the count of leading zeros |
| `Base58.AlphabetIs` | src/platform/codec.rs:86-115 | the alphabet is the ASCII letters and digits without `0`, `O`, `I`, `l`, in ASCII order |
| `Codec.Base58Bijection` | src/platform/codec.rs:86-115 | base58 is a bijection between byte strings and strings over its alphabet; a foreign character is the only rejection |
| `Codec.Cb58RoundTrip` | src/platform/codec.rs:75-115 | decoding an encoded ID gives the ID |
| `Codec.Cb58OneSpelling` | src/platform/codec.rs:75-115 | an accepted string is exactly the encoding of its ID, and only encodings are accepted |
| `Codec.RenderedBytesDecode` | src/platform/codec.rs:125-187 | `hexnc` decoding undoes `hexnc` rendering for all bytes; `hex` and `hexc` decode to the bytes plus their checksum |
| `Codec.HexncOneSpelling` | src/platform/codec.rs:125-187 | rendering what was decoded restores the string exactly when it was in lower case |
| `Codec.HexRoundTrip` | src/platform/codec.rs:125-138 | base 16 decoding undoes encoding |
| `Codec.HexCaseFree` | src/platform/codec.rs:125-130 | decoding does not depend on case |
| `Codec.HexDigits` | src/platform/codec.rs:133-138 | rendered digits are the decimal ones and `a` to `f`, in order |
| `Codec.ChecksumEndsTheDigest` | src/platform/codec.rs:75-83 | the checksum is the last four bytes of the digest |
| `Codec.KindByBytes` | src/platform/codec.rs:54-66 | byte by byte, which blocks are proposals, aborts and commits in both eras; everything else, short blocks included, is none of them |
| `TxIndex.StoredIndexResolves` | src/storage.rs:616-626 | under unique ids the stored index is the rank among decodable entries and resolves to its transaction exactly when none before it is undecodable |
| `TxIndex.UndecodableEntryMisleads` | src/platform/ingest.rs:570-582 | behind any entry that does not decode an id is stored with that entry's position |
| `TxIndex.RankBounds` | src/eth/ingest.rs:790-798 | the rank equals the position exactly when every earlier entry decodes |
| `TxIndex.EntryOf` | src/platform/ingest.rs:570-582 | every numbered id belongs to the entry of that rank |
| `TxIndex.DistinctIdsAreUnique` | src/platform/ingest.rs:570-582 | ids distinct once numbered were distinct in the block |
| `GetLogs.LogMatches` | src/eth/rpc.rs:180-208 | the loop accepts exactly the logs whose address and topics satisfy the filter |
| `GetLogs.AcceptsIff` | src/eth/rpc.rs:168-208 | a log passes exactly when its address and each topic the filter names are, in lower case, among the given values |
| `GetLogs.MatchesIff` | src/eth/rpc.rs:168-175 | a constraint is a set of strings in which case does not matter |
| `GetLogs.LogsElemIff` | src/record.rs:187-200 | a height has logs to serve exactly when its record has a second element that parses; the older layout never has |
| `GetLogs.ReadElementRange` | src/storage.rs:480-513 | every height's element in order, given exactly when every height has one; a miss only for a height without it, an error only for a record that does not decode |
| `GetLogs.FilterChunk` | src/eth/rpc.rs:479-490 | one chunk appends its matching logs in height order, or fails exactly when an element does not parse |
| `GetLogs.ScanRange` | src/eth/rpc.rs:463-495 | reading in 256-height chunks of a store that moves between them equals one filter pass over the logs each height showed when read, in height order, answered exactly when every height showed a logs element |
| `GetLogs.GrowthIsInvisible` | src/eth/rpc.rs:463-495 | records that are there and final when the scan starts are what it sees, however the store grows |
| `GetLogs.AdmittedRangeIsStored` | src/eth/rpc.rs:437-460 | a range passes the checks exactly when its tags resolve to at most 2048 ordered heights between floor and frontier, all of them stored, or to height 0 alone of a store not yet created |
| `GetLogs.EarlyReplies` | src/eth/rpc.rs:437-460 | an error exactly for tags that mean no height, a reversed range or one of more than 2048 heights; a miss for a proper range the store does not cover |
| `GetLogs.EthGetLogs` | src/eth/rpc.rs:415-496 | the whole method over a moving store: refused without log ingestion, the early replies, one block's logs for a block hash, an answer exactly when every height carries logs when read, so never for a height of the older layout, and never a partial one |
| `PlatformServe.StoredAreAdmitted` | src/platform/ingest.rs:378-404 | in every reachable store each block is a record that passed the cross-check |
| `PlatformServe.GetBlockIsTheBlock` | src/platform/rpc.rs:239-302 | under finality a string that is no ID is an error and an ID is answered exactly when indexed; then there is one string of bytes whose SHA-256 is that ID, shown in `hexnc` as it is and in `hex` and `hexc` plus its checksum, and one block value reporting that ID, shown in `json` |
| `PlatformServe.ElementsOfARecord` | src/platform/ingest.rs:378-404 | what is written for a block is read back as its value, bytes and rewards, in that order, and nothing more |
| `PlatformServe.GetTxIsTheTxIff` | src/platform/rpc.rs:312-343 | under finality an indexed ID leads to the stored block holding its transaction, at the position whose rank is the stored index, and `getTx` answers with that transaction exactly when no undecodable entry precedes it there |
| `PlatformServe.GetTxMisses` | src/platform/rpc.rs:312-343 | a string that is no ID is an error, an unindexed ID a miss |

## Left out

- Config layering (`src/config.rs`), the CLI and printed configuration: last-writer-wins text handling.
- HTTP, WebSocket and JSON-RPC plumbing, health, metrics, progress lines, the idle timeout and `GET /blocks`: wiring, reporting, or an easier form of the range replay.
- SHA-256, zstd, fjall and blockdb internals: SHA-256 is a parameter, blockdb is a map with a minimum height, the index two maps, and a batch is atomic.
- Bytes that are not UTF-8: record texts are sequences of Unicode characters, so the encoding of a character as bytes, the rejection of invalid UTF-8 and serde_json's recursion limit are not modelled.
- `eth_getBlock*`, the transaction count and `shape_block`: projections of a stored block; `nth_transaction` is covered as position `i` of the list in `TxIndex`.
- `project` and the subscription kinds other than records: replication uses the record kind only.
- Replication's server and client tasks and the C-chain backfill loop are step functions over event sequences, because other tasks act between any two of their steps; only their inner loops that run alone are methods.
- The C-chain mirror bootstrap: it stores `[]` logs it never fetched, so its records appear as live writes without logs.
- Logs fetched live are taken to be the height's own; the pairing of the two halves is proved in `JoinBuffer` on arrival positions, not on their contents.
- Replication's histories keep heights below 2^64 - 1, where the bootstrap's `saturating_add(1)` still moves.
- Retry and backoff of fetches, wake-ups and sleeps: one answer per question and run; clocks enter as parameters.
- A first write that creates the blockstore files and then fails: modelled as refused, with the store still closed.
- JoinBuffer's `since` timestamps and gauges.
- GetLogs.EthGetLogs: heights are below 2^64 - 1, where the source's loop would not end.
- Pacing.HostSpacingSurvivesIff: speaks of claims and sends made at the first moment they can be; a scheduler that is late can bunch sends under any configuration.
- Backfill.OffSolidGroundStalls: assumes a frontier below 2^64 - 2.
- PlatformIngest.LoopIsGapFreeAndRight: assumes tips below 2^64 - 1, where `saturating_add(1)` still moves.
- Pacing.Pacer.Wait: times are unbounded, so overflow of the clock type is not modelled.
