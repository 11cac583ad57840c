# neutrino-elements: a verified model of its core

neutrino-elements is a light node for the Liquid chain. It synchronises block headers from its peers, keeps compact
block filters, and scans the chain for transactions that its clients watch for. This project models the parts of the
node whose correctness spans several functions or several goroutines, and proves what they keep.

- **Scanner** (`ScanTypes`, `ScanSpec`, `ScanTheory`, `ScanResults`, `ScanSafety`, `ScanOrder`, `ScanFairness`, `ScanTurns`,
  `ScannerService`). `ScanSpec.Run` says what one run of the request worker does to the queue and what it reports, for
  any answers of the chain tip, the header store, the filter store and the block service, and any requests enqueued in
  the meantime. The methods of `ScannerService` follow the Go code loop by loop and are proved against it. The main
  result is that a run, with its batches, filter tests and respawned copies, is the sum of each request's own scan of
  the chain, under every weight. Three consequences are drawn: the reports are those of a naive scan, counts multiply
  exactly as the code re-adds one copy per report, and no request is lost by a run that succeeds. Filters built as
  section "Block Filters" of BIP 158 prescribes satisfy the premise for exactly the items that a caller can check to
  be watchable. Over many turns of the requests manager, with requests put back and scanned again and those of failed
  turns dropped, the books balance: the turns together report what one naive scan reports, neither more nor less, but
  for what dropped requests had still to report; a waiting bound is proved, and that a head above the tip blocks the
  line.
- **Headers** (`Headers`, `Locator`, `HeaderStores`, `HandleHeaders`, `HeaderSync`, `Forks`). Both header
  repositories, the map in memory and the table with unique heights, with the ancestor walk and the exponential
  locator in 32-bit arithmetic. On top of them is a step system for any number of peer handlers, an unbuffered channel
  and a single writer. Every height up to the tip stays stored under every interleaving, locators never miss a height,
  "synced" means what it says, and every prefix of every hash-linked chain is reachable. Over the table, which keeps
  the first header of every height, it is proved when competing chains leave "synced" false for good.
- **Ping monitor** (`PingMonitor`). The nonce table's owner and one monitor per peer as a step system: the inductive
  invariant, what follows for every reachable state, and the one race after which the owner can never go on.
- **Wire codec** (`Wire`, `VarInts`, `Marshaler`, `GetHeaders`, `Inventory`, `Frame`). Round trips with any bytes
  behind them, the marshaler's dispatch on pointers and value receivers, and the exact condition under which
  getheaders is framed correctly, which the locator bound meets.
- **Mempool** (`MemPool`). What a confirmed block removes and announces, in any order of ranging over the map.

`Basics` holds integer types, `Option` and `Result`; `Sums` holds weighted sums over sequences. A weight is any
function to the naturals, so an equation between sums under every weight is an equation between multisets.

Premises that are not proved: hashes of different headers in play differ (`HeaderSync.CollisionFree`,
`Headers.HashLinked`), links between stored headers are acyclic (`Headers.Ranked`), a block served for a height
carries that height (`ScanResults.HonestHeights`, needed only where heights are compared), and filters have no false
negatives for the watched items (`ScanTheory.Sound`, which by `ScanSafety.WatchableIff` BIP 158 guarantees for
watchable items and no others). False positives, missing filters and missing blocks are all allowed. That chains
satisfying `Headers.HashLinked` and histories satisfying `ScanTurns.GoodHistory` exist is shown by
`Headers.HashLinkedChainsExist` and `ScanTurns.OneBlockHistory`.

Where the code and its comments disagree, the model follows the code:
- `pkg/scanner/request.go:15` says a persistent request is re-added at its start height plus one. The code re-adds it
  at the height of the reported block plus one, once per report (`pkg/scanner/scanner.go:251-263`).
- The comment of `pkg/node/cmd_block.go:38-44` wants a sync to go on up to the latest announced block. A later version
  message of the peer sets its tip anew, also to less (`pkg/node/cmd_version.go:46`).
- The comments of both locator loops speak of stopping at the genesis hash. No locator contains the genesis hash
  unless the tip itself has height 0.

Behaviour that falls short of what one would expect is stated with its exact condition: `ScanResults.CopiesAreExact`,
`ScanSafety.WatchableIff`, `ScanFairness.TurnTakesIffHeadReached`, `HeaderStores.WriteKeepsKeysIff`,
`HeaderStores.WrittenIsFoundIff`, `HeaderStores.WritesAgreeIff`, `HeaderSync.FailedWriteReachesGapIff`,
`HeaderSync.StaysAtLeastIff`, `HeaderSync.VersionForgetsBlock`, `Forks.TableSyncedIff`,
`PingMonitor.DeliveryIffNotTimedOut`, `VarInts.DecodesIff`, `Marshaler.VarIntPointersIff`,
`GetHeaders.FramingHoldsIff`, `Inventory.AnswerEchoes`, `Frame.CommandRoundTripIff`, `Frame.FrameRoundTrip`.

## Model

| member | source | states |
|---|---|---|
| ScannerService.ScanRequestQueue.DequeueAtHeight | pkg/scanner/requestqueue.go:22-38 | The queue is split in order into the requests starting at the height, which are returned, and the others, which stay. |
| ScanOrder.DequeueFilters | pkg/scanner/requestqueue.go:26-37 | The two parts are the queue filtered by start height, in order, copies included. |
| ScannerService.ScanRequestQueue.Enqueue | pkg/scanner/requestqueue.go:40-46 | A request goes to the end of the queue. |
| ScannerService.ScanRequestQueue.Peek | pkg/scanner/requestqueue.go:48-57 | The head, if there is one; the queue is unchanged. |
| ScannerService.ScanRequestQueue.IsEmpty | pkg/scanner/requestqueue.go:59-64 | True exactly for the empty queue. |
| ScannerService.Scanner.Watch | pkg/scanner/scanner.go:110-113 | A watched item is queued behind all others. |
| ScannerService.Scanner.BlockFilterMatches | pkg/scanner/scanner.go:289-315 | A missing filter is "no match", another failure is an error, else "match" exactly when the filter answers for one of the items. |
| ScannerService.Scanner.MatchRequest | pkg/scanner/scanner.go:331-348 | The inner loop reports every matching transaction of the block in order, and says whether there was one. |
| ScanTypes.MatchIff | pkg/scanner/watchitem.go:48-93 | A spent item matches if and only if its outpoint is among the inputs, an unspent item if and only if its script is among the outputs, wherever they are. |
| ScanOrder.MatchesFilter | pkg/scanner/scanner.go:333-343 | The matches of a request are the transactions of the block that its item concerns, in block order. |
| ScannerService.Scanner.ExtractBlockMatches | pkg/scanner/scanner.go:317-351 | Missing block: the batch remains. Block: the reports of all requests in batch order, and the requests without a match remain. |
| ScanOrder.ReportsInOrder | pkg/scanner/scanner.go:327-350 | Reports come request by request in batch order, each with the transactions that concern it in block order, carrying hash, height and request. |
| ScanOrder.UnmatchedFilters | pkg/scanner/scanner.go:345-347 | The requests that remain are those that nothing in the block concerns, in batch order. |
| ScannerService.Scanner.SendReports | pkg/scanner/scanner.go:251-264 | One copy per report of a persistent request is queued at the block's height plus one, with 32-bit wrap-around. |
| ScanOrder.RespawnsInOrder | pkg/scanner/scanner.go:256-263 | Each copy has the client and item of its report, starts at the block height plus one modulo 2^32, is persistent, and copies come in the order of reports. |
| ScannerService.Scanner.ScanOne | pkg/scanner/scanner.go:223-269 | One iteration after dequeuing refines the specification of a height: same outcome, reports, remaining batch and queue. |
| ScannerService.Scanner.DequeueAndScan | pkg/scanner/scanner.go:219-269 | The whole loop body: the requests of the height leave the queue, join the batch and are scanned with it; the respawned copies come in behind. |
| ScannerService.Scanner.RequestWorker | pkg/scanner/scanner.go:210-287 | The loop over a moving tip with a shared queue refines `ScanSpec.Run`: same success, reports and final queue. |
| ScannerService.Scanner.ManagerTurn | pkg/scanner/scanner.go:173-205 | A turn waits exactly on an empty queue, else runs the worker from the head's start height. |
| ScanTypes.ServedIff | pkg/scanner/scanner.go:228-237 | What a run sees at a height is the block stored under the genesis hash at height 0, else under the header store's hash, when its filter is stored too. |
| ScanOrder.RunStopsIff | pkg/scanner/scanner.go:214-286 | A run returns nil if and only if it stopped above a tip that was read; if not, the tip, the hash, the filter or a block that the filter called for could not be had there. |
| ScanOrder.PassedWhatItCarried | pkg/scanner/scanner.go:228-249 | A run gets past a height only if no lookup failed there that a request it carries calls for; failed lookups are not taken for missing ones. |
| ScanOrder.PutBackIsUnresolved | pkg/scanner/scanner.go:266-284 | A successful run puts back exactly the requests it took that nothing served from their start height on concerns, in the order of taking. |
| ScanOrder.PutBackGoesLast | pkg/scanner/scanner.go:281-284 | They go behind everything else in the queue. |
| ScanTheory.RunIsSumOfScans | pkg/scanner/scanner.go:210-351 | Under every weight on reports and left-over requests, a run, successful or not, amounts to scanning each queued, batched or arriving request alone up to where it stopped, without batch or filter; on success nothing is dropped. |
| ScanTheory.FilterMissIsSafe | pkg/scanner/scanner.go:239-245 | Skipping a block on a filter miss loses no match of any request of the batch. |
| ScanTheory.ExtractionKeepsSum | pkg/scanner/scanner.go:245-269 | Under every weight, extracting a batch from a block equals advancing each of its requests by itself, respawns included. |
| ScanTheory.DequeueKeepsSum | pkg/scanner/scanner.go:220-221 | Dequeuing a height moves exactly the scans that start there from the queue to the batch. |
| ScanResults.RunReportsNaiveScan | pkg/scanner/scanner.go:210-351 | A (client, item, block, transaction) is reported by a run, failed or not, if and only if a naive scan of every block in range reports it for a dequeued request: all matches when persistent, else the first matching block's. |
| ScanResults.AloneIsNaive | pkg/scanner/scanner.go:251-263 | Following a request and its respawned copies finds exactly the keys of the naive scan. |
| ScanResults.RunReportCount | pkg/scanner/scanner.go:251-263 | The number of reports a run sends about a height is the sum over its dequeued requests of the closed form below. |
| ScanResults.AloneReportCount | pkg/scanner/scanner.go:251-263 | Persistent: that block's match count times the product of the match counts of the matching blocks before it. One-shot: its match count, if no earlier block matched. |
| ScanResults.AloneLeftCount | pkg/scanner/scanner.go:251-263 | The copies left in the queue: the product of the match counts when persistent; for a one-shot request one, or none after a match. |
| ScanResults.RunLeftCount | pkg/scanner/scanner.go:251-287 | The number of requests a run leaves in the queue, or drops when it fails, is the sum of these counts over all requests queued at first or arriving. |
| ScanResults.TwoMatchesLeaveTwoCopies | pkg/scanner/scanner.go:251-263 | On a chain of one block with two matching transactions, a run for any item watched persistently from height 0 sends two reports and leaves two equal copies. |
| ScanResults.CopiesAreExact | pkg/scanner/scanner.go:331-348 | Copies do not multiply if and only if no scanned block has two transactions matching the item. |
| ScanSafety.RunKeepsLedger | pkg/scanner/scanner.go:219-287 | Conservation with multiplicity, for failed runs too: queued, batched, arrived and respawned requests are those still queued, resolved or dropped, and a run that returns nil drops none. |
| ScanSafety.TakenAreAccounted | pkg/scanner/scanner.go:219-287 | Under every weight, what a run dequeues is resolved, or put back when it returns nil and dropped when it returns an error: an error drops exactly the batch. |
| ScanSafety.ResolvedWereReported | pkg/scanner/scanner.go:331-348 | The requests a run removes as resolved are exactly those it reported. |
| ScanSafety.PutBackMissedNothing | pkg/scanner/scanner.go:219-287 | A request put back matches nothing from its start height to the last scanned height in any block that was available with its filter. |
| ScanSafety.BasicFiltersAreSound | pkg/scanner/watchitem.go:44-93 | With filters holding what BIP 158 prescribes, every item whose script such a filter can hold, carrying the spent outpoint's script when spent, has no false negative. |
| ScanSafety.WatchableIff | pkg/scanner/watchitem.go:28-93 | An item is never missed by any filters holding what BIP 158 prescribes if and only if its script is not empty, is not OP_RETURN when unspent, and is the script of its outpoint when spent. |
| ScanSafety.UnwatchableIsMissed | pkg/scanner/scanner.go:239-284 | For every other item there is a chain with such filters over which a successful run reports nothing though the block matches. |
| ScanFairness.RunKeepsOrder | pkg/scanner/requestqueue.go:22-46 | Successful or not, a run leaves the requests it did not dequeue in order, in front of all arrivals, respawns and put-backs. |
| ScanFairness.DequeuedAreTaken | pkg/scanner/scanner.go:219-221 | Every queued request starting at a height the run dequeues enters its batch. |
| ScanFairness.TurnMovesUp | pkg/scanner/scanner.go:189-194 | A turn whose head the tip reaches takes the request at an index or moves it strictly nearer the head, behind only requests that were before it. |
| ScanFairness.EntersBatchInTime | pkg/scanner/scanner.go:170-205 | Bounded waiting: if it and all requests ahead start at or below the tip of each turn, the request at index i enters a batch within i + 1 turns, whatever arrives and even if turns fail. |
| ScanFairness.TurnTakesIffHeadReached | pkg/scanner/scanner.go:189-219 | A turn takes something if and only if the tip reaches the head's start height; else it reports nothing and leaves the queue as it was, arrivals behind. |
| ScanFairness.UnreachedHeadStarvesAll | pkg/scanner/scanner.go:170-205 | While the head starts above every tip read, no request behind it enters a batch, for any number of turns. |
| ScanTurns.ScanCut | pkg/scanner/scanner.go:281-284 | Scanning a request up to one height, putting it or its copies back, and scanning those again from their own start heights reports what one scan does. |
| ScanTurns.TurnKeepsToReport | pkg/scanner/scanner.go:189-205 | Under every weight, the reports of a turn, what its queue is still to report and what its dropped requests had to report are what was to report before, arrivals included. |
| ScanTurns.TurnsKeepToReport | pkg/scanner/scanner.go:170-205 | The same over any history of turns, failed or not, and enqueued requests: conservation with multiplicity against one scan per client request. |
| ScanTurns.TurnsReportNaiveScan | pkg/scanner/scanner.go:170-287 | A key is reported in some turn, still to come from the queue, or owed to a request that a failed turn dropped, if and only if a naive scan of the chain reports it for a client request. |
| ScanTurns.RunCatchesUp | pkg/scanner/scanner.go:210-287 | A run that starts at the lowest start height, with no arrivals behind it, leaves only requests above the last tip or without a match up to it. |
| ScanTurns.TurnsReportUpToLastTip | pkg/scanner/scanner.go:170-287 | When no turn fails and the last is such a run, all turns together have reported exactly the naive scan up to the last tip. |
| Headers.WalkFindsStart | internal/infrastructure/storage/db/inmemory/header_inmemory.go:159-182 | The ancestor walk answers true if and only if following previous-hash links inside the store reaches a header of height at most 1. |
| Headers.WalkEndsIff | internal/infrastructure/storage/db/inmemory/header_inmemory.go:169-179 | It answers false if and only if the stored links end at an unknown parent, and an error if and only if they end at a link that is not 32 bytes long. |
| Headers.ChainIsRanked | internal/infrastructure/storage/db/inmemory/header_inmemory.go:169-179 | Headers of one hash-linked chain have acyclic links: heights fall along every stored link. |
| Headers.ContiguousReachesStart | internal/infrastructure/storage/db/inmemory/header_inmemory.go:159-182 | In a contiguous store of one chain, every stored header reaches the start. |
| Locator.LocatorShape | internal/infrastructure/storage/db/inmemory/header_inmemory.go:128-154 | After the tip come exactly the heights H, ..., H-9, then H-8-2^j while positive; at most 42 hashes for every 32-bit H. |
| Locator.VisitFrom | internal/infrastructure/storage/db/inmemory/header_inmemory.go:128-154 | From any point of the loop on, the visited heights follow the closed form to its end. |
| Locator.WrapOnlyAtZero | internal/infrastructure/storage/db/inmemory/header_inmemory.go:141-153 | The 32-bit doubling can wrap only in an iteration that has already set the height to 0. |
| HeaderStores.HeaderInmemory.ChainTip | internal/infrastructure/storage/db/inmemory/header_inmemory.go:27-43 | A stored header of greatest height, whatever the map's order; an error exactly for the empty store. |
| HeaderStores.HeaderInmemory.GetBlockHeader | internal/infrastructure/storage/db/inmemory/header_inmemory.go:45-55 | While the map is keyed by hashes, a header is found if and only if one with that hash is stored, and it has that hash. |
| HeaderStores.WrittenIsFoundIff | internal/infrastructure/storage/db/inmemory/header_inmemory.go:71-85 | Write then look up: a header of a call is found under its hash if and only if it is the last of the call. |
| HeaderStores.OthersAreFoundAsBefore | internal/infrastructure/storage/db/inmemory/header_inmemory.go:71-85 | Any hash that is not of the call is looked up as before. |
| HeaderStores.HeaderInmemory.GetBlockHeaderByHeight | internal/infrastructure/storage/db/inmemory/header_inmemory.go:96-107 | Some stored header of the height; the not-found error only if there is none. |
| HeaderStores.HeaderInmemory.WriteHeaders | internal/infrastructure/storage/db/inmemory/header_inmemory.go:71-85 | Every hash of the call is bound to the call's last header, since the range variable's address is stored. |
| HeaderStores.WriteKeepsKeysIff | internal/infrastructure/storage/db/inmemory/header_inmemory.go:75-81 | A call keeps the map keyed by its headers' hashes if and only if all headers of the call share one hash. |
| HeaderStores.HeaderInmemory.LatestBlockLocator | internal/infrastructure/storage/db/inmemory/header_inmemory.go:87-94 | A locator of a tip; on a non-empty contiguous store it never fails. |
| HeaderStores.HeaderInmemory.BlockLocatorFromHash | internal/infrastructure/storage/db/inmemory/header_inmemory.go:109-157 | Succeeds exactly when every visited height is stored, and then gives a stored hash for each. |
| HeaderStores.HeaderInmemory.HasAllAncestors | internal/infrastructure/storage/db/inmemory/header_inmemory.go:159-182 | True if and only if stored links lead to height 1 or below; the error cases of an empty store, an unknown hash and a malformed link. |
| HeaderStores.ContiguousHasVisited | internal/infrastructure/storage/db/inmemory/header_inmemory.go:128-139 | In a contiguous store a locator misses no height it visits. |
| HeaderStores.LocatorIsUnique | internal/infrastructure/storage/db/pg/header_repository_impl.go:192-247 | With unique heights, any two repositories holding the same headers build the same locator of a tip. |
| HeaderStores.LatestLocatorsAgree | internal/infrastructure/storage/db/pg/header_repository_impl.go:139-247 | Two repositories with the same headers and unique heights have the same tip and build the same latest locator. |
| HeaderStores.HeaderTable.ChainTip | internal/infrastructure/storage/db/pg/header_repository_impl.go:32-53 | The row of greatest height; an error exactly for the empty table. |
| HeaderStores.HeaderTable.WriteHeaders | internal/infrastructure/storage/db/pg/header_repository_impl.go:96-137 | All rows or none: a known hash or height rolls back and still reports success, a height outside the column is an error. |
| HeaderStores.InsertKeepsValid | internal/infrastructure/storage/db/pg/migration/20220721142449_init.up.sql:1-5 | An accepted call appends its headers, and hashes and heights stay unique and within the column. |
| HeaderStores.InsertAllIff | internal/infrastructure/storage/db/pg/header_repository_impl.go:107-136 | A call inserts its headers if and only if the table with all of them is still valid. |
| HeaderStores.InsertFailsIff | internal/infrastructure/storage/db/pg/header_repository_impl.go:124-133 | It is an error if and only if some header is outside the column and those before it could all be inserted. |
| HeaderStores.HeaderTable.LatestBlockLocator | internal/infrastructure/storage/db/pg/header_repository_impl.go:139-148 | A locator of a tip; on a non-empty contiguous table it never fails. |
| HeaderStores.HeaderTable.ByHeight | internal/infrastructure/storage/db/pg/header_repository_impl.go:192-201 | The map by height holds every row's height and only rows of that height. |
| HeaderStores.HeaderTable.BlockLocatorFromHash | internal/infrastructure/storage/db/pg/header_repository_impl.go:192-247 | Succeeds exactly when every visited height has a row, and then gives that row's hash for each. |
| HeaderStores.HeaderTable.HasAllAncestors | internal/infrastructure/storage/db/pg/header_repository_impl.go:150-190 | The same walk as in memory on the same headers; an unknown hash is an error of its own. |
| HeaderStores.WalkAncestors | internal/infrastructure/storage/db/pg/header_repository_impl.go:175-190 | The loop ends when links are acyclic, and answers true if and only if links reach height 1 or below. |
| HeaderStores.WritesAgreeIff | internal/infrastructure/storage/db/pg/header_repository_impl.go:124-133 | After one write the two repositories hold the same headers if and only if the header was there, or its height fits the column and is new. |
| HeaderStores.Repository.ChainTip | pkg/repository/header_repository.go:17-26 | Behind the interface, either repository gives a stored header of greatest height, or an error exactly when it is empty. |
| HeaderStores.Repository.HasAllAncestors | pkg/repository/header_repository.go:17-26 | Either repository walks the same links of its contents, and answers true if and only if they reach height 1 or below. |
| HeaderStores.Repository.LatestBlockLocator | pkg/repository/header_repository.go:17-26 | Either repository gives a locator of a tip of its contents, and never fails on non-empty contiguous contents. |
| HandleHeaders.CheckHeadersInSequence | pkg/node/cmd_headers.go:90-100 | True if and only if heights are first + i modulo 2^32. |
| HandleHeaders.InSequenceIff | pkg/node/cmd_headers.go:90-100 | The pairwise test with unsigned subtraction is the closed form of consecutive heights modulo 2^32. |
| HandleHeaders.HandleHeaders | pkg/node/cmd_headers.go:25-87 | Headers are sent if and only if the batch continues the tip, and then every header above the tip; on an empty store a batch from height 1 is sent whole; a new sync is asked for if headers are missing, and after headers were sent. |
| HandleHeaders.AcceptedIsForwarded | pkg/node/cmd_headers.go:43-80 | Something is forwarded if and only if the batch is in sequence, starts at most at tip + 1 and ends above the tip; then every header above the tip is. |
| HandleHeaders.ForwardedIs | pkg/node/cmd_headers.go:61-80 | Of an accepted batch exactly the part above the tip is forwarded, and the whole batch if it starts at the tip or above. |
| HandleHeaders.HandleBlock | pkg/node/cmd_block.go:27-57 | A header is forwarded if and only if it has height tip + 1, or 1 on an empty store; else the peer is known to be at least that high, and a sync is asked for if that is new. |
| HeaderSync.HandlersReadTip | pkg/node/cmd_block.go:27-36 | What both handlers go on from is the tip of the step system: the store's greatest height, or 0 while it is empty. |
| HeaderSync.AnnouncedBlockIsAwaited | pkg/node/cmd_block.go:38-52 | After a block that does not extend the tip, as long as no version message of the peer says less, synced is not true for the peer before the tip is as high as that block. |
| HeaderSync.StepKeepsPeersTipIff | pkg/node/cmd_version.go:46-49 | A step lowers what is known of a peer below a height if and only if it is a version message of the peer that says less. |
| HeaderSync.StaysAtLeastIff | pkg/node/cmd_version.go:46-49 | All along a run a peer is known to be at least at a height if and only if no version message of it says less. |
| HeaderSync.VersionForgetsBlock | pkg/node/cmd_version.go:46-49 | On one chain, after any announced block and then a version message, synced is true if and only if the tip is as high as that message says, however high the block. |
| HandleHeaders.ForwardedContinuesTip | pkg/node/cmd_headers.go:43-80 | What is forwarded is a consecutive ascending run from the tip or tip + 1 to above the tip, and holds every header of the batch above the tip. |
| HandleHeaders.NoWrapInBatch | pkg/node/cmd_headers.go:50-59 | A batch that passes the checks does not contain the wrap from 2^32-1 to 0. |
| HeaderSync.StepKeepsSafe | pkg/node/node.go:314-327 | Every tip read, channel send and successful write, in either repository, keeps the store contiguous and each pending run supported. |
| HeaderSync.TableWriteIsInsert | internal/infrastructure/storage/db/pg/header_repository_impl.go:96-137 | The table write of the step system is what inserting one row does to the stored headers, refused or not. |
| HeaderSync.SyncIsSafe | pkg/node/cmd_headers.go:25-80 | For any peers and interleaving, every height from 1 to the tip is stored, and each handler's next height follows 0, a stored height or the one in flight. |
| HeaderSync.HeadersCanBeStored | pkg/node/cmd_headers.go:76-80 | From an idle writer a headers message that continues the tip leads to a store that holds all its headers above the tip. |
| HeaderSync.FailedWriteReachesGapIff | pkg/node/node.go:320-324 | After a write that only logs its failure, later successful steps can lead to a gap in the store if and only if some handler's next header relied on the lost one. |
| HeaderSync.FailedWriteLeavesGap | pkg/node/node.go:320-324 | A run in which the first of two writes fails and the second leaves a store with a gap. |
| HeaderSync.Synced | pkg/node/chainsync.go:22-51 | Over either repository, the answer is the ancestor walk's error, or whether the tip has all ancestors and is at least the peer's. |
| HeaderSync.SyncedAnswerIff | pkg/node/chainsync.go:22-51 | True if and only if the tip comes down to the start and is as high as the peer's; an error if and only if the links end at a malformed one. |
| HeaderSync.SyncedMeansCaughtUp | pkg/node/chainsync.go:22-51 | When all headers belong to one hash-linked chain, in every reachable state the tip has all ancestors, so synced is exactly "tip height >= peer tip". |
| HeaderSync.ChainCanBeSynced | pkg/node/cmd_block.go:27-54 | For every hash-linked chain and height there is a run after which the store's tip is the chain's header of that height. |
| HeaderSync.SyncedIsReached | pkg/node/chainsync.go:22-51 | From an empty store, for every hash-linked chain and height there is a run after which synced answers true for a peer at that height. |
| Forks.TipReachesStartIff | internal/infrastructure/storage/db/pg/header_repository_impl.go:150-190 | With one header per height and parents one height below, a tip has all ancestors if and only if the headers stored at neighbouring heights up to it are linked. |
| Forks.TableSyncedIff | pkg/node/chainsync.go:22-51 | With competing chains, in every reachable state over the table synced is true if and only if the tip is as high as the peer's and neighbouring stored headers are linked all the way down. |
| Forks.BrokenLinkIsForGood | internal/infrastructure/storage/db/pg/header_repository_impl.go:124-133 | Once two neighbouring stored headers are not linked, synced is true in no later state, for any peer. |
| Forks.ForkBreaksLink | pkg/node/cmd_block.go:27-54 | A run into such a state: a second block whose parent competes with the stored first one is taken for its height alone. |
| Forks.TableRunKeeps | internal/infrastructure/storage/db/pg/header_repository_impl.go:124-133 | Runs over the table never change or drop a stored header and keep heights unique. |
| PingMonitor.StepKeepsInv | pkg/node/handle_ping.go:35-121 | The invariant of nonce table, monitors and manager survives every step of every goroutine. |
| PingMonitor.OneEntryPerPeer | pkg/node/handle_ping.go:55-56 | At most one table entry per peer. |
| PingMonitor.ReachableStates | pkg/node/handle_ping.go:35-121 | In every reachable state entries are awaited, timed out or being removed, the mismatch branch is never entered, and deleting one entry when a monitor or a reader gives up a peer removes all of the peer's. |
| PingMonitor.PeersAreWatched | pkg/node/handle_ping.go:18-121 | In every reachable state before the node quits, each peer has a monitor that has not returned, and pongs are handed to such peers only. |
| PingMonitor.AnsweredRound | pkg/node/handle_ping.go:81-118 | From any such state, a ping answered in time: the peer stays, its monitor waits for the next tick, its nonce is gone and nothing else has changed. |
| PingMonitor.SilentRound | pkg/node/handle_ping.go:105-116 | A ping not answered: the peer is dropped, its monitor has returned, its entry is gone, and a late pong changes nothing. |
| PingMonitor.UnwrittenRound | pkg/node/handle_ping.go:92-116 | A ping that cannot be written drops the peer at once; its monitor goes through the round, gets no pong and returns. |
| PingMonitor.GivenUpIsDropped | pkg/node/handle_ping.go:58-66 | In every reachable state, giving up a peer removes it from the peers and leaves no entry of it; its monitor has returned if that gave it up. |
| PingMonitor.DeliveryIffNotTimedOut | pkg/node/handle_ping.go:52-53 | Having accepted a pong the manager can hand it over if and only if the monitor has not timed out; else it is stuck. |
| PingMonitor.StuckForever | pkg/node/handle_ping.go:52-53 | No step of any goroutine ends that: manager and table stay as they are. |
| PingMonitor.PongAtTimeoutGetsStuck | pkg/node/handle_ping.go:105-116 | A pong accepted just before the timer fires is a run into that state. |
| PingMonitor.PeerPings.OnPing | pkg/node/handle_ping.go:55-56 | The new table is that of the step system after a registration, from every state with the old table. |
| PingMonitor.PeerPings.OnPong | pkg/node/handle_ping.go:42-52 | The peer a pong goes to is the one of the step system, in every state with this table. |
| PingMonitor.PeerPings.AfterDelivery | pkg/node/handle_ping.go:53-53 | The new table is that of the step system after a removal, from every state with the old table. |
| PingMonitor.PeerPings.OnDisconnect | pkg/node/handle_ping.go:58-66 | The peer is dropped with one entry of it, picked by the map's order, if it has any, as in the step system. |
| Wire.LERoundTrip | pkg/binary/unmarshaler.go:225-243 | A number that fits is recovered from its little-endian bytes. |
| Wire.LEByte | pkg/binary/marshaler.go:43-48 | Byte i of a number is the one of weight 256^i: least significant first. |
| Wire.FromLERoundTrip | pkg/binary/unmarshaler.go:225-243 | Bytes are recovered from the number they stand for, which fits their width. |
| Wire.Reader.ReadFull | pkg/binary/unmarshaler.go:225-233 | With enough input, the bytes asked for come off its front; else an error that uses up the input. |
| Wire.Reader.DecodeArray | pkg/binary/unmarshaler.go:154-160 | One read: a short input fills the front of the array and leaves zeros; only an empty input is an error. |
| Wire.Reader.DecodeUint32 | pkg/binary/unmarshaler.go:225-233 | The number whose four bytes, least significant first, come off the input; an error exactly for fewer than four bytes. |
| VarInts.Unmarshal | pkg/protocol/varint.go:120-167 | The marker decides the width read; errors on short input; proved against the decoding function the round trips speak of. |
| VarInts.DecodesIff | pkg/protocol/varint.go:85-167 | An encoded value is decoded, whatever follows, if and only if it is not a single byte in the marker range. |
| VarInts.EncodedBytes | pkg/protocol/varint.go:85-118 | The bytes of every integer: itself up to 252, else the marker 0xFD, 0xFE or 0xFF and two, four or eight bytes, least significant first; 0 if negative. |
| VarInts.IntIsCapped | pkg/protocol/varint.go:62-83 | A 64-bit value above the largest int is read as that. |
| VarInts.RoundTrip | pkg/protocol/varint.go:23-167 | For every i >= 0 and suffix, decoding the encoding of i gives a value whose integer is i and leaves the suffix. |
| VarInts.PrefixFree | pkg/protocol/varint.go:85-118 | No integer's encoding is a prefix of another's. |
| VarInts.DecodedFromItsEncoding | pkg/protocol/varint.go:120-167 | Re-encoding what a whole input decodes to gives back the input. |
| VarInts.ShortestForm | pkg/protocol/varint.go:23-41 | No shorter input decodes to the integer, and none other of that length below the largest int64. |
| Marshaler.MarshalValue | pkg/binary/marshaler.go:36-110 | The dispatch, one pointer level followed first, gives the bytes of the marshalling function. |
| Marshaler.MarshalStruct | pkg/binary/marshaler.go:112-129 | Fields are written in order, pointers followed; one failing field fails the whole. |
| Marshaler.IntegerBytes | pkg/binary/marshaler.go:43-53 | The bytes of integers of every width, and of bare VarInts: two bytes most significant first, the others least significant first. |
| Marshaler.NonceRoundTrip | pkg/protocol/msg_pingpong.go:18-27 | A ping's nonce is recovered from its eight bytes. |
| Marshaler.VarIntPointersIff | pkg/binary/marshaler.go:36-110 | A VarInt behind two pointers gets its own encoding, which decodes; behind none or one it loses the marker and decodes if and only if it is below 0xFD. |
| Marshaler.MarshalLocators | pkg/protocol/blocklocator.go:19-45 | The count goes through the struct path, without a marker; then the hashes in order. |
| Marshaler.HashAt | pkg/protocol/blocklocator.go:33-42 | The i-th hash is written at 32 * i. |
| Marshaler.MarshalGetData | pkg/protocol/msg_getdata.go:16-40 | The count byte, then type and hash of each vector in order. |
| Marshaler.VectorAt | pkg/protocol/msg_getdata.go:16-40 | The i-th vector is written at 36 * i, its type in four bytes before its hash. |
| GetHeaders.NewMsgGetHeaders | pkg/protocol/msg_getheaders.go:20-44 | The locator is taken over whole, and refused exactly above 500 hashes. |
| GetHeaders.DecodeBlockLocators | pkg/protocol/blocklocator.go:47-72 | The count is read; a count there is no room for panics at the allocation; else as many hashes are consumed and dropped. |
| GetHeaders.DecodeMessage | pkg/binary/unmarshaler.go:162-173 | Version, locators and stop hash are decoded in turn, ending at the first error. |
| GetHeaders.FramingHoldsIff | pkg/protocol/blocklocator.go:19-72 | Decoding a marshalled message recovers version and stop hash and consumes exactly all bytes if and only if it has at most 252 locators and the receiver has room for them. |
| GetHeaders.MessageBytes | pkg/protocol/msg_getheaders.go:14-35 | The bytes of a message with at most 252 locators: version, count, the hashes in the order of the locator, the stop hash. |
| GetHeaders.VersionBytes | pkg/protocol/protocol.go:7-7 | The version 70016 as it goes out. |
| GetHeaders.LocatorsFrame | pkg/protocol/msg_getheaders.go:20-44 | Every locator of either repository is accepted, and framed correctly for a receiver with room for 42 hashes. |
| GetHeaders.SyncRequest | pkg/node/chainsync.go:58-93 | Over either repository: a message that frames, with a zero stop hash, whose first hash on the wire is the tip's, or genesis on an empty store, and whose locator is the store's; it never fails on a contiguous store. |
| Inventory.UnmarshalInv | pkg/protocol/msg_inv.go:24-42 | The counted loop with its 8-bit counter decodes exactly count vectors for every count, or fails. |
| Inventory.HandleInv | pkg/node/cmd_inv.go:11-39 | The getdata payload is that of the decoded inv's count and vectors. |
| Inventory.AnswerEchoes | pkg/node/cmd_inv.go:11-39 | For every payload: a getdata goes out exactly when all vectors but the last are whole and the last has a hash byte, and it is the first 1 + 36 * count bytes, missing ones zero. |
| Inventory.FullPayloadIsEchoed | pkg/protocol/msg_inv.go:24-42 | With 1 + 36 * count bytes or more the getdata payload is the consumed prefix byte for byte. |
| Frame.ReadHeader | pkg/binary/unmarshaler.go:162-173 | The four header fields are read in turn, ending at the first error. |
| Frame.CommandRoundTripIff | pkg/protocol/cmd.go:80-91 | A name comes back from its padded form if and only if it has no zero byte at either end. |
| Frame.FrameBytes | pkg/protocol/cmd.go:80-91 | Where everything is on the wire: magic, name and then zeros up to 12 bytes, length least significant byte first, checksum, payload. |
| Frame.AcceptedIff | pkg/protocol/msg.go:61-93 | A header validates if and only if its magic is one of three and its command is a table name with nothing but zeros around it. |
| Frame.UnknownIsRefused | pkg/protocol/msg.go:42-45 | A message is refused if and only if its command is not in the table. |
| Frame.TableNamesAreGood | pkg/protocol/cmd.go:43-78 | Every name of the table fits the field and has no zero at either end. |
| Frame.FrameRoundTrip | pkg/protocol/msg.go:36-93 | For every table command and supported magic, the wire holds magic, name, zeros, length and checksum in their places; the first 24 bytes decode to the header, which validates and names the command; the payload follows, and the length field is its length if and only if that is below 2^32. |
| MemPool.MemPool.AddTx | pkg/node/mempool.go:171-178 | A new hash is added; a known one keeps its first transaction. |
| MemPool.MemPool.ReceiveTx | pkg/node/mempool.go:180-201 | The pool stays keyed by hash, and one unconfirmed event goes out, for known transactions too. |
| MemPool.MemPool.RemoveTxFromMemPool | pkg/node/mempool.go:160-169 | The hash is removed, others stay; an error exactly when it was unknown. |
| MemPool.MemPool.CheckOne | pkg/node/mempool.go:146-156 | One pool transaction against the whole block, also when the block repeats its hash. |
| MemPool.MemPool.CheckTxConfirmed | pkg/node/mempool.go:142-158 | In any order, while deleting: the pool loses exactly the block's transactions, and the events sent are those of the whole old pool. |
| MemPool.MemPool.NotifySubscribers | pkg/node/mempool.go:203-212 | Exactly the one event is added to what was sent. |
| MemPool.ConfirmationCount | pkg/node/mempool.go:146-156 | Each confirmed event goes out as often as the block holds that very transaction, if its hash was pooled; no other event does. |

## Left out

- Tip readings of 2^32-1: every 32-bit height is at most that, so the worker's loop would never end; `ScanTypes.TipHeight` stays below.
- `pkg/scanner/request.go` option closures, requests without an item, and `WatchDescriptorWallet`: they only fill in the fields of a request.
- Locks, the condition variable and goroutine start-up: what other goroutines enqueue during a run appears between two iterations of the worker.
- GCS encoding and `MatchAny`: a filter is the set of scripts it answers for, false positives included.
- Headers.WalkFindsStart: assumes acyclic links through a ghost rank, because on cyclic links the code would loop for ever.
- HeaderStores.HeaderInmemory.HasAllAncestors: takes the rank as a ghost argument for the same reason; it changes no answer.
- HeaderStores.HeaderTable.HasAllAncestors: the same.
- ScanTurns.TurnsReportNaiveScan: a block that a watched item matches must be visible to every turn that passes it; one that is missing in a turn and there in a later one is covered turn by turn only (PutBackMissedNothing).
- A filter that fails to decode counts as a failed lookup, on an empty batch too; the GCS library is not part of this model.
- HeaderSync.SyncIsSafe: covers runs of successful writes; what a failing write does is stated by FailedWriteReachesGapIff and FailedWriteLeavesGap.
- HeaderSync.Synced: takes a store keyed by its headers' hashes, which writing one header per call, as the node does, keeps.
- HandleHeaders.ForwardedContinuesTip: batches longer than 2^32 headers, which no message can carry.
- A header's hash is a field of the header; computing it, and its failure on headers that do not serialise, are not modelled.
- Database errors other than unique violations and heights outside the column; `GetBlockHashByHeight`, a lookup the scanner sees as an answer by height.
- PingMonitor.StepKeepsInv: assumes one monitor per peer ID in a run; a peer that reconnects under its old ID, or repeats its version message after having been dropped, would start a second one.
- Timers: a timer may fire at any moment while a monitor awaits its pong.
- SHA-256: the checksum of a frame is given, and no code of the node compares it on receipt.
- Deserialisation of blocks, transactions and headers, and of all other messages; the reflection of the decoder is written out for the three messages modelled.
- Short reads from network streams: a reader gives all the bytes it has, so an array is short only at the end of the input.
- Serving compact filters, `MsgVersion`, checkpoints, the notification service, HTTP, configuration and command line: plumbing around the core.
- Concurrent writers of the mempool while a block is compared with it, and delivery to each subscriber's channel: events are a multiset.
