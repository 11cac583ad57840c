/** What one run of the request worker does, as a function of the queue and of what it reads. */
module ScanSpec {
  import opened Basics
  import opened ScanTypes

  // Requests of s starting at h, and the others, both in queue order.
  function Select(s: seq<ScanRequest>, h: nat): seq<ScanRequest> {
    if s == [] then [] else
      var last := s[|s| - 1];
      Select(s[..|s| - 1], h) + if last.startHeight == h then [last] else []
  }

  function Rest(s: seq<ScanRequest>, h: nat): seq<ScanRequest> {
    if s == [] then [] else
      var last := s[|s| - 1];
      Rest(s[..|s| - 1], h) + if last.startHeight != h then [last] else []
  }

  function FilterMatches(batch: seq<ScanRequest>, elements: set<Script>): bool {
    exists i :: 0 <= i < |batch| && batch[i].item.Bytes() in elements
  }

  // Transactions of a block that match an item, in block order.
  function Matches(item: WatchItem, txs: seq<Transaction>): seq<Transaction> {
    if txs == [] then [] else
      var last := txs[|txs| - 1];
      Matches(item, txs[..|txs| - 1]) + if item.Match(last) then [last] else []
  }

  function ReportsFor(req: ScanRequest, txs: seq<Transaction>, hash: Hash, height: uint32): seq<Report> {
    if txs == [] then [] else
      ReportsFor(req, txs[..|txs| - 1], hash, height) + [Report(txs[|txs| - 1], hash, height, req)]
  }

  function BlockReports(batch: seq<ScanRequest>, hash: Hash, block: Block): seq<Report> {
    if batch == [] then [] else
      var last := batch[|batch| - 1];
      BlockReports(batch[..|batch| - 1], hash, block)
      + ReportsFor(last, Matches(last.item, block.transactions), hash, block.height)
  }

  function Unmatched(batch: seq<ScanRequest>, block: Block): seq<ScanRequest> {
    if batch == [] then [] else
      var last := batch[|batch| - 1];
      Unmatched(batch[..|batch| - 1], block) + if Matches(last.item, block.transactions) == [] then [last] else []
  }

  function Matched(batch: seq<ScanRequest>, block: Block): seq<ScanRequest> {
    if batch == [] then [] else
      var last := batch[|batch| - 1];
      Matched(batch[..|batch| - 1], block) + if Matches(last.item, block.transactions) != [] then [last] else []
  }

  // The copy of a persistent request that goes on watching after a block.
  function Respawn(req: ScanRequest, blockHeight: uint32): ScanRequest {
    ScanRequest(req.clientID, Wrap32(blockHeight + 1), req.item, true)
  }

  // One copy per report, not per block.
  function Respawns(reports: seq<Report>): seq<ScanRequest> {
    if reports == [] then [] else
      var last := reports[|reports| - 1];
      Respawns(reports[..|reports| - 1])
      + if last.request.isPersistent then [Respawn(last.request, last.blockHeight)] else []
  }

  datatype Extraction =
    | ExtractionFailed
    | Extracted(reports: seq<Report>, resolved: seq<ScanRequest>, remain: seq<ScanRequest>)

  function Extract(w: World, hash: Hash, batch: seq<ScanRequest>): Extraction {
    match w.BlockOf(hash)
    case BlockFailed => ExtractionFailed
    case BlockMissing => Extracted([], [], batch)
    case BlockFound(block) =>
      Extracted(BlockReports(batch, hash, block), Matched(batch, block), Unmatched(batch, block))
  }

  // One iteration on a batch: hash lookup, filter test, extraction.
  function ScanHeight(w: World, batch: seq<ScanRequest>, h: nat): Extraction {
    match w.HashAt(h)
    case None => ExtractionFailed
    case Some(hash) =>
      match w.FilterOf(hash)
      case FilterFailed => ExtractionFailed
      case FilterMissing => Extracted([], [], batch)
      case FilterFound(elements) =>
        if FilterMatches(batch, elements) then Extract(w, hash, batch) else Extracted([], [], batch)
  }

  /** The end of a run.
      - ok: the worker returned nil
      - last: the height the loop was at when it stopped; next: the lowest height it did not dequeue
      - queue, reports: what is left in the queue and what was sent to the report channel
      - taken, resolved, putBack, lost: requests dequeued, found in a block, re-enqueued at the end, and dropped by
        an error return */
  datatype RunResult = RunResult(
    ok: bool, last: nat, next: nat,
    queue: seq<ScanRequest>, reports: seq<Report>,
    taken: seq<ScanRequest>, resolved: seq<ScanRequest>, putBack: seq<ScanRequest>, lost: seq<ScanRequest>)

  function Then(taken: seq<ScanRequest>, step: Extraction, rest: RunResult): RunResult
    requires step.Extracted?
  {
    rest.(reports := step.reports + rest.reports,
          taken := taken + rest.taken,
          resolved := step.resolved + rest.resolved)
  }

  // The worker's loop, entered with queue q and a batch at height h.
  function Run(w: World, q: seq<ScanRequest>, batch: seq<ScanRequest>, h: nat): RunResult
    decreases 0xFFFF_FFFF - h
  {
    var q1 := q + w.ArrivalsAt(h);
    match w.TipAt(h)
    case None => RunResult(false, h, h, q1, [], [], [], [], batch)
    case Some(tip) =>
      if h > tip then RunResult(true, h, h, q1 + batch, [], [], [], batch, [])
      else
        var taken := Select(q1, h);
        var step := ScanHeight(w, batch + taken, h);
        match step
        case ExtractionFailed => RunResult(false, h, h + 1, Rest(q1, h), [], taken, [], [], batch + taken)
        case Extracted(reports, _, remain) =>
          Then(taken, step, Run(w, Rest(q1, h) + Respawns(reports), remain, h + 1))
  }
}
