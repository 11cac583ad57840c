/** The scanner's mutable part: the shared request queue and the worker that drains it. */
module ScannerService {
  import opened Basics
  import opened ScanTypes
  import opened ScanSpec
  import opened ScanTheory

  // The run from a start height, after sending some reports, goes on as a run from h with queue q and a batch.
  ghost predicate GoesOnAs(w: World, whole: RunResult, sent: seq<Report>, q: seq<ScanRequest>, batch: seq<ScanRequest>,
                           h: nat) {
    var rest := Run(w, q, batch, h);
    whole.ok == rest.ok && whole.queue == rest.queue && whole.reports == sent + rest.reports
  }

  lemma ConcatAssociates(a: seq<Report>, b: seq<Report>, c: seq<Report>)
    ensures a + (b + c) == (a + b) + c
  {}

  lemma NothingBefore(a: seq<Report>)
    ensures [] + a == a
  {}

  lemma FirstIteration(w: World, q: seq<ScanRequest>, h: nat)
    ensures GoesOnAs(w, Run(w, q, [], h), [], q, [], h)
  {
    NothingBefore(Run(w, q, [], h).reports);
  }

  lemma OneIteration(w: World, whole: RunResult, sent: seq<Report>, q: seq<ScanRequest>, batch: seq<ScanRequest>,
                     h: nat)
    requires GoesOnAs(w, whole, sent, q, batch, h) && RunGoesOn(w, q, batch, h)
    ensures var q1 := q + w.ArrivalsAt(h);
            var step := ScanHeight(w, batch + Select(q1, h), h);
            GoesOnAs(w, whole, sent + step.reports, Rest(q1, h) + Respawns(step.reports), step.remain, h + 1)
  {
    RunUnfolds(w, q, batch, h);
    var q1 := q + w.ArrivalsAt(h);
    var step := ScanHeight(w, batch + Select(q1, h), h);
    var rest := Run(w, Rest(q1, h) + Respawns(step.reports), step.remain, h + 1);
    ConcatAssociates(sent, step.reports, rest.reports);
  }

  lemma LastIteration(w: World, whole: RunResult, sent: seq<Report>, q: seq<ScanRequest>, batch: seq<ScanRequest>,
                      h: nat)
    requires GoesOnAs(w, whole, sent, q, batch, h) && !RunGoesOn(w, q, batch, h)
    ensures var q1 := q + w.ArrivalsAt(h);
            && whole.reports == sent
            && (w.TipAt(h).None? ==> !whole.ok && whole.queue == q1)
            && (w.TipAt(h).Some? && h > w.TipAt(h).value ==> whole.ok && whole.queue == q1 + batch)
            && (w.TipAt(h).Some? && h <= w.TipAt(h).value ==> !whole.ok && whole.queue == Rest(q1, h))
  {}

  class ScanRequestQueue {
    var requests: seq<ScanRequest>

    constructor ()
      ensures requests == []
    {
      requests := [];
    }

    method DequeueAtHeight(height: uint32) returns (selected: seq<ScanRequest>)
      modifies this
      ensures selected == Select(old(requests), height)
      ensures requests == Rest(old(requests), height)
    {
      selected := [];
      var remain := [];
      for i := 0 to |requests|
        invariant requests == old(requests)
        invariant selected == Select(requests[..i], height)
        invariant remain == Rest(requests[..i], height)
      {
        assert requests[..i + 1][..i] == requests[..i];
        if requests[i].startHeight == height {
          selected := selected + [requests[i]];
        } else {
          remain := remain + [requests[i]];
        }
      }
      assert requests[..|requests|] == requests;
      requests := remain;
    }

    method Enqueue(req: ScanRequest)
      modifies this
      ensures requests == old(requests) + [req]
    {
      requests := requests + [req];
    }

    method Peek() returns (head: Option<ScanRequest>)
      ensures head == if requests == [] then None else Some(requests[0])
    {
      if |requests| == 0 {
        return None;
      }
      return Some(requests[0]);
    }

    method IsEmpty() returns (empty: bool)
      ensures empty <==> requests == []
    {
      empty := |requests| == 0;
    }
  }

  class Scanner {
    const requestsQueue: ScanRequestQueue

    constructor ()
      ensures fresh(requestsQueue) && requestsQueue.requests == []
    {
      requestsQueue := new ScanRequestQueue();
    }

    method Watch(req: ScanRequest)
      modifies requestsQueue
      ensures requestsQueue.requests == old(requestsQueue.requests) + [req]
    {
      requestsQueue.Enqueue(req);
    }

    method EnqueueAll(reqs: seq<ScanRequest>)
      modifies requestsQueue
      ensures requestsQueue.requests == old(requestsQueue.requests) + reqs
    {
      for i := 0 to |reqs|
        invariant requestsQueue.requests == old(requestsQueue.requests) + reqs[..i]
      {
        requestsQueue.Enqueue(reqs[i]);
        assert reqs[..i + 1] == reqs[..i] + [reqs[i]];
      }
      assert reqs[..|reqs|] == reqs;
    }

    // A missing filter is "no match"; other failures end the run.
    method BlockFilterMatches(items: seq<Script>, hash: Hash, w: World) returns (matched: Option<bool>)
      ensures matched.None? <==> w.FilterOf(hash).FilterFailed?
      ensures matched.Some? ==>
                (matched.value
                 <==> w.FilterOf(hash).FilterFound?
                      && exists i :: 0 <= i < |items| && items[i] in w.FilterOf(hash).elements)
    {
      match w.FilterOf(hash) {
        case FilterMissing => matched := Some(false);
        case FilterFailed => matched := None;
        case FilterFound(elements) =>
          matched := Some(exists i :: 0 <= i < |items| && items[i] in elements);
      }
    }

    // The matches of one request in a block's transactions.
    method MatchRequest(req: ScanRequest, txs: seq<Transaction>, hash: Hash, height: uint32)
      returns (results: seq<Report>, matched: bool)
      ensures results == ReportsFor(req, Matches(req.item, txs), hash, height)
      ensures matched <==> Matches(req.item, txs) != []
    {
      results, matched := [], false;
      for j := 0 to |txs|
        invariant results == ReportsFor(req, Matches(req.item, txs[..j]), hash, height)
        invariant matched <==> Matches(req.item, txs[..j]) != []
      {
        assert txs[..j + 1][..j] == txs[..j];
        if req.item.Match(txs[j]) {
          matched := true;
          ghost var found := Matches(req.item, txs[..j]);
          assert (found + [txs[j]])[..|found|] == found;
          assert Matches(req.item, txs[..j + 1]) == found + [txs[j]];
          results := results + [Report(txs[j], hash, height, req)];
        } else {
          assert Matches(req.item, txs[..j + 1]) == Matches(req.item, txs[..j]);
        }
      }
      assert txs[..|txs|] == txs;
    }

    method ExtractBlockMatches(hash: Hash, requests: seq<ScanRequest>, w: World)
      returns (ok: bool, results: seq<Report>, remain: seq<ScanRequest>)
      ensures var e := Extract(w, hash, requests);
              ok == e.Extracted? && (ok ==> results == e.reports && remain == e.remain)
    {
      results, remain := [], [];
      match w.BlockOf(hash) {
        case BlockMissing => return true, [], requests;
        case BlockFailed => return false, [], [];
        case BlockFound(block) =>
          for i := 0 to |requests|
            invariant results == BlockReports(requests[..i], hash, block)
            invariant remain == Unmatched(requests[..i], block)
          {
            assert requests[..i + 1][..i] == requests[..i];
            var found, matched := MatchRequest(requests[i], block.transactions, hash, block.height);
            results := results + found;
            if !matched {
              remain := remain + [requests[i]];
            }
          }
          assert requests[..|requests|] == requests;
          ok := true;
      }
    }

    // Sends each report and puts one copy per report of a persistent request back at the next height.
    method SendReports(reports: seq<Report>)
      modifies requestsQueue
      ensures requestsQueue.requests == old(requestsQueue.requests) + Respawns(reports)
    {
      for i := 0 to |reports|
        invariant requestsQueue.requests == old(requestsQueue.requests) + Respawns(reports[..i])
      {
        assert reports[..i + 1][..i] == reports[..i];
        var report := reports[i];
        if report.request.isPersistent {
          Watch(ScanRequest(report.request.clientID, Wrap32(report.blockHeight + 1), report.request.item, true));
        }
      }
      assert reports[..|reports|] == reports;
    }

    // The loop's body after dequeuing: the reports sent and the batch for the next height.
    method ScanOne(nextHeight: uint32, nextBatch: seq<ScanRequest>, w: World)
      returns (ok: bool, sent: seq<Report>, remain: seq<ScanRequest>)
      modifies requestsQueue
      ensures var step := ScanHeight(w, nextBatch, nextHeight);
              && ok == step.Extracted?
              && (ok ==> sent == step.reports && remain == step.remain
                         && requestsQueue.requests == old(requestsQueue.requests) + Respawns(step.reports))
              && (!ok ==> sent == [] && requestsQueue.requests == old(requestsQueue.requests))
    {
      sent, remain := [], nextBatch;
      var items := seq(|nextBatch|, i requires 0 <= i < |nextBatch| => nextBatch[i].item.Bytes());
      var blockHash: Option<Hash>;
      if nextHeight == 0 {
        blockHash := Some(w.genesis);
      } else {
        blockHash := if nextHeight in w.hashes then Some(w.hashes[nextHeight]) else None;
      }
      if blockHash.None? {
        return false, [], [];
      }
      var hash := blockHash.value;
      var matched := BlockFilterMatches(items, hash, w);
      if matched.None? {
        return false, [], [];
      }
      assert forall i :: 0 <= i < |nextBatch| ==> items[i] == nextBatch[i].item.Bytes();
      if matched.value {
        ok, sent, remain := ExtractBlockMatches(hash, nextBatch, w);
        if !ok {
          return false, [], [];
        }
        SendReports(sent);
      }
      ok := true;
    }

    // One pass of the loop: the requests starting at the height join the batch, which is then scanned.
    method DequeueAndScan(nextHeight: uint32, nextBatch: seq<ScanRequest>, w: World)
      returns (ok: bool, sent: seq<Report>, remain: seq<ScanRequest>)
      modifies requestsQueue
      ensures var taken := Select(old(requestsQueue.requests), nextHeight);
              var step := ScanHeight(w, nextBatch + taken, nextHeight);
              && ok == step.Extracted?
              && requestsQueue.requests
                 == Rest(old(requestsQueue.requests), nextHeight) + (if ok then Respawns(step.reports) else [])
              && (ok ==> sent == step.reports && remain == step.remain)
    {
      var selected := requestsQueue.DequeueAtHeight(nextHeight);
      ok, sent, remain := ScanOne(nextHeight, nextBatch + selected, w);
    }

    // The worker. Requests of other goroutines arrive between two iterations.
    method RequestWorker(startHeight: uint32, w: World) returns (ok: bool, reports: seq<Report>)
      modifies requestsQueue
      ensures var run := Run(w, old(requestsQueue.requests), [], startHeight);
              ok == run.ok && reports == run.reports && requestsQueue.requests == run.queue
    {
      reports := [];
      var nextBatch := [];
      var nextHeight: nat := startHeight;
      ghost var q := requestsQueue.requests;
      ghost var whole := Run(w, q, [], startHeight);
      FirstIteration(w, q, startHeight);
      EnqueueAll(w.ArrivalsAt(nextHeight));
      var chainTip := w.TipAt(nextHeight);
      while chainTip.Some? && nextHeight <= chainTip.value
        invariant chainTip == w.TipAt(nextHeight)
        invariant requestsQueue.requests == q + w.ArrivalsAt(nextHeight)
        invariant GoesOnAs(w, whole, reports, q, nextBatch, nextHeight)
        decreases 0xFFFF_FFFF - nextHeight
      {
        var scanned, sent, remain := DequeueAndScan(nextHeight, nextBatch, w);
        if !scanned {
          LastIteration(w, whole, reports, q, nextBatch, nextHeight);
          return false, reports;
        }
        OneIteration(w, whole, reports, q, nextBatch, nextHeight);
        q := requestsQueue.requests;
        reports := reports + sent;
        nextBatch := remain;
        nextHeight := nextHeight + 1;
        EnqueueAll(w.ArrivalsAt(nextHeight));
        chainTip := w.TipAt(nextHeight);
      }
      LastIteration(w, whole, reports, q, nextBatch, nextHeight);
      if chainTip.None? {
        return false, reports;
      }
      EnqueueAll(nextBatch);
      ok := true;
    }

    // One turn of the requests manager: it waits on an empty queue, else runs the worker from the head's height.
    method ManagerTurn(w: World) returns (waiting: bool, ok: bool, reports: seq<Report>)
      modifies requestsQueue
      ensures waiting <==> old(requestsQueue.requests) == []
      ensures waiting ==> requestsQueue.requests == [] && reports == []
      ensures !waiting ==>
                var run := Run(w, old(requestsQueue.requests), [], old(requestsQueue.requests)[0].startHeight);
                ok == run.ok && reports == run.reports && requestsQueue.requests == run.queue
    {
      waiting := requestsQueue.IsEmpty();
      ok, reports := true, [];
      if !waiting {
        var next := requestsQueue.Peek();
        ok, reports := RequestWorker(next.value.startHeight, w);
      }
    }
  }
}
