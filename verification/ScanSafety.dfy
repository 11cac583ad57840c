/** What every run keeps: no request disappears unaccounted, none is put back with a match behind it; and
    for which items filters built as BIP 158 prescribes make a run complete. */
module ScanSafety {
  import opened Basics
  import opened ScanTypes
  import opened ScanSpec
  import opened ScanTheory
  import opened Sums

  // ----- Conservation -----

  // Requests enqueued by others while the run was at heights h to last.
  function Arrived(w: World, h: nat, last: nat): seq<ScanRequest>
    decreases last - h
  {
    w.ArrivalsAt(h) + if h < last then Arrived(w, h + 1, last) else []
  }

  lemma {:induction false} SelectRestSplit(f: ScanRequest -> nat, s: seq<ScanRequest>, h: nat)
    ensures Sum(f, s) == Sum(f, Rest(s, h)) + Sum(f, Select(s, h))
  {
    PartitionSum(f, f, f, s, h);
  }

  lemma {:induction false} MatchedSplit(f: ScanRequest -> nat, batch: seq<ScanRequest>, block: Block)
    ensures Sum(f, batch) == Sum(f, Matched(batch, block)) + Sum(f, Unmatched(batch, block))
  {
    if batch != [] {
      var init, last := batch[..|batch| - 1], batch[|batch| - 1];
      MatchedSplit(f, init, block);
      if Matches(last.item, block.transactions) == [] {
        assert Matched(batch, block) == Matched(init, block);
        SumSnoc(f, Unmatched(init, block), last);
      } else {
        assert Unmatched(batch, block) == Unmatched(init, block);
        SumSnoc(f, Matched(init, block), last);
      }
    }
  }

  lemma StepSplit(f: ScanRequest -> nat, w: World, batch: seq<ScanRequest>, h: nat)
    requires ScanHeight(w, batch, h).Extracted?
    ensures var step := ScanHeight(w, batch, h);
            Sum(f, batch) == Sum(f, step.resolved) + Sum(f, step.remain)
  {
    var hash := w.HashAt(h).value;
    if w.BlockOf(hash).BlockFound? {
      MatchedSplit(f, batch, w.BlockOf(hash).block);
    }
  }

  /** The ledger of any run, failed or not, under every weight on requests: those queued, in the batch, arriving
      and respawned are those still queued, resolved by a block, or dropped by an error return. On success
      nothing is dropped. */
  lemma {:induction false} RunKeepsLedger(f: ScanRequest -> nat, w: World, q: seq<ScanRequest>,
                                          batch: seq<ScanRequest>, h: nat)
    ensures var run := Run(w, q, batch, h);
            && h <= run.last
            && Sum(f, q) + Sum(f, batch) + Sum(f, Arrived(w, h, run.last)) + Sum(f, Respawns(run.reports))
               == Sum(f, run.queue) + Sum(f, run.resolved) + Sum(f, run.lost)
            && (run.ok ==> run.lost == [])
    decreases 0xFFFF_FFFF - h
  {
    if RunGoesOn(w, q, batch, h) {
      var q1 := q + w.ArrivalsAt(h);
      var step := ScanHeight(w, batch + Select(q1, h), h);
      var q2 := Rest(q1, h) + Respawns(step.reports);
      var rest := Run(w, q2, step.remain, h + 1);
      RunUnfolds(w, q, batch, h);
      RunKeepsLedger(f, w, q2, step.remain, h + 1);
      LedgerStep(f, w, q, batch, h);
      SumConcat(f, step.resolved, rest.resolved);
      RespawnsConcat(step.reports, rest.reports);
      SumConcat(f, Respawns(step.reports), Respawns(rest.reports));
      SumConcat(f, w.ArrivalsAt(h), Arrived(w, h + 1, rest.last));
    } else {
      LedgerEnd(f, w, q, batch, h);
    }
  }

  // One iteration of the ledger.
  lemma LedgerStep(f: ScanRequest -> nat, w: World, q: seq<ScanRequest>, batch: seq<ScanRequest>, h: nat)
    requires ScanHeight(w, batch + Select(q + w.ArrivalsAt(h), h), h).Extracted?
    ensures var q1 := q + w.ArrivalsAt(h);
            var step := ScanHeight(w, batch + Select(q1, h), h);
            Sum(f, q) + Sum(f, batch) + Sum(f, w.ArrivalsAt(h)) + Sum(f, Respawns(step.reports))
            == Sum(f, Rest(q1, h) + Respawns(step.reports)) + Sum(f, step.remain) + Sum(f, step.resolved)
  {
    var q1 := q + w.ArrivalsAt(h);
    var step := ScanHeight(w, batch + Select(q1, h), h);
    SumConcat(f, q, w.ArrivalsAt(h));
    SelectRestSplit(f, q1, h);
    SumConcat(f, batch, Select(q1, h));
    StepSplit(f, w, batch + Select(q1, h), h);
    SumConcat(f, Rest(q1, h), Respawns(step.reports));
  }

  // The ledger where a run ends.
  lemma LedgerEnd(f: ScanRequest -> nat, w: World, q: seq<ScanRequest>, batch: seq<ScanRequest>, h: nat)
    requires !RunGoesOn(w, q, batch, h)
    ensures var run := Run(w, q, batch, h);
            && run.last == h && (run.ok ==> run.lost == [])
            && Sum(f, q) + Sum(f, batch) + Sum(f, w.ArrivalsAt(h)) == Sum(f, run.queue) + Sum(f, run.lost)
            && run.reports == [] && run.resolved == []
            && Arrived(w, h, h) == w.ArrivalsAt(h)
  {
    var q1 := q + w.ArrivalsAt(h);
    SumConcat(f, q, w.ArrivalsAt(h));
    SumConcat(f, q1, batch);
    SelectRestSplit(f, q1, h);
    SumConcat(f, batch, Select(q1, h));
    assert w.ArrivalsAt(h) + [] == w.ArrivalsAt(h);
  }

  /** The batch's side of the ledger: what a run takes from the queue is resolved by a block, or else put back when
      the run succeeds and dropped when it fails. So an error return drops exactly the batch. */
  lemma {:induction false} TakenAreAccounted(f: ScanRequest -> nat, w: World, q: seq<ScanRequest>,
                                             batch: seq<ScanRequest>, h: nat)
    ensures var run := Run(w, q, batch, h);
            && Sum(f, batch) + Sum(f, run.taken) == Sum(f, run.resolved) + Sum(f, run.putBack) + Sum(f, run.lost)
            && (if run.ok then run.lost == [] else run.putBack == [])
    decreases 0xFFFF_FFFF - h
  {
    if RunGoesOn(w, q, batch, h) {
      var q1 := q + w.ArrivalsAt(h);
      var taken := Select(q1, h);
      var step := ScanHeight(w, batch + taken, h);
      var q2 := Rest(q1, h) + Respawns(step.reports);
      var rest := Run(w, q2, step.remain, h + 1);
      RunUnfolds(w, q, batch, h);
      TakenAreAccounted(f, w, q2, step.remain, h + 1);
      BatchStep(f, w, batch, taken, h);
      SumConcat(f, taken, rest.taken);
      SumConcat(f, step.resolved, rest.resolved);
    } else {
      BatchEnd(f, w, q, batch, h);
    }
  }

  lemma BatchEnd(f: ScanRequest -> nat, w: World, q: seq<ScanRequest>, batch: seq<ScanRequest>, h: nat)
    requires !RunGoesOn(w, q, batch, h)
    ensures var run := Run(w, q, batch, h);
            && Sum(f, batch) + Sum(f, run.taken) == Sum(f, run.putBack) + Sum(f, run.lost)
            && run.resolved == []
            && (if run.ok then run.lost == [] else run.putBack == [])
  {
    SumConcat(f, batch, Select(q + w.ArrivalsAt(h), h));
  }

  lemma BatchStep(f: ScanRequest -> nat, w: World, batch: seq<ScanRequest>, taken: seq<ScanRequest>, h: nat)
    requires ScanHeight(w, batch + taken, h).Extracted?
    ensures var step := ScanHeight(w, batch + taken, h);
            Sum(f, batch) + Sum(f, taken) == Sum(f, step.resolved) + Sum(f, step.remain)
  {
    SumConcat(f, batch, taken);
    StepSplit(f, w, batch + taken, h);
  }

  ghost predicate ReportedIn(r: ScanRequest, reports: seq<Report>) {
    exists rep :: rep in reports && rep.request == r
  }

  ghost predicate SameRequests(resolved: seq<ScanRequest>, reports: seq<Report>) {
    && (forall r :: r in resolved ==> ReportedIn(r, reports))
    && (forall rep :: rep in reports ==> rep.request in resolved)
  }

  lemma SameRequestsConcat(r1: seq<ScanRequest>, p1: seq<Report>, r2: seq<ScanRequest>, p2: seq<Report>)
    requires SameRequests(r1, p1) && SameRequests(r2, p2)
    ensures SameRequests(r1 + r2, p1 + p2)
  {
    forall r | r in r1 + r2
      ensures ReportedIn(r, p1 + p2)
    {
      if r in r1 {
        var rep :| rep in p1 && rep.request == r;
        assert rep in p1 + p2;
      } else {
        var rep :| rep in p2 && rep.request == r;
        assert rep in p1 + p2;
      }
    }
  }

  // The resolved requests of a run are those it reported.
  lemma {:induction false} ResolvedWereReported(w: World, q: seq<ScanRequest>, batch: seq<ScanRequest>, h: nat)
    ensures SameRequests(Run(w, q, batch, h).resolved, Run(w, q, batch, h).reports)
    decreases 0xFFFF_FFFF - h
  {
    if RunGoesOn(w, q, batch, h) {
      var q1 := q + w.ArrivalsAt(h);
      var step := ScanHeight(w, batch + Select(q1, h), h);
      var q2 := Rest(q1, h) + Respawns(step.reports);
      var rest := Run(w, q2, step.remain, h + 1);
      RunUnfolds(w, q, batch, h);
      ResolvedWereReported(w, q2, step.remain, h + 1);
      StepResolvedWereReported(w, batch + Select(q1, h), h);
      SameRequestsConcat(step.resolved, step.reports, rest.resolved, rest.reports);
    }
  }

  lemma StepResolvedWereReported(w: World, batch: seq<ScanRequest>, h: nat)
    requires ScanHeight(w, batch, h).Extracted?
    ensures SameRequests(ScanHeight(w, batch, h).resolved, ScanHeight(w, batch, h).reports)
  {
    var step, hash := ScanHeight(w, batch, h), w.HashAt(h).value;
    if step != Extracted([], [], batch) {
      var block := w.BlockOf(hash).block;
      UnmatchedMembers(batch, block);
      BlockReportsMembers(batch, hash, block);
      forall r | r in step.resolved
        ensures ReportedIn(r, step.reports)
      {
        var txs := Matches(r.item, block.transactions);
        MatchesMembers(r.item, block.transactions);
        assert txs[0] in txs;
        assert Report(txs[0], hash, block.height, r) in step.reports;
      }
      forall rep | rep in step.reports
        ensures rep.request in step.resolved
      {
        MatchesMembers(rep.request.item, block.transactions);
        assert rep.tx in Matches(rep.request.item, block.transactions);
      }
    }
  }

  // ----- No match behind a request put back -----

  ghost predicate NoMatchAt(w: World, item: WatchItem, h: nat) {
    !MatchesAt(w, item, h)
  }

  ghost predicate NothingBehind(w: World, r: ScanRequest, h: nat) {
    r.startHeight <= h && forall g :: r.startHeight <= g < h ==> NoMatchAt(w, r.item, g)
  }

  // What remains of a sound batch after height h has no match at h.
  lemma RemainHasNoMatch(w: World, batch: seq<ScanRequest>, h: nat)
    requires AllSound(w, batch) && ScanHeight(w, batch, h).Extracted?
    ensures forall r :: r in ScanHeight(w, batch, h).remain ==> r in batch && NoMatchAt(w, r.item, h)
  {
    ScanHeightCases(w, batch, h);
    var step := ScanHeight(w, batch, h);
    forall r | r in step.remain
      ensures r in batch && NoMatchAt(w, r.item, h)
    {
      if VisibleBlock(w, h).Some? {
        UnmatchedMembers(batch, VisibleBlock(w, h).value);
      }
      MatchesAtIff(w, r.item, h);
    }
  }

  /** Every request put back at the end of a run matches nothing in any visible block from its start height to
      the last height scanned, whichever filters and blocks were missing. */
  lemma {:induction false} PutBackMissedNothing(w: World, q: seq<ScanRequest>, batch: seq<ScanRequest>, h: nat)
    requires AllSound(w, q) && AllSound(w, batch) && ArrivalsSound(w)
    requires forall r :: r in batch ==> NothingBehind(w, r, h)
    ensures var run := Run(w, q, batch, h);
            forall r :: r in run.putBack ==> NothingBehind(w, r, run.last)
    decreases 0xFFFF_FFFF - h
  {
    if RunGoesOn(w, q, batch, h) {
      var q1 := q + w.ArrivalsAt(h);
      var taken := Select(q1, h);
      var step := ScanHeight(w, batch + taken, h);
      RunUnfolds(w, q, batch, h);
      StepKeepsSound(w, q, batch, h);
      StepLeavesNothingBehind(w, batch, taken, h);
      PutBackMissedNothing(w, Rest(q1, h) + Respawns(step.reports), step.remain, h + 1);
    }
  }

  lemma StepLeavesNothingBehind(w: World, batch: seq<ScanRequest>, taken: seq<ScanRequest>, h: nat)
    requires AllSound(w, batch + taken) && ScanHeight(w, batch + taken, h).Extracted?
    requires forall r :: r in batch ==> NothingBehind(w, r, h)
    requires forall r :: r in taken ==> r.startHeight == h
    ensures forall r :: r in ScanHeight(w, batch + taken, h).remain ==> NothingBehind(w, r, h + 1)
  {
    RemainHasNoMatch(w, batch + taken, h);
    forall r | r in ScanHeight(w, batch + taken, h).remain
      ensures NothingBehind(w, r, h + 1)
    {
      assert r in batch || r in taken;
    }
  }

  // ----- BIP 158 filters are sound -----

  // The output script that an input spends, for outpoints of the chain.
  type PrevoutScripts = (bytes, uint32) -> Option<Script>

  const OP_RETURN: uint8 := 0x6a

  // A basic filter holds each output script, except empty and OP_RETURN ones, and each non-empty spent script.
  ghost predicate BasicFilterOf(elements: set<Script>, block: Block, prevouts: PrevoutScripts) {
    forall tx :: tx in block.transactions ==>
      && (forall s :: s in tx.outputs && s != [] && s[0] != OP_RETURN ==> s in elements)
      && (forall i :: i in tx.inputs && prevouts(i.hash, i.index).Some? && prevouts(i.hash, i.index).value != []
           ==> prevouts(i.hash, i.index).value in elements)
  }

  // Items whose script a basic filter can hold. A spent item must carry the script of the outpoint it names.
  ghost predicate Watchable(item: WatchItem, prevouts: PrevoutScripts) {
    match item
    case SpentWatchItem(hash, index, script) => prevouts(hash, index) == Some(script) && script != []
    case UnspentWatchItem(script) => script != [] && script[0] != OP_RETURN
  }

  ghost predicate BasicFilters(w: World, prevouts: PrevoutScripts) {
    forall h: nat :: VisibleBlock(w, h).Some? ==>
      BasicFilterOf(w.FilterOf(w.HashAt(h).value).elements, VisibleBlock(w, h).value, prevouts)
  }

  /** No false negatives: over basic filters, false positives included, every watchable item is sound. */
  lemma BasicFiltersAreSound(w: World, item: WatchItem, prevouts: PrevoutScripts)
    requires BasicFilters(w, prevouts) && Watchable(item, prevouts)
    ensures Sound(w, item)
  {
    forall h: nat
      ensures SoundAt(w, item, h)
    {
      if VisibleBlock(w, h).Some? && Matches(item, VisibleBlock(w, h).value.transactions) != [] {
        var block := VisibleBlock(w, h).value;
        MatchesMembers(item, block.transactions);
        var tx := Matches(item, block.transactions)[0];
        assert tx in Matches(item, block.transactions);
        assert tx in block.transactions && Concerns(item, tx);
        assert BasicFilterOf(w.FilterOf(w.HashAt(h).value).elements, block, prevouts);
      }
    }
  }

  // The least a basic filter holds of a block with just the matching transaction.
  function LeastFilter(item: WatchItem, prevouts: PrevoutScripts): set<Script> {
    match item
    case SpentWatchItem(hash, index, _) =>
      var spent := prevouts(hash, index);
      if spent.Some? && spent.value != [] then {spent.value} else {}
    case UnspentWatchItem(script) =>
      if script != [] && script[0] != OP_RETURN then {script} else {}
  }

  function LeastWorld(item: WatchItem, prevouts: PrevoutScripts): World {
    OneBlockWorld([MatchingTx(item)], LeastFilter(item, prevouts))
  }

  lemma LeastIsBasic(item: WatchItem, prevouts: PrevoutScripts)
    ensures BasicFilters(LeastWorld(item, prevouts), prevouts)
  {
    var w, elements := LeastWorld(item, prevouts), LeastFilter(item, prevouts);
    forall h: nat | VisibleBlock(w, h).Some?
      ensures BasicFilterOf(w.FilterOf(w.HashAt(h).value).elements, VisibleBlock(w, h).value, prevouts)
    {
      OnlyOneBlock([MatchingTx(item)], elements, h);
      assert VisibleBlock(w, h).value.transactions == [MatchingTx(item)];
    }
  }

  // An item that is not watchable is missed there: the filter does not answer for the block that matches it.
  lemma LeastMissesUnwatchable(item: WatchItem, prevouts: PrevoutScripts)
    requires !Watchable(item, prevouts)
    ensures VisibleBlock(LeastWorld(item, prevouts), 0).Some?
    ensures Matches(item, VisibleBlock(LeastWorld(item, prevouts), 0).value.transactions) == [MatchingTx(item)]
    ensures !SoundAt(LeastWorld(item, prevouts), item, 0)
  {
    var tx, w := MatchingTx(item), LeastWorld(item, prevouts);
    OnlyOneBlock([tx], LeastFilter(item, prevouts), 0);
    assert [tx][..0] == [] && [] + [tx] == [tx];
    assert item.Bytes() !in w.FilterOf(OnlyHash()).elements;
  }

  /** Which items a scan over BIP 158 filters never misses: exactly those a caller can check to be watchable. A script
      that is empty or starts with OP_RETURN, or a spent item carrying another script than the outpoint's, is missed
      by some filter that holds all it must. */
  lemma WatchableIff(item: WatchItem, prevouts: PrevoutScripts)
    ensures Watchable(item, prevouts) <==> forall w :: BasicFilters(w, prevouts) ==> Sound(w, item)
  {
    if Watchable(item, prevouts) {
      forall w | BasicFilters(w, prevouts)
        ensures Sound(w, item)
      {
        BasicFiltersAreSound(w, item, prevouts);
      }
    } else {
      LeastIsBasic(item, prevouts);
      LeastMissesUnwatchable(item, prevouts);
      assert !Sound(LeastWorld(item, prevouts), item);
    }
  }

  // Without a sound filter a request scanned by itself is put back though the block matches it.
  lemma UnsoundIsMissed(w: World, r: ScanRequest, h: nat)
    requires VisibleBlock(w, h).Some? && !SoundAt(w, r.item, h)
    ensures ScanHeight(w, [r], h) == Extracted([], [], [r])
  {
    var elements := w.FilterOf(w.HashAt(h).value).elements;
    assert FilterMatches([r], elements) <==> [r][0].item.Bytes() in elements;
  }

  /** A whole run that misses: over basic filters, watching an unwatchable item from height 0 succeeds and reports
      nothing, although the only block matches the item. */
  lemma UnwatchableIsMissed(r: ScanRequest, prevouts: PrevoutScripts)
    requires !Watchable(r.item, prevouts) && r.startHeight == 0
    ensures var w := LeastWorld(r.item, prevouts);
            && BasicFilters(w, prevouts)
            && !NoMatchAt(w, r.item, 0)
            && Run(w, [r], [], 0).ok && Run(w, [r], [], 0).reports == [] && Run(w, [r], [], 0).queue == [r]
  {
    var w := LeastWorld(r.item, prevouts);
    LeastIsBasic(r.item, prevouts);
    LeastMissesUnwatchable(r.item, prevouts);
    UnsoundIsMissed(w, r, 0);
    MatchesAtIff(w, r.item, 0);
    LoneRequestIsPutBack(w, r);
  }

  // A run over the single height 0 that passes over its only request.
  lemma LoneRequestIsPutBack(w: World, r: ScanRequest)
    requires w.tips == map[0 := 0, 1 := 0] && w.arrivals == map[] && r.startHeight == 0
    requires ScanHeight(w, [r], 0) == Extracted([], [], [r])
    ensures Run(w, [r], [], 0).ok && Run(w, [r], [], 0).reports == [] && Run(w, [r], [], 0).queue == [r]
  {
    assert [r][..0] == [] && [r] + w.ArrivalsAt(0) == [r] && [] + [r] == [r];
    assert Rest([], 0) == [] && Respawns([]) == [];
    assert Select([r], 0) == [r] && Rest([r], 0) == [];
    assert RunGoesOn(w, [r], [], 0);
    RunUnfolds(w, [r], [], 0);
    LoneRequestEnds(w, r);
  }

  lemma LoneRequestEnds(w: World, r: ScanRequest)
    requires w.tips == map[0 := 0, 1 := 0] && w.arrivals == map[]
    ensures Run(w, [], [r], 1).ok && Run(w, [], [r], 1).reports == [] && Run(w, [], [r], 1).queue == [r]
  {
    assert w.TipAt(1) == Some(0) && [] + w.ArrivalsAt(1) + [r] == [r];
  }
}
