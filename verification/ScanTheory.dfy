/** Each request's own scan, and the proof that a run is the sum of them: batching, respawning and the
    filter change nothing. */
module ScanTheory {
  import opened Basics
  import opened ScanTypes
  import opened ScanSpec
  import opened Sums

  // A weight on reports and on requests left in the queue. Multiplicities, totals and per-block counts are weights.
  datatype Measure = Measure(ofReport: Report -> nat, ofLeft: ScanRequest -> nat)

  // The weight of scanning a request alone from h up to (not including) end: no batch, no filter test.
  ghost function ScanAlone(m: Measure, w: World, r: ScanRequest, h: nat, end: nat): nat
    decreases end - h, 0
  {
    if h >= end then m.ofLeft(r)
    else
      match VisibleBlock(w, h)
      case None => ScanAlone(m, w, r, h + 1, end)
      case Some(block) =>
        var txs := Matches(r.item, block.transactions);
        if txs == [] then ScanAlone(m, w, r, h + 1, end)
        else
          Sum(m.ofReport, ReportsFor(r, txs, w.HashAt(h).value, block.height))
          + if r.isPersistent then Times(|txs|, QueueAlone(m, w, Respawn(r, block.height), h + 1, end)) else 0
  }

  // The same for a request still in the queue when the scan reaches h: it waits for its start height.
  ghost function QueueAlone(m: Measure, w: World, r: ScanRequest, h: nat, end: nat): nat
    decreases end - h, 1
  {
    if h <= r.startHeight < end then ScanAlone(m, w, r, r.startHeight, end) else m.ofLeft(r)
  }

  ghost function Scanning(m: Measure, w: World, h: nat, end: nat): ScanRequest -> nat {
    r => ScanAlone(m, w, r, h, end)
  }

  ghost function Queued(m: Measure, w: World, h: nat, end: nat): ScanRequest -> nat {
    r => QueueAlone(m, w, r, h, end)
  }

  ghost function Arriving(m: Measure, w: World, h: nat, end: nat): nat
    decreases end - h
  {
    Sum(Queued(m, w, h, end), w.ArrivalsAt(h)) + if h < end then Arriving(m, w, h + 1, end) else 0
  }

  // The filter of every visible block answers "maybe" for an item that a transaction of the block matches.
  ghost predicate SoundAt(w: World, item: WatchItem, h: nat) {
    (VisibleBlock(w, h).Some? && Matches(item, VisibleBlock(w, h).value.transactions) != [])
    ==> item.Bytes() in w.FilterOf(w.HashAt(h).value).elements
  }

  ghost predicate Sound(w: World, item: WatchItem) {
    forall h: nat :: SoundAt(w, item, h)
  }

  ghost predicate AllSound(w: World, s: seq<ScanRequest>) {
    forall r :: r in s ==> Sound(w, r.item)
  }

  ghost predicate ArrivalsSound(w: World) {
    forall h: nat :: AllSound(w, w.ArrivalsAt(h))
  }

  lemma {:induction false} PartitionSum(f: ScanRequest -> nat, g: ScanRequest -> nat, k: ScanRequest -> nat,
                                        s: seq<ScanRequest>, h: nat)
    requires forall r :: r in s ==> f(r) == if r.startHeight == h then g(r) else k(r)
    ensures Sum(f, s) == Sum(k, Rest(s, h)) + Sum(g, Select(s, h))
  {
    if s != [] {
      var init, last := s[..|s| - 1], s[|s| - 1];
      assert last in s;
      PartitionSum(f, g, k, init, h);
      SumSnoc(g, Select(init, h), last);
      SumSnoc(k, Rest(init, h), last);
      assert Rest(init, h) + [] == Rest(init, h);
      assert Select(init, h) + [] == Select(init, h);
    }
  }

  // Dequeuing at h moves exactly the requests starting at h from the queue to the batch.
  lemma DequeueKeepsSum(m: Measure, w: World, s: seq<ScanRequest>, h: nat, end: nat)
    requires h < end
    ensures Sum(Queued(m, w, h, end), s)
         == Sum(Queued(m, w, h + 1, end), Rest(s, h)) + Sum(Scanning(m, w, h, end), Select(s, h))
  {
    PartitionSum(Queued(m, w, h, end), Scanning(m, w, h, end), Queued(m, w, h + 1, end), s, h);
  }

  // At the end height everything is simply left.
  lemma AtEndAllIsLeft(m: Measure, w: World, s: seq<ScanRequest>, end: nat)
    ensures Sum(Queued(m, w, end, end), s) == Sum(Scanning(m, w, end, end), s) == Sum(m.ofLeft, s)
  {
    SumCong(Queued(m, w, end, end), m.ofLeft, s);
    SumCong(Scanning(m, w, end, end), m.ofLeft, s);
  }

  lemma {:induction false} RespawnsConcat(a: seq<Report>, b: seq<Report>)
    ensures Respawns(a + b) == Respawns(a) + Respawns(b)
    decreases |b|
  {
    if b == [] {
      assert a + b == a;
    } else {
      assert (a + b)[..|a + b| - 1] == a + b[..|b| - 1];
      RespawnsConcat(a, b[..|b| - 1]);
    }
  }

  // The reports of one request respawn one copy each, or none.
  lemma {:induction false} RespawnsOfOne(f: ScanRequest -> nat, r: ScanRequest, txs: seq<Transaction>, hash: Hash,
                                         height: uint32)
    ensures Sum(f, Respawns(ReportsFor(r, txs, hash, height)))
         == if r.isPersistent then Times(|txs|, f(Respawn(r, height))) else 0
  {
    if txs != [] {
      var init := txs[..|txs| - 1];
      RespawnsOfOne(f, r, init, hash, height);
      var reports := ReportsFor(r, txs, hash, height);
      assert reports[..|reports| - 1] == ReportsFor(r, init, hash, height);
      if r.isPersistent {
        SumSnoc(f, Respawns(ReportsFor(r, init, hash, height)), Respawn(r, height));
      } else {
        assert Respawns(reports) == Respawns(ReportsFor(r, init, hash, height));
      }
    }
  }

  // One request at a visible block.
  lemma ExtractOne(m: Measure, w: World, r: ScanRequest, h: nat, end: nat)
    requires h < end && VisibleBlock(w, h).Some?
    ensures var block := VisibleBlock(w, h).value;
            var txs := Matches(r.item, block.transactions);
            var mine := ReportsFor(r, txs, w.HashAt(h).value, block.height);
            ScanAlone(m, w, r, h, end)
            == Sum(m.ofReport, mine)
               + (if txs == [] then ScanAlone(m, w, r, h + 1, end) else 0)
               + Sum(Queued(m, w, h + 1, end), Respawns(mine))
  {
    var block := VisibleBlock(w, h).value;
    var txs := Matches(r.item, block.transactions);
    RespawnsOfOne(Queued(m, w, h + 1, end), r, txs, w.HashAt(h).value, block.height);
  }

  // Extraction advances every request of the batch by one height.
  lemma {:induction false} ExtractionKeepsSum(m: Measure, w: World, batch: seq<ScanRequest>, h: nat, end: nat)
    requires h < end && VisibleBlock(w, h).Some?
    ensures var block, hash := VisibleBlock(w, h).value, w.HashAt(h).value;
            var reports := BlockReports(batch, hash, block);
            Sum(Scanning(m, w, h, end), batch)
            == Sum(m.ofReport, reports)
               + Sum(Scanning(m, w, h + 1, end), Unmatched(batch, block))
               + Sum(Queued(m, w, h + 1, end), Respawns(reports))
  {
    if batch != [] {
      var block, hash := VisibleBlock(w, h).value, w.HashAt(h).value;
      var init, last := batch[..|batch| - 1], batch[|batch| - 1];
      ExtractionKeepsSum(m, w, init, h, end);
      ExtractOne(m, w, last, h, end);
      var txs := Matches(last.item, block.transactions);
      var before, mine := BlockReports(init, hash, block), ReportsFor(last, txs, hash, block.height);
      ExtractLast(m.ofReport, Scanning(m, w, h + 1, end), Queued(m, w, h + 1, end), before, mine,
                  Unmatched(init, block), if txs == [] then [last] else []);
      SumOne(Scanning(m, w, h + 1, end), last);
    }
  }

  // The three sums, split at the last request.
  lemma ExtractLast(f: Report -> nat, g: ScanRequest -> nat, k: ScanRequest -> nat,
                    before: seq<Report>, mine: seq<Report>, left: seq<ScanRequest>, last: seq<ScanRequest>)
    ensures Sum(f, before + mine) == Sum(f, before) + Sum(f, mine)
    ensures Sum(g, left + last) == Sum(g, left) + Sum(g, last)
    ensures Sum(k, Respawns(before + mine)) == Sum(k, Respawns(before)) + Sum(k, Respawns(mine))
  {
    SumConcat(f, before, mine);
    SumConcat(g, left, last);
    RespawnsConcat(before, mine);
    SumConcat(k, Respawns(before), Respawns(mine));
  }

  // A height whose block is not visible, or matches nothing of the batch, only advances the batch.
  lemma SkippingKeepsSum(m: Measure, w: World, batch: seq<ScanRequest>, h: nat, end: nat)
    requires h < end
    requires VisibleBlock(w, h).Some? ==>
               forall r :: r in batch ==> Matches(r.item, VisibleBlock(w, h).value.transactions) == []
    ensures Sum(Scanning(m, w, h, end), batch) == Sum(Scanning(m, w, h + 1, end), batch)
  {
    SumCong(Scanning(m, w, h, end), Scanning(m, w, h + 1, end), batch);
  }

  // A filter miss means no request of a sound batch has a match.
  lemma FilterMissIsSafe(w: World, batch: seq<ScanRequest>, h: nat)
    requires AllSound(w, batch) && VisibleBlock(w, h).Some?
    requires !FilterMatches(batch, w.FilterOf(w.HashAt(h).value).elements)
    ensures forall r :: r in batch ==> Matches(r.item, VisibleBlock(w, h).value.transactions) == []
  {
    forall r | r in batch
      ensures Matches(r.item, VisibleBlock(w, h).value.transactions) == []
    {
      var i :| 0 <= i < |batch| && batch[i] == r;
      assert SoundAt(w, r.item, h);
      assert batch[i].item.Bytes() !in w.FilterOf(w.HashAt(h).value).elements;
    }
  }

  // An iteration that does not fail either extracts from a visible block or skips the height.
  lemma ScanHeightCases(w: World, batch: seq<ScanRequest>, h: nat)
    requires AllSound(w, batch) && ScanHeight(w, batch, h).Extracted?
    ensures var step, block := ScanHeight(w, batch, h), VisibleBlock(w, h);
            || (block.Some? && step == Extracted(BlockReports(batch, w.HashAt(h).value, block.value),
                                                 Matched(batch, block.value), Unmatched(batch, block.value)))
            || (step == Extracted([], [], batch)
                && (block.Some? ==> forall r :: r in batch ==> Matches(r.item, block.value.transactions) == []))
  {
    if VisibleBlock(w, h).Some? && !FilterMatches(batch, w.FilterOf(w.HashAt(h).value).elements) {
      FilterMissIsSafe(w, batch, h);
    }
  }

  // One iteration that does not fail.
  lemma ScanHeightKeepsSum(m: Measure, w: World, batch: seq<ScanRequest>, h: nat, end: nat)
    requires h < end && AllSound(w, batch) && ScanHeight(w, batch, h).Extracted?
    ensures var step := ScanHeight(w, batch, h);
            Sum(Scanning(m, w, h, end), batch)
            == Sum(m.ofReport, step.reports)
               + Sum(Scanning(m, w, h + 1, end), step.remain)
               + Sum(Queued(m, w, h + 1, end), Respawns(step.reports))
  {
    ScanHeightCases(w, batch, h);
    if ScanHeight(w, batch, h) == Extracted([], [], batch)
       && (VisibleBlock(w, h).Some? ==>
             forall r :: r in batch ==> Matches(r.item, VisibleBlock(w, h).value.transactions) == []) {
      SkippingKeepsSum(m, w, batch, h, end);
    } else {
      ExtractionKeepsSum(m, w, batch, h, end);
    }
  }

  lemma {:induction false} SelectRestMembers(s: seq<ScanRequest>, h: nat)
    ensures forall r :: r in Select(s, h) <==> r in s && r.startHeight == h
    ensures forall r :: r in Rest(s, h) <==> r in s && r.startHeight != h
  {
    if s != [] {
      SelectRestMembers(s[..|s| - 1], h);
      assert s == s[..|s| - 1] + [s[|s| - 1]];
    }
  }

  lemma {:induction false} ReportsForMembers(r: ScanRequest, txs: seq<Transaction>, hash: Hash, height: uint32)
    ensures forall rep :: rep in ReportsFor(r, txs, hash, height)
              <==> rep == Report(rep.tx, hash, height, r) && rep.tx in txs
  {
    if txs != [] {
      ReportsForMembers(r, txs[..|txs| - 1], hash, height);
      assert txs == txs[..|txs| - 1] + [txs[|txs| - 1]];
    }
  }

  lemma {:induction false} MatchesMembers(item: WatchItem, txs: seq<Transaction>)
    ensures forall tx :: tx in Matches(item, txs) <==> tx in txs && Concerns(item, tx)
  {
    if txs != [] {
      MatchesMembers(item, txs[..|txs| - 1]);
      MatchIff(item, txs[|txs| - 1]);
      assert txs == txs[..|txs| - 1] + [txs[|txs| - 1]];
    }
  }

  // Some transaction of the block served at h concerns an item.
  ghost predicate MatchesAt(w: World, item: WatchItem, h: nat) {
    exists hash, block, tx :: ServedAt(w, h, hash, block) && tx in block.transactions && Concerns(item, tx)
  }

  lemma MatchesAtIff(w: World, item: WatchItem, h: nat)
    ensures MatchesAt(w, item, h)
       <==> VisibleBlock(w, h).Some? && Matches(item, VisibleBlock(w, h).value.transactions) != []
  {
    if MatchesAt(w, item, h) {
      var hash, block, tx :| ServedAt(w, h, hash, block) && tx in block.transactions && Concerns(item, tx);
      ServedIff(w, h, hash, block);
      MatchesMembers(item, block.transactions);
      assert tx in Matches(item, block.transactions);
    }
    if VisibleBlock(w, h).Some? {
      var hash, block := w.HashAt(h).value, VisibleBlock(w, h).value;
      var found := Matches(item, block.transactions);
      ServedIff(w, h, hash, block);
      MatchesMembers(item, block.transactions);
      if found != [] {
        assert found[0] in found;
      }
    }
  }

  // Reports are about requests of the batch.
  lemma {:induction false} BlockReportsMembers(batch: seq<ScanRequest>, hash: Hash, block: Block)
    ensures forall rep :: rep in BlockReports(batch, hash, block)
              <==> rep == Report(rep.tx, hash, block.height, rep.request) && rep.request in batch
                   && rep.tx in block.transactions && Concerns(rep.request.item, rep.tx)
  {
    if batch != [] {
      var init, last := batch[..|batch| - 1], batch[|batch| - 1];
      BlockReportsMembers(init, hash, block);
      ReportsForMembers(last, Matches(last.item, block.transactions), hash, block.height);
      MatchesMembers(last.item, block.transactions);
      assert batch == init + [last];
    }
  }

  lemma {:induction false} UnmatchedMembers(batch: seq<ScanRequest>, block: Block)
    ensures forall r :: r in Unmatched(batch, block) <==> r in batch && Matches(r.item, block.transactions) == []
    ensures forall r :: r in Matched(batch, block) <==> r in batch && Matches(r.item, block.transactions) != []
  {
    if batch != [] {
      UnmatchedMembers(batch[..|batch| - 1], block);
      assert batch == batch[..|batch| - 1] + [batch[|batch| - 1]];
    }
  }

  lemma {:induction false} RespawnsMembers(reports: seq<Report>)
    ensures forall c :: c in Respawns(reports) <==>
              exists rep :: rep in reports && rep.request.isPersistent && c == Respawn(rep.request, rep.blockHeight)
  {
    if reports != [] {
      var init, last := reports[..|reports| - 1], reports[|reports| - 1];
      RespawnsMembers(init);
      assert reports == init + [last];
      forall c | c in Respawns(reports)
        ensures exists rep :: rep in reports && rep.request.isPersistent && c == Respawn(rep.request, rep.blockHeight)
      {
        if c in Respawns(init) {
          var rep :| rep in init && rep.request.isPersistent && c == Respawn(rep.request, rep.blockHeight);
          assert rep in reports;
        } else {
          assert last in reports;
        }
      }
    }
  }

  // What an iteration puts back into batch and queue watches items that were in the batch.
  lemma ScanHeightKeepsSound(w: World, batch: seq<ScanRequest>, h: nat)
    requires AllSound(w, batch) && ScanHeight(w, batch, h).Extracted?
    ensures AllSound(w, ScanHeight(w, batch, h).remain)
    ensures AllSound(w, Respawns(ScanHeight(w, batch, h).reports))
  {
    var step := ScanHeight(w, batch, h);
    ScanHeightCases(w, batch, h);
    if step != Extracted([], [], batch) {
      var block, hash := VisibleBlock(w, h).value, w.HashAt(h).value;
      UnmatchedMembers(batch, block);
      forall c | c in Respawns(step.reports)
        ensures Sound(w, c.item)
      {
        RespawnsMembers(step.reports);
        var rep :| rep in step.reports && c == Respawn(rep.request, rep.blockHeight);
        BlockReportsMembers(batch, hash, block);
        assert rep.request in batch;
      }
    }
  }

  // The sums before and after one iteration.
  lemma OneStepOfSum(m: Measure, w: World, q: seq<ScanRequest>, batch: seq<ScanRequest>, h: nat, end: nat)
    requires h < end
    requires AllSound(w, q) && AllSound(w, batch) && AllSound(w, w.ArrivalsAt(h))
    requires ScanHeight(w, batch + Select(q + w.ArrivalsAt(h), h), h).Extracted?
    ensures var q1 := q + w.ArrivalsAt(h);
            var step := ScanHeight(w, batch + Select(q1, h), h);
            Sum(Queued(m, w, h, end), q) + Sum(Scanning(m, w, h, end), batch) + Arriving(m, w, h, end)
            == Sum(m.ofReport, step.reports)
               + Sum(Queued(m, w, h + 1, end), Rest(q1, h) + Respawns(step.reports))
               + Sum(Scanning(m, w, h + 1, end), step.remain)
               + Arriving(m, w, h + 1, end)
  {
    var q1 := q + w.ArrivalsAt(h);
    var taken, q2 := Select(q1, h), Rest(q1, h);
    SelectRestMembers(q1, h);
    var step := ScanHeight(w, batch + taken, h);
    SumConcat(Queued(m, w, h, end), q, w.ArrivalsAt(h));
    DequeueKeepsSum(m, w, q1, h, end);
    SumConcat(Scanning(m, w, h, end), batch, taken);
    ScanHeightKeepsSum(m, w, batch + taken, h, end);
    SumConcat(Queued(m, w, h + 1, end), q2, Respawns(step.reports));
  }

  // The put-back at the end of a run.
  lemma LastStepOfSum(m: Measure, w: World, q: seq<ScanRequest>, batch: seq<ScanRequest>, h: nat)
    ensures Sum(Queued(m, w, h, h), q) + Sum(Scanning(m, w, h, h), batch) + Arriving(m, w, h, h)
         == Sum(m.ofLeft, q + w.ArrivalsAt(h) + batch)
  {
    AtEndAllIsLeft(m, w, q, h);
    AtEndAllIsLeft(m, w, w.ArrivalsAt(h), h);
    AtEndAllIsLeft(m, w, batch, h);
    SumConcat(m.ofLeft, q, w.ArrivalsAt(h));
    SumConcat(m.ofLeft, q + w.ArrivalsAt(h), batch);
  }

  // What is in the queue or in the batch where a run stops is left in the queue or dropped.
  lemma EndOfSum(m: Measure, w: World, q: seq<ScanRequest>, batch: seq<ScanRequest>, h: nat)
    requires !RunGoesOn(w, q, batch, h)
    ensures var run := Run(w, q, batch, h);
            && run.last == h && run.reports == []
            && (run.ok ==> run.next == h && run.lost == [])
            && Sum(m.ofLeft, q + w.ArrivalsAt(h) + batch) == Sum(m.ofLeft, run.queue) + Sum(m.ofLeft, run.lost)
  {
    var q1 := q + w.ArrivalsAt(h);
    SumConcat(m.ofLeft, q1, batch);
    PartitionSum(m.ofLeft, m.ofLeft, m.ofLeft, q1, h);
    SumConcat(m.ofLeft, batch, Select(q1, h));
  }

  // The run completes the iteration at h.
  predicate RunGoesOn(w: World, q: seq<ScanRequest>, batch: seq<ScanRequest>, h: nat) {
    w.TipAt(h).Some? && h <= w.TipAt(h).value && ScanHeight(w, batch + Select(q + w.ArrivalsAt(h), h), h).Extracted?
  }

  lemma RunUnfolds(w: World, q: seq<ScanRequest>, batch: seq<ScanRequest>, h: nat)
    requires RunGoesOn(w, q, batch, h)
    ensures var q1 := q + w.ArrivalsAt(h);
            var taken := Select(q1, h);
            var step := ScanHeight(w, batch + taken, h);
            Run(w, q, batch, h) == Then(taken, step, Run(w, Rest(q1, h) + Respawns(step.reports), step.remain, h + 1))
  {}

  // Soundness of what the next iteration works on.
  lemma StepKeepsSound(w: World, q: seq<ScanRequest>, batch: seq<ScanRequest>, h: nat)
    requires AllSound(w, q) && AllSound(w, batch) && ArrivalsSound(w)
    requires RunGoesOn(w, q, batch, h)
    ensures var q1 := q + w.ArrivalsAt(h);
            var taken := Select(q1, h);
            var step := ScanHeight(w, batch + taken, h);
            && AllSound(w, w.ArrivalsAt(h)) && AllSound(w, batch + taken)
            && AllSound(w, Rest(q1, h) + Respawns(step.reports)) && AllSound(w, step.remain)
            && forall r :: r in taken ==> r.startHeight == h
  {
    var q1 := q + w.ArrivalsAt(h);
    SelectRestMembers(q1, h);
    assert AllSound(w, w.ArrivalsAt(h));
    ScanHeightKeepsSound(w, batch + Select(q1, h), h);
  }

  /** The refinement. Under every weight, a run sends, leaves in the queue and drops exactly what scanning each of its
      requests alone, up to the height where it stopped, would. On success nothing is dropped. Missing filters and
      blocks, a moving tip, false positives and requests arriving during the run are all allowed. */
  lemma {:induction false} RunIsSumOfScans(m: Measure, w: World, q: seq<ScanRequest>, batch: seq<ScanRequest>, h: nat)
    requires AllSound(w, q) && AllSound(w, batch) && ArrivalsSound(w)
    ensures var run := Run(w, q, batch, h);
            && h <= run.last
            && (run.ok ==> run.last == run.next && run.lost == [])
            && Sum(m.ofReport, run.reports) + Sum(m.ofLeft, run.queue) + Sum(m.ofLeft, run.lost)
               == Sum(Queued(m, w, h, run.last), q)
                  + Sum(Scanning(m, w, h, run.last), batch)
                  + Arriving(m, w, h, run.last)
    decreases 0xFFFF_FFFF - h
  {
    if !RunGoesOn(w, q, batch, h) {
      LastStepOfSum(m, w, q, batch, h);
      EndOfSum(m, w, q, batch, h);
    } else {
      var end := Run(w, q, batch, h).last;
      RunUnfolds(w, q, batch, h);
      StepKeepsSound(w, q, batch, h);
      var q1 := q + w.ArrivalsAt(h);
      var step := ScanHeight(w, batch + Select(q1, h), h);
      var q2 := Rest(q1, h) + Respawns(step.reports);
      RunIsSumOfScans(m, w, q2, step.remain, h + 1);
      SumConcat(m.ofReport, step.reports, Run(w, q2, step.remain, h + 1).reports);
      OneStepOfSum(m, w, q, batch, h, end);
    }
  }

  // ----- Small chains, as witnesses -----

  function OnlyHash(): Hash { seq(32, _ => 0) }

  // A chain of one block with the given transactions and filter; the tip stays there.
  function OneBlockWorld(txs: seq<Transaction>, elements: set<Script>): World {
    World(OnlyHash(), map[0 := 0, 1 := 0], map[], map[OnlyHash() := FilterFound(elements)],
          map[OnlyHash() := BlockFound(Block(0, txs))], map[])
  }

  lemma OnlyOneBlock(txs: seq<Transaction>, elements: set<Script>, h: nat)
    ensures VisibleBlock(OneBlockWorld(txs, elements), h) == if h == 0 then Some(Block(0, txs)) else None
  {}

  // A transaction that an item matches.
  function MatchingTx(item: WatchItem): (tx: Transaction)
    ensures Concerns(item, tx)
  {
    match item
    case SpentWatchItem(hash, index, _) =>
      var input := TxInput(hash, index);
      assert [input][0] == input;
      Transaction([], [input], [])
    case UnspentWatchItem(script) =>
      assert [script][0] == script;
      Transaction([], [], [script])
  }
}
