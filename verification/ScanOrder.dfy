/** What a run does to its lists, against plain filters; where it stops, by the answers of the stores; and what it puts
    back. */
module ScanOrder {
  import opened Basics
  import opened ScanTypes
  import opened ScanSpec
  import opened ScanTheory
  import opened ScanSafety

  function Filter<T>(p: T -> bool, s: seq<T>): seq<T> {
    if s == [] then [] else (if p(s[0]) then [s[0]] else []) + Filter(p, s[1..])
  }

  lemma {:induction false} FilterSnoc<T>(p: T -> bool, s: seq<T>, x: T)
    ensures Filter(p, s + [x]) == Filter(p, s) + if p(x) then [x] else []
  {
    if s == [] {
      assert s + [x] == [x] && [x][1..] == [];
    } else {
      FilterSnoc(p, s[1..], x);
      assert (s + [x])[1..] == s[1..] + [x];
    }
  }

  // Where s ends: its last element decides about one more element of the filtered list.
  lemma FilterLast<T>(p: T -> bool, s: seq<T>)
    requires s != []
    ensures Filter(p, s) == Filter(p, s[..|s| - 1]) + if p(s[|s| - 1]) then [s[|s| - 1]] else []
  {
    assert s == s[..|s| - 1] + [s[|s| - 1]];
    FilterSnoc(p, s[..|s| - 1], s[|s| - 1]);
  }

  // ----- Lists -----

  function StartsAt(h: nat): ScanRequest -> bool {
    (r: ScanRequest) => r.startHeight == h
  }

  function StartsElsewhere(h: nat): ScanRequest -> bool {
    (r: ScanRequest) => r.startHeight != h
  }

  /** Dequeuing splits the queue in order into the requests of the height and the others, copies included. */
  lemma {:induction false} DequeueFilters(s: seq<ScanRequest>, h: nat)
    ensures Select(s, h) == Filter(StartsAt(h), s)
    ensures Rest(s, h) == Filter(StartsElsewhere(h), s)
  {
    if s != [] {
      DequeueFilters(s[..|s| - 1], h);
      FilterLast(StartsAt(h), s);
      FilterLast(StartsElsewhere(h), s);
    }
  }

  function ConcernedBy(item: WatchItem): Transaction -> bool {
    (tx: Transaction) => Concerns(item, tx)
  }

  /** The matches of an item are the transactions that concern it, in block order. */
  lemma {:induction false} MatchesFilter(item: WatchItem, txs: seq<Transaction>)
    ensures Matches(item, txs) == Filter(ConcernedBy(item), txs)
  {
    if txs != [] {
      MatchesFilter(item, txs[..|txs| - 1]);
      FilterLast(ConcernedBy(item), txs);
      MatchIff(item, txs[|txs| - 1]);
    }
  }

  // The reports about one request: one for each transaction that concerns it.
  function OwnReports(r: ScanRequest, hash: Hash, block: Block): (reports: seq<Report>) {
    var found := Filter(ConcernedBy(r.item), block.transactions);
    seq(|found|, i requires 0 <= i < |found| => Report(found[i], hash, block.height, r))
  }

  function AllReports(batch: seq<ScanRequest>, hash: Hash, block: Block): seq<Report> {
    if batch == [] then [] else OwnReports(batch[0], hash, block) + AllReports(batch[1..], hash, block)
  }

  lemma {:induction false} AllReportsSnoc(batch: seq<ScanRequest>, r: ScanRequest, hash: Hash, block: Block)
    ensures AllReports(batch + [r], hash, block) == AllReports(batch, hash, block) + OwnReports(r, hash, block)
  {
    if batch == [] {
      assert batch + [r] == [r] && [r][1..] == [];
    } else {
      AllReportsSnoc(batch[1..], r, hash, block);
      assert (batch + [r])[1..] == batch[1..] + [r];
    }
  }

  lemma {:induction false} ReportsForEach(r: ScanRequest, txs: seq<Transaction>, hash: Hash, height: uint32)
    ensures var reports := ReportsFor(r, txs, hash, height);
            |reports| == |txs| && forall i :: 0 <= i < |txs| ==> reports[i] == Report(txs[i], hash, height, r)
  {
    if txs != [] {
      ReportsForEach(r, txs[..|txs| - 1], hash, height);
    }
  }

  /** Reports go out request by request in batch order, and for each request in block order. */
  lemma {:induction false} ReportsInOrder(batch: seq<ScanRequest>, hash: Hash, block: Block)
    ensures BlockReports(batch, hash, block) == AllReports(batch, hash, block)
  {
    if batch != [] {
      var init, last := batch[..|batch| - 1], batch[|batch| - 1];
      ReportsInOrder(init, hash, block);
      MatchesFilter(last.item, block.transactions);
      ReportsForEach(last, Matches(last.item, block.transactions), hash, block.height);
      assert batch == init + [last];
      AllReportsSnoc(init, last, hash, block);
    }
  }

  // Nothing in the block concerns the request.
  function Passed(block: Block): ScanRequest -> bool {
    (r: ScanRequest) => forall tx :: tx in block.transactions ==> !Concerns(r.item, tx)
  }

  /** The requests that remain are those that nothing in the block concerns, in batch order. */
  lemma {:induction false} UnmatchedFilters(batch: seq<ScanRequest>, block: Block)
    ensures Unmatched(batch, block) == Filter(Passed(block), batch)
  {
    if batch != [] {
      UnmatchedFilters(batch[..|batch| - 1], block);
      FilterLast(Passed(block), batch);
      PassedIff(batch[|batch| - 1], block);
    }
  }

  lemma PassedIff(r: ScanRequest, block: Block)
    ensures Matches(r.item, block.transactions) == [] <==> Passed(block)(r)
  {
    var found := Matches(r.item, block.transactions);
    assert found != [] ==> found[0] in found;
    MatchesMembers(r.item, block.transactions);
  }

  function AboutPersistent(rep: Report): bool { rep.request.isPersistent }

  /** Each report of a persistent request puts back its request, from the next height on, in the order of reports. */
  lemma {:induction false} RespawnsInOrder(reports: seq<Report>)
    ensures var about := Filter(AboutPersistent, reports);
            && |Respawns(reports)| == |about|
            && forall i :: 0 <= i < |about| ==>
                 var rep := about[i];
                 Respawns(reports)[i]
                 == ScanRequest(rep.request.clientID, (rep.blockHeight + 1) % 0x1_0000_0000, rep.request.item, true)
  {
    if reports != [] {
      RespawnsInOrder(reports[..|reports| - 1]);
      FilterLast(AboutPersistent, reports);
    }
  }

  // ----- Where a run stops -----

  // The block hash that the worker looks up at a height: the genesis hash, or the header store's.
  predicate HashServed(w: World, g: nat, hash: Hash) {
    if g == 0 then hash == w.genesis else g in w.hashes && hash == w.hashes[g]
  }

  predicate FilterFails(w: World, hash: Hash) { hash in w.filters && w.filters[hash].FilterFailed? }

  // The filter answers for some request of the batch and the block cannot be read.
  predicate BlockFails(w: World, hash: Hash, batch: seq<ScanRequest>) {
    && hash in w.filters && w.filters[hash].FilterFound?
    && (exists r :: r in batch && r.item.Bytes() in w.filters[hash].elements)
    && hash in w.blocks && w.blocks[hash].BlockFailed?
  }

  // The tip reaches a height, its hash is known, and no lookup that the batch calls for fails.
  ghost predicate Passes(w: World, g: nat, batch: seq<ScanRequest>) {
    && g in w.tips && g <= w.tips[g]
    && exists hash :: HashServed(w, g, hash) && !FilterFails(w, hash) && !BlockFails(w, hash, batch)
  }

  lemma FilterMatchesIff(batch: seq<ScanRequest>, elements: set<Script>)
    ensures FilterMatches(batch, elements) <==> exists r :: r in batch && r.item.Bytes() in elements
  {
    if r :| r in batch && r.item.Bytes() in elements {
      var i :| 0 <= i < |batch| && batch[i] == r;
      assert batch[i].item.Bytes() in elements;
    }
  }

  // An iteration is completed exactly under these conditions.
  lemma GoesOnIff(w: World, q: seq<ScanRequest>, batch: seq<ScanRequest>, h: nat)
    ensures RunGoesOn(w, q, batch, h) <==> Passes(w, h, batch + Select(q + w.ArrivalsAt(h), h))
  {
    var all := batch + Select(q + w.ArrivalsAt(h), h);
    if w.HashAt(h).Some? {
      var hash := w.HashAt(h).value;
      assert HashServed(w, h, hash);
      if w.FilterOf(hash).FilterFound? {
        FilterMatchesIff(all, w.FilterOf(hash).elements);
      }
    }
  }

  /** When a run returns nil, by the answers of the stores. It succeeded if and only if where it stopped the tip was
      read and is lower. If it failed, there was no tip there, no hash, a failed filter lookup, or a failed block lookup
      that the filter called for on behalf of a dropped request. */
  lemma {:induction false} RunStopsIff(w: World, q: seq<ScanRequest>, batch: seq<ScanRequest>, h: nat)
    ensures var run := Run(w, q, batch, h);
            && (run.ok <==> run.last in w.tips && w.tips[run.last] < run.last)
            && (!run.ok ==> !Passes(w, run.last, run.lost))
    decreases 0xFFFF_FFFF - h
  {
    GoesOnIff(w, q, batch, h);
    if RunGoesOn(w, q, batch, h) {
      var q1 := q + w.ArrivalsAt(h);
      var step := ScanHeight(w, batch + Select(q1, h), h);
      RunUnfolds(w, q, batch, h);
      RunStopsIff(w, Rest(q1, h) + Respawns(step.reports), step.remain, h + 1);
    }
  }

  lemma {:induction false} TakenStartLater(w: World, q: seq<ScanRequest>, batch: seq<ScanRequest>, h: nat)
    ensures forall r :: r in Run(w, q, batch, h).taken ==> r.startHeight >= h
    decreases 0xFFFF_FFFF - h
  {
    var q1 := q + w.ArrivalsAt(h);
    SelectRestMembers(q1, h);
    if !RunGoesOn(w, q, batch, h) {
      assert Run(w, q, batch, h).taken == [] || Run(w, q, batch, h).taken == Select(q1, h);
    } else {
      var step := ScanHeight(w, batch + Select(q1, h), h);
      RunUnfolds(w, q, batch, h);
      TakenStartLater(w, Rest(q1, h) + Respawns(step.reports), step.remain, h + 1);
    }
  }

  // A request that nothing at a height concerns stays in the batch.
  lemma UnconcernedRemains(w: World, batch: seq<ScanRequest>, h: nat, r: ScanRequest)
    requires ScanHeight(w, batch, h).Extracted? && r in batch && NoMatchAt(w, r.item, h)
    ensures r in ScanHeight(w, batch, h).remain
  {
    if ScanHeight(w, batch, h) != Extracted([], [], batch) {
      MatchesAtIff(w, r.item, h);
      UnmatchedMembers(batch, VisibleBlock(w, h).value);
    }
  }

  lemma PassesForEach(w: World, g: nat, batch: seq<ScanRequest>, r: ScanRequest)
    requires Passes(w, g, batch) && r in batch
    ensures Passes(w, g, [r])
  {
    var hash :| HashServed(w, g, hash) && !FilterFails(w, hash) && !BlockFails(w, hash, batch);
    assert !BlockFails(w, hash, [r]);
  }

  lemma GetsPast(w: World, q: seq<ScanRequest>, batch: seq<ScanRequest>, h: nat)
    requires h < Run(w, q, batch, h).last
    ensures RunGoesOn(w, q, batch, h)
  {}

  // Nothing served from one height up to another concerns an item.
  ghost predicate Untouched(w: World, item: WatchItem, lo: nat, hi: nat) {
    forall f :: lo <= f < hi ==> NoMatchAt(w, item, f)
  }

  // A request of the batch, as long as nothing concerns it.
  lemma {:induction false} PassedInBatch(w: World, q: seq<ScanRequest>, batch: seq<ScanRequest>, h: nat,
                                         r: ScanRequest, g: nat)
    requires r in batch && h <= g < Run(w, q, batch, h).last
    requires Untouched(w, r.item, h, g)
    ensures Passes(w, g, [r])
    decreases 0xFFFF_FFFF - h
  {
    GetsPast(w, q, batch, h);
    GoesOnIff(w, q, batch, h);
    var q1 := q + w.ArrivalsAt(h);
    var all := batch + Select(q1, h);
    if g == h {
      PassesForEach(w, h, all, r);
    } else {
      var step := ScanHeight(w, all, h);
      RunUnfolds(w, q, batch, h);
      UnconcernedRemains(w, all, h, r);
      PassedInBatch(w, Rest(q1, h) + Respawns(step.reports), step.remain, h + 1, r, g);
    }
  }

  // A request that a run takes is taken now or later.
  lemma TakenNowOrLater(w: World, q: seq<ScanRequest>, batch: seq<ScanRequest>, h: nat, r: ScanRequest)
    requires RunGoesOn(w, q, batch, h) && r in Run(w, q, batch, h).taken
    ensures var q1 := q + w.ArrivalsAt(h);
            var step := ScanHeight(w, batch + Select(q1, h), h);
            if r.startHeight == h then r in batch + Select(q1, h)
            else r in Run(w, Rest(q1, h) + Respawns(step.reports), step.remain, h + 1).taken
  {
    var q1 := q + w.ArrivalsAt(h);
    var step := ScanHeight(w, batch + Select(q1, h), h);
    RunUnfolds(w, q, batch, h);
    SelectRestMembers(q1, h);
    TakenStartLater(w, Rest(q1, h) + Respawns(step.reports), step.remain, h + 1);
  }

  /** A run gets past a height only if all lookups there were good that a request it carries calls for: failed ones are
      not taken for missing ones. */
  lemma {:induction false} PassedWhatItCarried(w: World, q: seq<ScanRequest>, batch: seq<ScanRequest>, h: nat,
                                               r: ScanRequest, g: nat)
    requires r in Run(w, q, batch, h).taken && h <= r.startHeight <= g < Run(w, q, batch, h).last
    requires Untouched(w, r.item, r.startHeight, g)
    ensures Passes(w, g, [r])
    decreases 0xFFFF_FFFF - h
  {
    GetsPast(w, q, batch, h);
    TakenNowOrLater(w, q, batch, h, r);
    if r.startHeight > h {
      var q1 := q + w.ArrivalsAt(h);
      var step := ScanHeight(w, batch + Select(q1, h), h);
      RunUnfolds(w, q, batch, h);
      PassedWhatItCarried(w, Rest(q1, h) + Respawns(step.reports), step.remain, h + 1, r, g);
    } else {
      PassedOnceTaken(w, q, batch, h, r, g);
    }
  }

  lemma PassedOnceTaken(w: World, q: seq<ScanRequest>, batch: seq<ScanRequest>, h: nat, r: ScanRequest, g: nat)
    requires RunGoesOn(w, q, batch, h) && r in batch + Select(q + w.ArrivalsAt(h), h)
    requires h <= g < Run(w, q, batch, h).last && Untouched(w, r.item, h, g)
    ensures Passes(w, g, [r])
  {
    GoesOnIff(w, q, batch, h);
    var q1 := q + w.ArrivalsAt(h);
    var all := batch + Select(q1, h);
    if g == h {
      PassesForEach(w, h, all, r);
    } else {
      var step := ScanHeight(w, all, h);
      RunUnfolds(w, q, batch, h);
      UnconcernedRemains(w, all, h, r);
      PassedInBatch(w, Rest(q1, h) + Respawns(step.reports), step.remain, h + 1, r, g);
    }
  }

  // ----- What is put back -----

  // Nothing served from the request's start height up to the end concerns it.
  ghost function Unresolved(w: World, s: seq<ScanRequest>, end: nat): seq<ScanRequest> {
    if s == [] then [] else
      var last := s[|s| - 1];
      Unresolved(w, s[..|s| - 1], end) + if NothingBehind(w, last, end) then [last] else []
  }

  lemma {:induction false} UnresolvedConcat(w: World, a: seq<ScanRequest>, b: seq<ScanRequest>, end: nat)
    ensures Unresolved(w, a + b, end) == Unresolved(w, a, end) + Unresolved(w, b, end)
    decreases |b|
  {
    if b == [] {
      assert a + b == a;
    } else {
      assert (a + b)[..|a + b| - 1] == a + b[..|b| - 1];
      UnresolvedConcat(w, a, b[..|b| - 1], end);
    }
  }

  ghost predicate AllBehind(w: World, s: seq<ScanRequest>, h: nat) {
    forall r :: r in s ==> NothingBehind(w, r, h)
  }

  lemma {:induction false} AllUnresolved(w: World, s: seq<ScanRequest>, end: nat)
    requires AllBehind(w, s, end)
    ensures Unresolved(w, s, end) == s
  {
    if s != [] {
      assert s[|s| - 1] in s;
      AllUnresolved(w, s[..|s| - 1], end);
    }
  }

  // Sieving at one more height first changes nothing.
  lemma {:induction false} UnresolvedAfterBlock(w: World, s: seq<ScanRequest>, block: Block, h: nat, end: nat)
    requires h < end && VisibleBlock(w, h) == Some(block) && forall r :: r in s ==> r.startHeight <= h
    ensures Unresolved(w, s, end) == Unresolved(w, Unmatched(s, block), end)
  {
    if s != [] {
      var init, last := s[..|s| - 1], s[|s| - 1];
      assert last in s;
      UnresolvedAfterBlock(w, init, block, h, end);
      MatchesAtIff(w, last.item, h);
      if Matches(last.item, block.transactions) == [] {
        UnresolvedConcat(w, Unmatched(init, block), [last], end);
        assert Unresolved(w, [last][..0], end) == [];
      } else {
        assert !NoMatchAt(w, last.item, h) && !NothingBehind(w, last, end);
        assert Unmatched(s, block) == Unmatched(init, block);
      }
    }
  }

  lemma UnresolvedAfterStep(w: World, batch: seq<ScanRequest>, h: nat, end: nat)
    requires h < end && AllSound(w, batch) && ScanHeight(w, batch, h).Extracted?
    requires forall r :: r in batch ==> r.startHeight <= h
    ensures Unresolved(w, batch, end) == Unresolved(w, ScanHeight(w, batch, h).remain, end)
  {
    ScanHeightCases(w, batch, h);
    if ScanHeight(w, batch, h) != Extracted([], [], batch) {
      UnresolvedAfterBlock(w, batch, VisibleBlock(w, h).value, h, end);
    }
  }

  lemma SieveStep(w: World, batch: seq<ScanRequest>, taken: seq<ScanRequest>, remain: seq<ScanRequest>,
                  later: seq<ScanRequest>, end: nat)
    requires Unresolved(w, batch + taken, end) == Unresolved(w, remain, end)
    ensures Unresolved(w, batch, end) + Unresolved(w, taken + later, end)
         == Unresolved(w, remain, end) + Unresolved(w, later, end)
  {
    UnresolvedConcat(w, batch, taken, end);
    UnresolvedConcat(w, taken, later, end);
    Associates(Unresolved(w, batch, end), Unresolved(w, taken, end), Unresolved(w, later, end));
  }

  lemma Associates(a: seq<ScanRequest>, b: seq<ScanRequest>, c: seq<ScanRequest>)
    ensures a + (b + c) == (a + b) + c
  {}

  lemma SieveEnds(w: World, q: seq<ScanRequest>, batch: seq<ScanRequest>, h: nat)
    requires AllBehind(w, batch, h) && Run(w, q, batch, h).ok && !RunGoesOn(w, q, batch, h)
    ensures var run := Run(w, q, batch, h);
            run.last == h && run.putBack == Unresolved(w, batch, h) + Unresolved(w, run.taken, h)
  {
    AllUnresolved(w, batch, h);
    assert batch + [] == batch;
  }

  /** A successful run puts back exactly the requests that it took and that nothing served from their start height to
      the last scanned height concerns, in the order in which it took them. */
  lemma {:induction false} PutBackIsUnresolved(w: World, q: seq<ScanRequest>, batch: seq<ScanRequest>, h: nat)
    requires AllSound(w, q) && AllSound(w, batch) && ArrivalsSound(w) && AllBehind(w, batch, h)
    requires Run(w, q, batch, h).ok
    ensures var run := Run(w, q, batch, h);
            && h <= run.last
            && run.putBack == Unresolved(w, batch, run.last) + Unresolved(w, run.taken, run.last)
    decreases 0xFFFF_FFFF - h
  {
    if RunGoesOn(w, q, batch, h) {
      var q1 := q + w.ArrivalsAt(h);
      var taken := Select(q1, h);
      var step := ScanHeight(w, batch + taken, h);
      var q2 := Rest(q1, h) + Respawns(step.reports);
      RunUnfolds(w, q, batch, h);
      StepKeepsSound(w, q, batch, h);
      StepLeavesNothingBehind(w, batch, taken, h);
      PutBackIsUnresolved(w, q2, step.remain, h + 1);
      var rest := Run(w, q2, step.remain, h + 1);
      UnresolvedAfterStep(w, batch + taken, h, rest.last);
      SieveStep(w, batch, taken, step.remain, rest.taken, rest.last);
    } else {
      SieveEnds(w, q, batch, h);
    }
  }

  /** They go behind everything else in the queue. */
  lemma {:induction false} PutBackGoesLast(w: World, q: seq<ScanRequest>, batch: seq<ScanRequest>, h: nat)
    requires Run(w, q, batch, h).ok
    ensures var run := Run(w, q, batch, h);
            |run.putBack| <= |run.queue| && run.queue[|run.queue| - |run.putBack|..] == run.putBack
    decreases 0xFFFF_FFFF - h
  {
    var q1 := q + w.ArrivalsAt(h);
    if RunGoesOn(w, q, batch, h) {
      var step := ScanHeight(w, batch + Select(q1, h), h);
      RunUnfolds(w, q, batch, h);
      PutBackGoesLast(w, Rest(q1, h) + Respawns(step.reports), step.remain, h + 1);
    } else {
      assert (q1 + batch)[|q1|..] == batch;
    }
  }
}
