/** What a run reports, against a naive scan of every block; how often; and what it may not have missed. */
module ScanResults {
  import opened Basics
  import opened ScanTypes
  import opened ScanSpec
  import opened ScanTheory
  import opened Sums

  // What the subscriber of a request is told.
  datatype ReportKey = ReportKey(clientID: ClientID, item: WatchItem, blockHash: Hash, tx: Transaction)

  function KeyOf(rep: Report): ReportKey {
    ReportKey(rep.request.clientID, rep.request.item, rep.blockHash, rep.tx)
  }

  // A block served for height h says it has height h.
  ghost predicate HonestAt(w: World, h: nat) {
    VisibleBlock(w, h).Some? ==> VisibleBlock(w, h).value.height == h
  }

  ghost predicate HonestHeights(w: World) {
    forall h: nat :: HonestAt(w, h)
  }

  ghost predicate ServedWith(w: World, h: nat, hash: Hash, tx: Transaction) {
    exists block :: ServedAt(w, h, hash, block) && tx in block.transactions
  }

  // The naive scan of the blocks served in [lo, end): every transaction that concerns the item of a persistent request,
  // those of the first such block for a one-shot request.
  ghost predicate NaiveReportAt(w: World, r: ScanRequest, lo: nat, end: nat, k: ReportKey, h: nat) {
    && lo <= h < end && ServedWith(w, h, k.blockHash, k.tx)
    && k.clientID == r.clientID && k.item == r.item && Concerns(r.item, k.tx)
    && (r.isPersistent || forall g :: lo <= g < h ==> !MatchesAt(w, r.item, g))
  }

  ghost predicate NaiveReport(w: World, r: ScanRequest, lo: nat, end: nat, k: ReportKey) {
    exists h: nat :: NaiveReportAt(w, r, lo, end, k, h)
  }

  // How many transactions of the visible block at h match an item.
  function CountAt(w: World, item: WatchItem, h: nat): nat {
    match VisibleBlock(w, h)
    case None => 0
    case Some(block) => |Matches(item, block.transactions)|
  }

  // Requests of s, in the queue when the scan is at h, that a scan up to end dequeues.
  function Entering(s: seq<ScanRequest>, h: nat, end: nat): seq<ScanRequest> {
    if s == [] then [] else
      var last := s[|s| - 1];
      Entering(s[..|s| - 1], h, end) + if h <= last.startHeight < end then [last] else []
  }

  function EnteringArrivals(w: World, h: nat, end: nat): seq<ScanRequest>
    decreases end - h
  {
    Entering(w.ArrivalsAt(h), h, end) + if h < end then EnteringArrivals(w, h + 1, end) else []
  }

  // All requests, queued at the start or arriving on the way, that a run over [h, end) dequeues.
  function Entrants(w: World, q: seq<ScanRequest>, h: nat, end: nat): seq<ScanRequest> {
    Entering(q, h, end) + EnteringArrivals(w, h, end)
  }

  ghost function Started(m: Measure, w: World, end: nat): ScanRequest -> nat {
    (r: ScanRequest) => ScanAlone(m, w, r, r.startHeight, end)
  }

  ghost predicate IgnoresLeft(m: Measure) {
    forall r :: m.ofLeft(r) == 0
  }

  lemma {:induction false} EnteringSum(m: Measure, w: World, s: seq<ScanRequest>, h: nat, end: nat)
    requires IgnoresLeft(m)
    ensures Sum(Queued(m, w, h, end), s) == Sum(Started(m, w, end), Entering(s, h, end))
  {
    if s != [] {
      var init, last := s[..|s| - 1], s[|s| - 1];
      EnteringSum(m, w, init, h, end);
      SumSnoc(Started(m, w, end), Entering(init, h, end), last);
      assert Entering(init, h, end) + [] == Entering(init, h, end);
    }
  }

  lemma {:induction false} ArrivingSum(m: Measure, w: World, h: nat, end: nat)
    requires IgnoresLeft(m)
    ensures Arriving(m, w, h, end) == Sum(Started(m, w, end), EnteringArrivals(w, h, end))
    decreases end - h
  {
    EnteringSum(m, w, w.ArrivalsAt(h), h, end);
    if h < end {
      ArrivingSum(m, w, h + 1, end);
      SumConcat(Started(m, w, end), Entering(w.ArrivalsAt(h), h, end), EnteringArrivals(w, h + 1, end));
    } else {
      assert Entering(w.ArrivalsAt(h), h, end) + [] == Entering(w.ArrivalsAt(h), h, end);
    }
  }

  // Under a weight on reports only, a run is the sum over its entrants of their own scans.
  lemma RunReportsAreEntrantsReports(m: Measure, w: World, q: seq<ScanRequest>, start: nat)
    requires IgnoresLeft(m) && AllSound(w, q) && ArrivalsSound(w)
    ensures var run := Run(w, q, [], start);
            Sum(m.ofReport, run.reports) == Sum(Started(m, w, run.last), Entrants(w, q, start, run.last))
  {
    var run := Run(w, q, [], start);
    RunIsSumOfScans(m, w, q, [], start);
    EnteringSum(m, w, q, start, run.last);
    ArrivingSum(m, w, start, run.last);
    SumConcat(Started(m, w, run.last), Entering(q, start, run.last), EnteringArrivals(w, start, run.last));
    SumPositive(m.ofLeft, run.queue);
    SumPositive(m.ofLeft, run.lost);
  }

  lemma {:induction false} LastIsBounded(w: World, q: seq<ScanRequest>, batch: seq<ScanRequest>, h: nat)
    requires h <= 0xFFFF_FFFF
    ensures h <= Run(w, q, batch, h).last <= 0xFFFF_FFFF
    decreases 0xFFFF_FFFF - h
  {
    var q1 := q + w.ArrivalsAt(h);
    if w.TipAt(h).Some? && h <= w.TipAt(h).value {
      var step := ScanHeight(w, batch + Select(q1, h), h);
      if step.Extracted? {
        LastIsBounded(w, Rest(q1, h) + Respawns(step.reports), step.remain, h + 1);
      }
    }
  }

  // ----- The set of reports -----

  function KeyMeasure(k: ReportKey): Measure {
    Measure(rep => if KeyOf(rep) == k then 1 else 0, _ => 0)
  }

  lemma PositiveProduct(n: nat, x: nat)
    requires n > 0
    ensures Times(n, x) > 0 <==> x > 0
  {
    TimesIsProduct(n, x);
  }

  // A match at h is the first one, or follows none: the naive scan from h is that of h and of h + 1.
  lemma NaiveUnfolds(w: World, r: ScanRequest, h: nat, end: nat, k: ReportKey)
    requires h < end
    ensures NaiveReport(w, r, h, end, k)
       <==> NaiveReportAt(w, r, h, end, k, h)
            || ((r.isPersistent || !MatchesAt(w, r.item, h)) && NaiveReport(w, r, h + 1, end, k))
  {
    if NaiveReport(w, r, h, end, k) {
      var g: nat :| NaiveReportAt(w, r, h, end, k, g);
      if g > h {
        assert NaiveReportAt(w, r, h + 1, end, k, g);
      }
    }
    if (r.isPersistent || !MatchesAt(w, r.item, h)) && NaiveReport(w, r, h + 1, end, k) {
      var g: nat :| NaiveReportAt(w, r, h + 1, end, k, g);
      assert NaiveReportAt(w, r, h, end, k, g);
    }
  }

  // The naive scan of a persistent request does not depend on its start height.
  lemma NaiveOfRespawn(w: World, r: ScanRequest, height: uint32, lo: nat, end: nat, k: ReportKey)
    requires r.isPersistent
    ensures NaiveReport(w, Respawn(r, height), lo, end, k) <==> NaiveReport(w, r, lo, end, k)
  {
    var c := Respawn(r, height);
    assert forall h: nat :: NaiveReportAt(w, c, lo, end, k, h) <==> NaiveReportAt(w, r, lo, end, k, h);
  }

  // One height of a request's own scan, when blocks tell their true height.
  lemma AloneStep(m: Measure, w: World, r: ScanRequest, h: nat, end: nat)
    requires HonestAt(w, h) && h < end <= 0xFFFF_FFFF
    ensures CountAt(w, r.item, h) == 0 ==> ScanAlone(m, w, r, h, end) == ScanAlone(m, w, r, h + 1, end)
    ensures CountAt(w, r.item, h) > 0 ==>
              var txs := Matches(r.item, VisibleBlock(w, h).value.transactions);
              ScanAlone(m, w, r, h, end)
              == Sum(m.ofReport, ReportsFor(r, txs, w.HashAt(h).value, h))
                 + if r.isPersistent then Times(|txs|, ScanAlone(m, w, Respawn(r, h), h + 1, end)) else 0
  {
    if CountAt(w, r.item, h) > 0 {
      assert Respawn(r, h).startHeight == h + 1;
      assert QueueAlone(m, w, Respawn(r, h), h + 1, end) == ScanAlone(m, w, Respawn(r, h), h + 1, end);
    }
  }

  // The key is among the reports of r at h exactly when the naive scan reports it there.
  lemma ReportsAtHeight(w: World, r: ScanRequest, h: nat, end: nat, k: ReportKey)
    requires h < end && VisibleBlock(w, h).Some?
    ensures var block := VisibleBlock(w, h).value;
            Sum(KeyMeasure(k).ofReport,
                ReportsFor(r, Matches(r.item, block.transactions), w.HashAt(h).value, block.height)) > 0
            <==> NaiveReportAt(w, r, h, end, k, h)
  {
    var block, hash := VisibleBlock(w, h).value, w.HashAt(h).value;
    var txs := Matches(r.item, block.transactions);
    var reports := ReportsFor(r, txs, hash, block.height);
    SumPositive(KeyMeasure(k).ofReport, reports);
    ReportsForMembers(r, txs, hash, block.height);
    MatchesMembers(r.item, block.transactions);
    ServedIff(w, h, hash, block);
    if NaiveReportAt(w, r, h, end, k, h) {
      var b :| ServedAt(w, h, k.blockHash, b) && k.tx in b.transactions;
      ServedIff(w, h, k.blockHash, b);
      assert Report(k.tx, hash, block.height, r) in reports;
    }
  }

  lemma NaiveReportMatches(w: World, r: ScanRequest, lo: nat, end: nat, k: ReportKey, h: nat)
    requires NaiveReportAt(w, r, lo, end, k, h)
    ensures MatchesAt(w, r.item, h)
  {}

  // The naive scan from h, by the match count at h.
  lemma NaiveStep(w: World, r: ScanRequest, h: nat, end: nat, k: ReportKey)
    requires h < end
    ensures CountAt(w, r.item, h) == 0 ==> (NaiveReport(w, r, h, end, k) <==> NaiveReport(w, r, h + 1, end, k))
    ensures CountAt(w, r.item, h) > 0 ==>
              (NaiveReport(w, r, h, end, k)
               <==> NaiveReportAt(w, r, h, end, k, h) || (r.isPersistent && NaiveReport(w, r, h + 1, end, k)))
  {
    NaiveUnfolds(w, r, h, end, k);
    MatchesAtIff(w, r.item, h);
    if NaiveReportAt(w, r, h, end, k, h) {
      NaiveReportMatches(w, r, h, end, k, h);
    }
  }

  lemma {:induction false} AloneIsNaive(w: World, r: ScanRequest, h: nat, end: nat, k: ReportKey)
    requires HonestHeights(w) && end <= 0xFFFF_FFFF
    ensures ScanAlone(KeyMeasure(k), w, r, h, end) > 0 <==> NaiveReport(w, r, h, end, k)
    decreases end - h
  {
    if h < end {
      AloneIsNaive(w, r, h + 1, end, k);
      AloneIsNaive(w, Respawn(r, h), h + 1, end, k);
      AloneIsNaiveAt(w, r, h, end, k);
    }
  }

  // The step of the induction.
  lemma AloneIsNaiveAt(w: World, r: ScanRequest, h: nat, end: nat, k: ReportKey)
    requires HonestHeights(w) && h < end <= 0xFFFF_FFFF
    requires ScanAlone(KeyMeasure(k), w, r, h + 1, end) > 0 <==> NaiveReport(w, r, h + 1, end, k)
    requires ScanAlone(KeyMeasure(k), w, Respawn(r, h), h + 1, end) > 0
             <==> NaiveReport(w, Respawn(r, h), h + 1, end, k)
    ensures ScanAlone(KeyMeasure(k), w, r, h, end) > 0 <==> NaiveReport(w, r, h, end, k)
  {
    var m, c := KeyMeasure(k), CountAt(w, r.item, h);
    NaiveStep(w, r, h, end, k);
    assert HonestAt(w, h);
    AloneStep(m, w, r, h, end);
    if c > 0 {
      var txs := Matches(r.item, VisibleBlock(w, h).value.transactions);
      var now := Sum(m.ofReport, ReportsFor(r, txs, w.HashAt(h).value, h));
      ReportsAtHeight(w, r, h, end, k);
      if r.isPersistent {
        NaiveOfRespawn(w, r, h, h + 1, end, k);
        var later := ScanAlone(m, w, Respawn(r, h), h + 1, end);
        PositiveProduct(c, later);
        assert ScanAlone(m, w, r, h, end) == now + Times(c, later);
      } else {
        assert ScanAlone(m, w, r, h, end) == now;
      }
    }
  }

  /** The run as a naive scan: what a run reports is exactly what a scan of every visible block, from each dequeued
      request's start height to where the run stopped, reports for that request. */
  lemma RunReportsNaiveScan(w: World, q: seq<ScanRequest>, start: nat, k: ReportKey)
    requires start <= 0xFFFF_FFFF && HonestHeights(w) && AllSound(w, q) && ArrivalsSound(w)
    ensures var run := Run(w, q, [], start);
            (exists rep :: rep in run.reports && KeyOf(rep) == k)
            <==> exists r :: r in Entrants(w, q, start, run.last) && NaiveReport(w, r, r.startHeight, run.last, k)
  {
    var run := Run(w, q, [], start);
    var m, entrants := KeyMeasure(k), Entrants(w, q, start, run.last);
    LastIsBounded(w, q, [], start);
    RunReportsAreEntrantsReports(m, w, q, start);
    SumPositive(m.ofReport, run.reports);
    SumPositive(Started(m, w, run.last), entrants);
    forall r
      ensures Started(m, w, run.last)(r) > 0 <==> NaiveReport(w, r, r.startHeight, run.last, k)
    {
      AloneIsNaive(w, r, r.startHeight, run.last, k);
    }
    assert forall rep :: m.ofReport(rep) > 0 <==> KeyOf(rep) == k;
  }

  // ----- How many reports and copies -----

  // Product over [lo, hi) of the match counts of matching blocks.
  function Copies(w: World, item: WatchItem, lo: nat, hi: nat): nat
    decreases hi - lo
  {
    if lo >= hi then 1 else
      var c, rest := CountAt(w, item, lo), Copies(w, item, lo + 1, hi);
      if c == 0 then rest else Times(c, rest)
  }

  // Reports about height g, and requests left, each counted once.
  function HeightMeasure(g: nat): Measure {
    Measure((rep: Report) => if rep.blockHeight == g then 1 else 0, _ => 0)
  }

  const LEFT_MEASURE := Measure(_ => 0, _ => 1)

  // Some block of [lo, hi) has a match.
  ghost predicate CountedIn(w: World, item: WatchItem, lo: nat, hi: nat) {
    exists j :: lo <= j < hi && CountAt(w, item, j) > 0
  }

  lemma CountedInUnfolds(w: World, item: WatchItem, lo: nat, hi: nat)
    requires lo < hi
    ensures CountedIn(w, item, lo, hi) <==> CountAt(w, item, lo) > 0 || CountedIn(w, item, lo + 1, hi)
  {
    if CountedIn(w, item, lo, hi) && CountAt(w, item, lo) == 0 {
      var j :| lo <= j < hi && CountAt(w, item, j) > 0;
      assert lo + 1 <= j;
    }
  }

  // The reports about height g of one request scanned from lo.
  ghost function ReportCount(w: World, r: ScanRequest, lo: nat, end: nat, g: nat): nat {
    if !(lo <= g < end) then 0
    else if r.isPersistent then Times(Copies(w, r.item, lo, g), CountAt(w, r.item, g))
    else if CountedIn(w, r.item, lo, g) then 0
    else CountAt(w, r.item, g)
  }

  lemma {:induction false} ConstantSum(r: ScanRequest, txs: seq<Transaction>, hash: Hash, height: uint32, m: Measure,
                                       x: nat)
    requires forall tx :: m.ofReport(Report(tx, hash, height, r)) == x
    ensures Sum(m.ofReport, ReportsFor(r, txs, hash, height)) == Times(|txs|, x)
  {
    if txs != [] {
      var init := txs[..|txs| - 1];
      ConstantSum(r, init, hash, height, m, x);
      SumSnoc(m.ofReport, ReportsFor(r, init, hash, height), Report(txs[|txs| - 1], hash, height, r));
    }
  }

  // The count about g from h, by what happens at h.
  lemma ReportCountUnfolds(w: World, r: ScanRequest, h: nat, end: nat, g: nat)
    requires h < end
    ensures var c, later := CountAt(w, r.item, h), ReportCount(w, r, h + 1, end, g);
            ReportCount(w, r, h, end, g)
            == if c == 0 then later
               else (if g == h then c else 0) + if r.isPersistent then Times(c, later) else 0
  {
    var c := CountAt(w, r.item, h);
    TimesZero(c);
    TimesIsProduct(1, CountAt(w, r.item, g));
    if h < g < end {
      if r.isPersistent {
        CopiesUnfold(w, r.item, h, g);
      } else {
        CountedInUnfolds(w, r.item, h, g);
      }
    }
  }

  lemma CopiesUnfold(w: World, item: WatchItem, h: nat, g: nat)
    requires h < g
    ensures var c, x, later := CountAt(w, item, h), CountAt(w, item, g), Copies(w, item, h + 1, g);
            Times(Copies(w, item, h, g), x) == if c == 0 then Times(later, x) else Times(c, Times(later, x))
  {
    var c, x, later := CountAt(w, item, h), CountAt(w, item, g), Copies(w, item, h + 1, g);
    if c > 0 {
      TimesAssoc(c, later, x);
    }
  }

  // The reports about height g: its own match count times the copies made by the matching blocks before it.
  lemma {:induction false} AloneReportCount(w: World, r: ScanRequest, h: nat, end: nat, g: nat)
    requires HonestHeights(w) && end <= 0xFFFF_FFFF
    ensures ScanAlone(HeightMeasure(g), w, r, h, end) == ReportCount(w, r, h, end, g)
    decreases end - h
  {
    if h < end {
      AloneReportCount(w, r, h + 1, end, g);
      AloneReportCount(w, Respawn(r, h), h + 1, end, g);
      AloneReportCountAt(w, r, h, end, g);
    }
  }

  // The step of the induction.
  lemma AloneReportCountAt(w: World, r: ScanRequest, h: nat, end: nat, g: nat)
    requires HonestHeights(w) && h < end <= 0xFFFF_FFFF
    requires ScanAlone(HeightMeasure(g), w, r, h + 1, end) == ReportCount(w, r, h + 1, end, g)
    requires ScanAlone(HeightMeasure(g), w, Respawn(r, h), h + 1, end) == ReportCount(w, Respawn(r, h), h + 1, end, g)
    ensures ScanAlone(HeightMeasure(g), w, r, h, end) == ReportCount(w, r, h, end, g)
  {
    var m, c := HeightMeasure(g), CountAt(w, r.item, h);
    ReportCountUnfolds(w, r, h, end, g);
    assert HonestAt(w, h);
    AloneStep(m, w, r, h, end);
    if c > 0 {
      var txs := Matches(r.item, VisibleBlock(w, h).value.transactions);
      ConstantSum(r, txs, w.HashAt(h).value, h, m, if h == g then 1 else 0);
      TimesIsProduct(|txs|, if h == g then 1 else 0);
    }
  }

  // Copies left in the queue after a scan of [h, end).
  lemma {:induction false} AloneLeftCount(w: World, r: ScanRequest, h: nat, end: nat)
    requires HonestHeights(w) && end <= 0xFFFF_FFFF
    ensures ScanAlone(LEFT_MEASURE, w, r, h, end) == LeftCount(w, r, h, end)
    decreases end - h
  {
    if h < end {
      AloneLeftCount(w, r, h + 1, end);
      AloneLeftCount(w, Respawn(r, h), h + 1, end);
      AloneLeftCountAt(w, r, h, end);
    }
  }

  ghost function LeftCount(w: World, r: ScanRequest, h: nat, end: nat): nat {
    if r.isPersistent then Copies(w, r.item, h, end) else if CountedIn(w, r.item, h, end) then 0 else 1
  }

  // The step of the induction.
  lemma AloneLeftCountAt(w: World, r: ScanRequest, h: nat, end: nat)
    requires HonestHeights(w) && h < end <= 0xFFFF_FFFF
    requires ScanAlone(LEFT_MEASURE, w, r, h + 1, end) == LeftCount(w, r, h + 1, end)
    requires ScanAlone(LEFT_MEASURE, w, Respawn(r, h), h + 1, end) == LeftCount(w, Respawn(r, h), h + 1, end)
    ensures ScanAlone(LEFT_MEASURE, w, r, h, end) == LeftCount(w, r, h, end)
  {
    assert HonestAt(w, h);
    AloneStep(LEFT_MEASURE, w, r, h, end);
    CountedInUnfolds(w, r.item, h, end);
    if CountAt(w, r.item, h) > 0 {
      var txs := Matches(r.item, VisibleBlock(w, h).value.transactions);
      ConstantSum(r, txs, w.HashAt(h).value, h, LEFT_MEASURE, 0);
      TimesZero(|txs|);
    }
  }

  ghost function ReportCounts(w: World, end: nat, g: nat): ScanRequest -> nat {
    (r: ScanRequest) => ReportCount(w, r, r.startHeight, end, g)
  }

  /** How many reports a run sends about the block of height g. */
  lemma RunReportCount(w: World, q: seq<ScanRequest>, start: nat, g: nat)
    requires start <= 0xFFFF_FFFF && HonestHeights(w) && AllSound(w, q) && ArrivalsSound(w)
    ensures var run := Run(w, q, [], start);
            Sum(HeightMeasure(g).ofReport, run.reports)
            == Sum(ReportCounts(w, run.last, g), Entrants(w, q, start, run.last))
  {
    var run := Run(w, q, [], start);
    LastIsBounded(w, q, [], start);
    RunReportsAreEntrantsReports(HeightMeasure(g), w, q, start);
    forall r
      ensures Started(HeightMeasure(g), w, run.last)(r) == ReportCounts(w, run.last, g)(r)
    {
      AloneReportCount(w, r, r.startHeight, run.last, g);
    }
    SumCong(Started(HeightMeasure(g), w, run.last), ReportCounts(w, run.last, g), Entrants(w, q, start, run.last));
  }

  // The requests in the queue after a scan of [lo, end), for one that is there when the scan is at lo.
  ghost function LeftCounts(w: World, lo: nat, end: nat): ScanRequest -> nat {
    (r: ScanRequest) => if lo <= r.startHeight < end then LeftCount(w, r, r.startHeight, end) else 1
  }

  ghost function ArrivingLeft(w: World, h: nat, end: nat): nat
    decreases end - h
  {
    Sum(LeftCounts(w, h, end), w.ArrivalsAt(h)) + if h < end then ArrivingLeft(w, h + 1, end) else 0
  }

  lemma QueuedLeftIs(w: World, s: seq<ScanRequest>, h: nat, end: nat)
    requires HonestHeights(w) && end <= 0xFFFF_FFFF
    ensures Sum(Queued(LEFT_MEASURE, w, h, end), s) == Sum(LeftCounts(w, h, end), s)
  {
    forall r
      ensures Queued(LEFT_MEASURE, w, h, end)(r) == LeftCounts(w, h, end)(r)
    {
      AloneLeftCount(w, r, r.startHeight, end);
    }
    SumCong(Queued(LEFT_MEASURE, w, h, end), LeftCounts(w, h, end), s);
  }

  lemma {:induction false} ArrivingLeftIs(w: World, h: nat, end: nat)
    requires HonestHeights(w) && end <= 0xFFFF_FFFF
    ensures Arriving(LEFT_MEASURE, w, h, end) == ArrivingLeft(w, h, end)
    decreases end - h
  {
    QueuedLeftIs(w, w.ArrivalsAt(h), h, end);
    if h < end {
      ArrivingLeftIs(w, h + 1, end);
    }
  }

  lemma {:induction false} LeftMeasureCounts(s: seq<ScanRequest>, reports: seq<Report>)
    ensures Sum(LEFT_MEASURE.ofLeft, s) == |s|
    ensures Sum(LEFT_MEASURE.ofReport, reports) == 0
  {
    if s != [] {
      LeftMeasureCounts(s[..|s| - 1], reports);
    } else if reports != [] {
      LeftMeasureCounts(s, reports[..|reports| - 1]);
    }
  }

  /** How many requests a run leaves in the queue or, when it fails, drops: each request and each arrival stands for its
      copies. */
  lemma RunLeftCount(w: World, q: seq<ScanRequest>, start: nat)
    requires start <= 0xFFFF_FFFF && HonestHeights(w) && AllSound(w, q) && ArrivalsSound(w)
    ensures var run := Run(w, q, [], start);
            && |run.queue| + |run.lost| == Sum(LeftCounts(w, start, run.last), q) + ArrivingLeft(w, start, run.last)
            && (run.ok ==> run.lost == [])
  {
    var run := Run(w, q, [], start);
    LastIsBounded(w, q, [], start);
    RunIsSumOfScans(LEFT_MEASURE, w, q, [], start);
    QueuedLeftIs(w, q, start, run.last);
    ArrivingLeftIs(w, start, run.last);
    LeftMeasureCounts(run.queue, run.reports);
    LeftMeasureCounts(run.lost, []);
  }

  /** Copies never multiply exactly when no two transactions of a scanned block match the item. */
  lemma {:induction false} CopiesAreExact(w: World, item: WatchItem, lo: nat, hi: nat)
    ensures Copies(w, item, lo, hi) >= 1
    ensures Copies(w, item, lo, hi) == 1 <==> forall h :: lo <= h < hi ==> CountAt(w, item, h) <= 1
    decreases hi - lo
  {
    if lo < hi {
      CopiesAreExact(w, item, lo + 1, hi);
      var c, rest := CountAt(w, item, lo), Copies(w, item, lo + 1, hi);
      if c > 0 {
        ProductIsOne(c, rest);
      }
    }
  }

  lemma ProductIsOne(a: nat, b: nat)
    requires a >= 1 && b >= 1
    ensures Times(a, b) >= 1
    ensures Times(a, b) == 1 <==> a == 1 && b == 1
  {
    TimesIsProduct(a, b);
    if a >= 2 {
      assert a * b >= 2 * b;
    } else {
      assert a * b == b;
    }
  }

  /** Two matches in one block: watching an item persistently from there reports twice and leaves two copies. */
  lemma TwoMatchesLeaveTwoCopies(r: ScanRequest)
    requires r.isPersistent && r.startHeight == 0
    ensures var tx := MatchingTx(r.item);
            var run := Run(OneBlockWorld([tx, tx], {r.item.Bytes()}), [r], [], 0);
            && run.ok && run.last == 1 && run.queue == [Respawn(r, 0), Respawn(r, 0)]
            && run.reports == [Report(tx, OnlyHash(), 0, r), Report(tx, OnlyHash(), 0, r)]
  {
    var tx := MatchingTx(r.item);
    var w, rep := OneBlockWorld([tx, tx], {r.item.Bytes()}), Report(tx, OnlyHash(), 0, r);
    TwoReports(r, tx);
    assert [r][..0] == [] && [r] + w.ArrivalsAt(0) == [r] && [] + [r] == [r];
    LoneRequestIsTaken(r);
    assert [r][0].item.Bytes() in w.FilterOf(OnlyHash()).elements;
    assert FilterMatches([r], w.FilterOf(OnlyHash()).elements);
    assert ScanHeight(w, [r], 0) == Extracted([rep, rep], [r], []);
    RunUnfolds(w, [r], [], 0);
    EndsAfterOneBlock(w, [Respawn(r, 0), Respawn(r, 0)]);
  }

  lemma LoneRequestIsTaken(r: ScanRequest)
    requires r.startHeight == 0
    ensures Select([r], 0) == [r] && Rest([r], 0) == []
  {
    assert [r][..0] == [] && [] + [r] == [r];
    assert Select([], 0) == [] && Rest([], 0) == [];
  }

  lemma TwoReports(r: ScanRequest, tx: Transaction)
    requires r.isPersistent && Concerns(r.item, tx)
    ensures var rep, block := Report(tx, OnlyHash(), 0, r), Block(0, [tx, tx]);
            && BlockReports([r], OnlyHash(), block) == [rep, rep]
            && Respawns([rep, rep]) == [Respawn(r, 0), Respawn(r, 0)]
            && Matched([r], block) == [r] && Unmatched([r], block) == []
  {
    var rep, block := Report(tx, OnlyHash(), 0, r), Block(0, [tx, tx]);
    assert [r][..0] == [];
    BothMatch(r.item, tx);
    BothReported(r, tx);
    RespawnedTwice(rep);
  }

  lemma BothReported(r: ScanRequest, tx: Transaction)
    ensures var rep := Report(tx, OnlyHash(), 0, r);
            ReportsFor(r, [tx, tx], OnlyHash(), 0) == [rep, rep]
  {
    assert [tx, tx][..1] == [tx] && [tx][..0] == [];
    assert ReportsFor(r, [tx], OnlyHash(), 0) == [Report(tx, OnlyHash(), 0, r)];
  }

  lemma RespawnedTwice(rep: Report)
    requires rep.request.isPersistent
    ensures var c := Respawn(rep.request, rep.blockHeight);
            Respawns([rep, rep]) == [c, c]
  {
    assert [rep, rep][..1] == [rep] && [rep][..0] == [];
    assert Respawns([rep]) == [Respawn(rep.request, rep.blockHeight)];
  }

  lemma EndsAfterOneBlock(w: World, q: seq<ScanRequest>)
    requires w.tips == map[0 := 0, 1 := 0] && w.arrivals == map[]
    ensures var run := Run(w, q, [], 1);
            run.ok && run.last == 1 && run.reports == [] && run.queue == q
  {
    assert w.TipAt(1) == Some(0) && q + w.ArrivalsAt(1) + [] == q;
  }

  lemma BothMatch(item: WatchItem, tx: Transaction)
    requires Concerns(item, tx)
    ensures Matches(item, [tx, tx]) == [tx, tx]
  {
    MatchIff(item, tx);
    assert [tx, tx][..1] == [tx] && [tx][..0] == [];
    assert Matches(item, [tx]) == [tx];
  }
}
