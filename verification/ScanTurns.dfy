/** The scanner over many turns: cutting a scan into turns, with requests put back and scanned again, neither loses nor
    duplicates a report. */
module ScanTurns {
  import opened Basics
  import opened ScanTypes
  import opened ScanSpec
  import opened ScanTheory
  import opened ScanResults
  import opened ScanSafety
  import opened ScanFairness
  import opened Sums

  // What happens to the queue: another goroutine enqueues, or the manager takes a turn. On an empty queue it waits.
  datatype ManagerEvent = Enqueued(req: ScanRequest) | Scanned(world: World)

  function QueueAfter(q: seq<ScanRequest>, events: seq<ManagerEvent>): seq<ScanRequest> {
    if events == [] then q else
      var before := QueueAfter(q, events[..|events| - 1]);
      match events[|events| - 1]
      case Enqueued(req) => before + [req]
      case Scanned(w) => if before == [] then [] else Turn(w, before).queue
  }

  function ReportsAfter(q: seq<ScanRequest>, events: seq<ManagerEvent>): seq<Report> {
    if events == [] then [] else
      var init := events[..|events| - 1];
      var before := QueueAfter(q, init);
      match events[|events| - 1]
      case Enqueued(_) => ReportsAfter(q, init)
      case Scanned(w) => if before == [] then ReportsAfter(q, init) else ReportsAfter(q, init) + Turn(w, before).reports
  }

  // The requests of clients: those queued at first, enqueued between turns, and arriving during turns.
  function ClientRequests(q: seq<ScanRequest>, events: seq<ManagerEvent>): seq<ScanRequest> {
    if events == [] then q else
      var init := events[..|events| - 1];
      var before := QueueAfter(q, init);
      match events[|events| - 1]
      case Enqueued(req) => ClientRequests(q, init) + [req]
      case Scanned(w) =>
        if before == [] then ClientRequests(q, init)
        else ClientRequests(q, init) + ArrivedIn(w, before[0].startHeight, Turn(w, before).last)
  }

  function ArrivedIn(w: World, lo: nat, last: nat): seq<ScanRequest> { Arrived(w, lo, last) }

  // The requests that failed turns dropped.
  function DroppedAfter(q: seq<ScanRequest>, events: seq<ManagerEvent>): seq<ScanRequest> {
    if events == [] then [] else
      var init := events[..|events| - 1];
      var before := QueueAfter(q, init);
      match events[|events| - 1]
      case Enqueued(_) => DroppedAfter(q, init)
      case Scanned(w) => if before == [] then DroppedAfter(q, init) else DroppedAfter(q, init) + Turn(w, before).lost
  }

  // ----- One chain for all turns -----

  // A turn sees the chain's block at h, or none there while the chain has none or one that no watched item matches.
  ghost predicate AgreesAt(items: set<WatchItem>, w: World, chain: World, h: nat) {
    if VisibleBlock(w, h).Some? then VisibleBlock(chain, h) == VisibleBlock(w, h) && w.HashAt(h) == chain.HashAt(h)
    else forall item :: item in items ==> CountAt(chain, item, h) == 0
  }

  ghost predicate AgreesBelow(items: set<WatchItem>, w: World, chain: World, end: nat) {
    forall h: nat :: h < end ==> AgreesAt(items, w, chain, h)
  }

  ghost predicate Watched(items: set<WatchItem>, s: seq<ScanRequest>) {
    forall r :: r in s ==> r.item in items
  }

  ghost predicate WatchedArrivals(items: set<WatchItem>, w: World) {
    forall h: nat :: Watched(items, w.ArrivalsAt(h))
  }

  ghost predicate SoundForAll(items: set<WatchItem>, w: World) {
    forall item :: item in items ==> Sound(w, item)
  }

  // A turn, successful or not, on the chain, with filters that miss no watched item.
  ghost predicate GoodTurn(items: set<WatchItem>, chain: World, w: World, q: seq<ScanRequest>, end: nat)
    requires q != []
  {
    && Turn(w, q).last <= end && AgreesBelow(items, w, chain, Turn(w, q).last)
    && SoundForAll(items, w) && WatchedArrivals(items, w)
  }

  ghost predicate GoodHistory(items: set<WatchItem>, chain: World, q: seq<ScanRequest>, events: seq<ManagerEvent>,
                              end: nat) {
    if events == [] then Watched(items, q) else
      var init := events[..|events| - 1];
      var before := QueueAfter(q, init);
      && GoodHistory(items, chain, q, init, end)
      && match events[|events| - 1]
         case Enqueued(req) => req.item in items
         case Scanned(w) => before != [] ==> GoodTurn(items, chain, w, before, end)
  }

  // ----- The items a run leaves are those it was given -----

  lemma StepKeepsWatched(items: set<WatchItem>, w: World, batch: seq<ScanRequest>, h: nat)
    requires Watched(items, batch) && ScanHeight(w, batch, h).Extracted?
    ensures Watched(items, ScanHeight(w, batch, h).remain)
    ensures Watched(items, Respawns(ScanHeight(w, batch, h).reports))
  {
    var step, hash := ScanHeight(w, batch, h), w.HashAt(h).value;
    if step != Extracted([], [], batch) {
      var block := w.BlockOf(hash).block;
      UnmatchedMembers(batch, block);
      RespawnsMembers(step.reports);
      BlockReportsMembers(batch, hash, block);
    }
  }

  lemma {:induction false} RunKeepsWatched(items: set<WatchItem>, w: World, q: seq<ScanRequest>,
                                           batch: seq<ScanRequest>, h: nat)
    requires Watched(items, q) && Watched(items, batch) && WatchedArrivals(items, w)
    ensures Watched(items, Run(w, q, batch, h).queue)
    decreases 0xFFFF_FFFF - h
  {
    var q1 := q + w.ArrivalsAt(h);
    assert Watched(items, w.ArrivalsAt(h));
    assert Watched(items, q1);
    SelectRestMembers(q1, h);
    if RunGoesOn(w, q, batch, h) {
      var taken := Select(q1, h);
      var step := ScanHeight(w, batch + taken, h);
      RunUnfolds(w, q, batch, h);
      StepKeepsWatched(items, w, batch + taken, h);
      RunKeepsWatched(items, w, Rest(q1, h) + Respawns(step.reports), step.remain, h + 1);
    } else {
      RunEnds(w, q, batch, h);
    }
  }

  lemma {:induction false} QueueIsWatched(items: set<WatchItem>, chain: World, q: seq<ScanRequest>,
                                          events: seq<ManagerEvent>, end: nat)
    requires GoodHistory(items, chain, q, events, end)
    ensures Watched(items, QueueAfter(q, events))
  {
    if events != [] {
      var init := events[..|events| - 1];
      var before := QueueAfter(q, init);
      QueueIsWatched(items, chain, q, init, end);
      match events[|events| - 1]
      case Enqueued(req) =>
      case Scanned(w) =>
        if before != [] {
          RunKeepsWatched(items, w, before, [], before[0].startHeight);
        }
    }
  }

  // ----- Cutting one request's scan in two -----

  ghost function OnlyReports(f: Report -> nat): Measure { Measure(f, _ => 0) }

  // What a request in the queue is still to report, scanned on the chain from its start height up to end.
  ghost function ToReport(f: Report -> nat, chain: World, end: nat): ScanRequest -> nat {
    (r: ScanRequest) => ScanAlone(OnlyReports(f), chain, r, r.startHeight, end)
  }

  // The weight of a turn: its reports, and what it leaves for later ones.
  ghost function Cut(f: Report -> nat, chain: World, end: nat): Measure { Measure(f, ToReport(f, chain, end)) }

  ghost predicate NoneCounted(chain: World, item: WatchItem, lo: nat, hi: nat) {
    forall g: nat :: lo <= g < hi ==> CountAt(chain, item, g) == 0
  }

  // Scanning again what did not match changes nothing.
  lemma {:induction false} ScanAgain(m: Measure, chain: World, r: ScanRequest, lo: nat, hi: nat, end: nat)
    requires lo <= hi && NoneCounted(chain, r.item, lo, hi)
    ensures ScanAlone(m, chain, r, lo, end) == ScanAlone(m, chain, r, hi, end)
    decreases hi - lo
  {
    if lo < hi {
      assert CountAt(chain, r.item, lo) == 0;
      ScanAgain(m, chain, r, lo + 1, hi, end);
    }
  }

  lemma {:induction false} ScanCut(items: set<WatchItem>, f: Report -> nat, w: World, chain: World, r: ScanRequest,
                                   h: nat, mid: nat, end: nat)
    requires HonestHeights(chain) && AgreesBelow(items, w, chain, mid) && mid <= end <= 0xFFFF_FFFF
    requires r.item in items && r.startHeight <= h && NoneCounted(chain, r.item, r.startHeight, h)
    ensures ScanAlone(Cut(f, chain, end), w, r, h, mid) == ScanAlone(OnlyReports(f), chain, r, h, end)
    decreases mid - h
  {
    if h >= mid {
      ScanCutEnds(f, w, chain, r, h, mid, end);
    } else {
      if CountAt(chain, r.item, h) == 0 {
        NoneCountedGrows(chain, r.item, r.startHeight, h);
        ScanCut(items, f, w, chain, r, h + 1, mid, end);
      } else {
        RespawnIsFresh(chain, r, h);
        ScanCut(items, f, w, chain, Respawn(r, h), h + 1, mid, end);
      }
      ScanCutAt(items, f, w, chain, r, h, mid, end);
    }
  }

  lemma NoneCountedGrows(chain: World, item: WatchItem, lo: nat, h: nat)
    requires lo <= h && NoneCounted(chain, item, lo, h) && CountAt(chain, item, h) == 0
    ensures NoneCounted(chain, item, lo, h + 1)
  {}

  lemma RespawnIsFresh(chain: World, r: ScanRequest, h: nat)
    requires h < 0xFFFF_FFFF
    ensures var c := Respawn(r, h);
            c.item == r.item && c.startHeight == h + 1 && NoneCounted(chain, c.item, c.startHeight, h + 1)
  {}

  lemma ScanCutEnds(f: Report -> nat, w: World, chain: World, r: ScanRequest, h: nat, mid: nat, end: nat)
    requires h >= mid && r.startHeight <= h && NoneCounted(chain, r.item, r.startHeight, h)
    ensures ScanAlone(Cut(f, chain, end), w, r, h, mid) == ScanAlone(OnlyReports(f), chain, r, h, end)
  {
    ScanAgain(OnlyReports(f), chain, r, r.startHeight, h, end);
  }

  // The step of the induction.
  lemma ScanCutAt(items: set<WatchItem>, f: Report -> nat, w: World, chain: World, r: ScanRequest, h: nat, mid: nat,
                  end: nat)
    requires HonestHeights(chain) && AgreesBelow(items, w, chain, mid) && h < mid <= end <= 0xFFFF_FFFF
    requires r.item in items
    requires CountAt(chain, r.item, h) == 0 ==>
               ScanAlone(Cut(f, chain, end), w, r, h + 1, mid) == ScanAlone(OnlyReports(f), chain, r, h + 1, end)
    requires CountAt(chain, r.item, h) > 0 ==>
               ScanAlone(Cut(f, chain, end), w, Respawn(r, h), h + 1, mid)
                 == ScanAlone(OnlyReports(f), chain, Respawn(r, h), h + 1, end)
    ensures ScanAlone(Cut(f, chain, end), w, r, h, mid) == ScanAlone(OnlyReports(f), chain, r, h, end)
  {
    assert AgreesAt(items, w, chain, h) && HonestAt(chain, h);
    assert HonestAt(w, h) && CountAt(w, r.item, h) == CountAt(chain, r.item, h);
    AloneStep(Cut(f, chain, end), w, r, h, mid);
    AloneStep(OnlyReports(f), chain, r, h, end);
  }

  // ----- One turn -----

  // A queued request, scanned in this turn or not.
  lemma QueuedCut(items: set<WatchItem>, f: Report -> nat, w: World, chain: World, s: seq<ScanRequest>, h: nat,
                  mid: nat, end: nat)
    requires HonestHeights(chain) && AgreesBelow(items, w, chain, mid) && mid <= end <= 0xFFFF_FFFF
    requires Watched(items, s)
    ensures Sum(Queued(Cut(f, chain, end), w, h, mid), s) == Sum(ToReport(f, chain, end), s)
  {
    forall r | r in s
      ensures Queued(Cut(f, chain, end), w, h, mid)(r) == ToReport(f, chain, end)(r)
    {
      ScanCut(items, f, w, chain, r, r.startHeight, mid, end);
    }
    SumCong(Queued(Cut(f, chain, end), w, h, mid), ToReport(f, chain, end), s);
  }

  lemma {:induction false} ArrivingCut(items: set<WatchItem>, f: Report -> nat, w: World, chain: World, h: nat,
                                       mid: nat, end: nat)
    requires HonestHeights(chain) && AgreesBelow(items, w, chain, mid) && mid <= end <= 0xFFFF_FFFF
    requires WatchedArrivals(items, w)
    ensures Arriving(Cut(f, chain, end), w, h, mid) == Sum(ToReport(f, chain, end), Arrived(w, h, mid))
    decreases mid - h
  {
    assert Watched(items, w.ArrivalsAt(h));
    QueuedCut(items, f, w, chain, w.ArrivalsAt(h), h, mid, end);
    if h < mid {
      ArrivingCut(items, f, w, chain, h + 1, mid, end);
      SumConcat(ToReport(f, chain, end), w.ArrivalsAt(h), Arrived(w, h + 1, mid));
    } else {
      assert w.ArrivalsAt(h) + [] == w.ArrivalsAt(h);
    }
  }

  // What a turn reports, leaves to report and drops unreported is what it found to report, at first or arriving.
  lemma TurnKeepsToReport(items: set<WatchItem>, f: Report -> nat, w: World, chain: World, q: seq<ScanRequest>,
                          end: nat)
    requires q != [] && Watched(items, q) && GoodTurn(items, chain, w, q, end)
    requires HonestHeights(chain) && end <= 0xFFFF_FFFF
    ensures var run, lo := Turn(w, q), q[0].startHeight;
            Sum(f, run.reports) + Sum(ToReport(f, chain, end), run.queue) + Sum(ToReport(f, chain, end), run.lost)
            == Sum(ToReport(f, chain, end), q) + Sum(ToReport(f, chain, end), ArrivedIn(w, lo, run.last))
  {
    var run, lo := Turn(w, q), q[0].startHeight;
    assert forall h: nat :: Watched(items, w.ArrivalsAt(h));
    RunIsSumOfScans(Cut(f, chain, end), w, q, [], lo);
    QueuedCut(items, f, w, chain, q, lo, run.last, end);
    ArrivingCut(items, f, w, chain, lo, run.last, end);
  }

  // ----- Many turns -----

  /** Conservation over any number of turns, successful or not, under every weight on reports: what was reported, what
      the queue is still to report up to a height, and what the dropped requests would have, is what a scan of the chain
      up to there reports for the requests of clients, each scanned once. */
  lemma {:induction false} TurnsKeepToReport(items: set<WatchItem>, f: Report -> nat, chain: World, q: seq<ScanRequest>,
                                             events: seq<ManagerEvent>, end: nat)
    requires GoodHistory(items, chain, q, events, end) && HonestHeights(chain) && end <= 0xFFFF_FFFF
    ensures Sum(f, ReportsAfter(q, events))
            + Sum(ToReport(f, chain, end), QueueAfter(q, events))
            + Sum(ToReport(f, chain, end), DroppedAfter(q, events))
         == Sum(ToReport(f, chain, end), ClientRequests(q, events))
  {
    if events != [] {
      var init, g := events[..|events| - 1], ToReport(f, chain, end);
      var before := QueueAfter(q, init);
      TurnsKeepToReport(items, f, chain, q, init, end);
      match events[|events| - 1]
      case Enqueued(req) =>
        SumSnoc(g, before, req);
        SumSnoc(g, ClientRequests(q, init), req);
      case Scanned(w) =>
        if before != [] {
          var run := Turn(w, before);
          QueueIsWatched(items, chain, q, init, end);
          TurnKeepsToReport(items, f, w, chain, before, end);
          SumConcat(f, ReportsAfter(q, init), run.reports);
          SumConcat(g, DroppedAfter(q, init), run.lost);
          SumConcat(g, ClientRequests(q, init), ArrivedIn(w, before[0].startHeight, run.last));
        }
    }
  }

  ghost predicate NaivelyReported(chain: World, s: seq<ScanRequest>, end: nat, k: ReportKey) {
    exists r :: r in s && NaiveReport(chain, r, r.startHeight, end, k)
  }

  lemma ToReportIsNaive(chain: World, s: seq<ScanRequest>, end: nat, k: ReportKey)
    requires HonestHeights(chain) && end <= 0xFFFF_FFFF
    ensures Sum(ToReport(KeyMeasure(k).ofReport, chain, end), s) > 0 <==> NaivelyReported(chain, s, end, k)
  {
    var g := ToReport(KeyMeasure(k).ofReport, chain, end);
    SumPositive(g, s);
    forall r
      ensures g(r) > 0 <==> NaiveReport(chain, r, r.startHeight, end, k)
    {
      AloneIsNaive(chain, r, r.startHeight, end, k);
      SameMeasure(KeyMeasure(k), chain, r, r.startHeight, end);
    }
  }

  // Only the weights matter, not how a measure is written.
  lemma {:induction false} SameMeasure(m: Measure, chain: World, r: ScanRequest, h: nat, end: nat)
    requires IgnoresLeft(m)
    ensures ScanAlone(m, chain, r, h, end) == ScanAlone(OnlyReports(m.ofReport), chain, r, h, end)
    decreases end - h
  {
    if h < end {
      SameMeasure(m, chain, r, h + 1, end);
      if VisibleBlock(chain, h).Some? {
        var c := Respawn(r, VisibleBlock(chain, h).value.height);
        if h + 1 <= c.startHeight < end {
          SameMeasure(m, chain, c, c.startHeight, end);
        }
      }
    }
  }

  /** Many turns as one naive scan: a key is reported in some turn, still to come from the queue, or owed to a request
      that a failed turn dropped, exactly when a naive scan of the chain reports it for a request of a client. */
  lemma TurnsReportNaiveScan(items: set<WatchItem>, chain: World, q: seq<ScanRequest>, events: seq<ManagerEvent>,
                             end: nat, k: ReportKey)
    requires GoodHistory(items, chain, q, events, end) && HonestHeights(chain) && end <= 0xFFFF_FFFF
    ensures (exists rep :: rep in ReportsAfter(q, events) && KeyOf(rep) == k)
            || NaivelyReported(chain, QueueAfter(q, events), end, k)
            || NaivelyReported(chain, DroppedAfter(q, events), end, k)
       <==> NaivelyReported(chain, ClientRequests(q, events), end, k)
  {
    var f := KeyMeasure(k).ofReport;
    TurnsKeepToReport(items, f, chain, q, events, end);
    SumPositive(f, ReportsAfter(q, events));
    assert forall rep :: f(rep) > 0 <==> KeyOf(rep) == k;
    ToReportIsNaive(chain, QueueAfter(q, events), end, k);
    ToReportIsNaive(chain, DroppedAfter(q, events), end, k);
    ToReportIsNaive(chain, ClientRequests(q, events), end, k);
  }

  // ----- Being caught up -----

  // No request of the queue has a match left below end.
  ghost predicate CaughtUp(chain: World, s: seq<ScanRequest>, end: nat) {
    forall r :: r in s ==> NoneCounted(chain, r.item, r.startHeight, end)
  }

  lemma CaughtUpReportsNothing(chain: World, s: seq<ScanRequest>, end: nat, k: ReportKey)
    requires CaughtUp(chain, s, end)
    ensures !NaivelyReported(chain, s, end, k)
  {
    forall r | r in s
      ensures !NaiveReport(chain, r, r.startHeight, end, k)
    {
      forall h: nat | r.startHeight <= h < end
        ensures !NaiveReportAt(chain, r, r.startHeight, end, k, h)
      {
        assert CountAt(chain, r.item, h) == 0;
        MatchesAtIff(chain, r.item, h);
        if NaiveReportAt(chain, r, r.startHeight, end, k, h) {
          NaiveReportMatches(chain, r, r.startHeight, end, k, h);
        }
      }
    }
  }

  // No turn has failed.
  ghost predicate AllSucceeded(q: seq<ScanRequest>, events: seq<ManagerEvent>) {
    if events == [] then true else
      var init := events[..|events| - 1];
      var before := QueueAfter(q, init);
      AllSucceeded(q, init) && match events[|events| - 1]
                               case Enqueued(_) => true
                               case Scanned(w) => before != [] ==> Turn(w, before).ok
  }

  lemma {:induction false} SuccessDropsNothing(q: seq<ScanRequest>, events: seq<ManagerEvent>)
    requires AllSucceeded(q, events)
    ensures DroppedAfter(q, events) == []
  {
    if events != [] {
      var init := events[..|events| - 1];
      var before := QueueAfter(q, init);
      SuccessDropsNothing(q, init);
      match events[|events| - 1]
      case Enqueued(_) =>
      case Scanned(w) =>
        if before != [] {
          RunKeepsLedger(_ => 0, w, before, [], before[0].startHeight);
        }
    }
  }

  /** Once the queue is caught up and no turn has failed, what all turns reported is exactly the naive scan. */
  lemma CaughtUpTurnsAreNaive(items: set<WatchItem>, chain: World, q: seq<ScanRequest>, events: seq<ManagerEvent>,
                              end: nat, k: ReportKey)
    requires GoodHistory(items, chain, q, events, end) && HonestHeights(chain) && end <= 0xFFFF_FFFF
    requires AllSucceeded(q, events) && CaughtUp(chain, QueueAfter(q, events), end)
    ensures (exists rep :: rep in ReportsAfter(q, events) && KeyOf(rep) == k)
            <==> NaivelyReported(chain, ClientRequests(q, events), end, k)
  {
    TurnsReportNaiveScan(items, chain, q, events, end, k);
    CaughtUpReportsNothing(chain, QueueAfter(q, events), end, k);
    SuccessDropsNothing(q, events);
  }

  // All requests of s start at h or later.
  ghost predicate Ahead(s: seq<ScanRequest>, h: nat) {
    forall r :: r in s ==> r.startHeight >= h
  }

  // Requests that arrive while a run is at a height start there or later.
  ghost predicate ArrivalsAhead(w: World) {
    forall h: nat :: Ahead(w.ArrivalsAt(h), h)
  }

  ghost predicate ClearBehind(w: World, s: seq<ScanRequest>, h: nat) {
    forall r :: r in s ==> NothingBehind(w, r, h)
  }

  // Each request starts at the end or later, or has nothing behind it.
  ghost predicate Settled(w: World, s: seq<ScanRequest>, end: nat) {
    forall r :: r in s ==> r.startHeight >= end || NothingBehind(w, r, end)
  }

  ghost predicate HonestBelow(w: World, end: nat) {
    forall h: nat :: h < end ==> HonestAt(w, h)
  }

  /** When does a turn catch up with its tip: when no request of the queue starts below its head, and none arrives
      behind the run. */
  lemma {:induction false} RunCatchesUp(w: World, q: seq<ScanRequest>, batch: seq<ScanRequest>, h: nat)
    requires Run(w, q, batch, h).ok && HonestBelow(w, Run(w, q, batch, h).last) && h <= 0xFFFF_FFFF
    requires AllSound(w, q) && AllSound(w, batch) && ArrivalsSound(w)
    requires Ahead(q, h) && ArrivalsAhead(w) && ClearBehind(w, batch, h)
    ensures Settled(w, Run(w, q, batch, h).queue, Run(w, q, batch, h).last)
    decreases 0xFFFF_FFFF - h
  {
    var q1 := q + w.ArrivalsAt(h);
    assert Ahead(w.ArrivalsAt(h), h);
    AheadTogether(q, w.ArrivalsAt(h), h);
    if RunGoesOn(w, q, batch, h) {
      var taken := Select(q1, h);
      var step := ScanHeight(w, batch + taken, h);
      var q2 := Rest(q1, h) + Respawns(step.reports);
      RunUnfolds(w, q, batch, h);
      StepKeepsSound(w, q, batch, h);
      StepLeavesNothingBehind(w, batch, taken, h);
      assert ClearBehind(w, step.remain, h + 1);
      LastIsBounded(w, q2, step.remain, h + 1);
      assert HonestAt(w, h);
      StepStaysAhead(w, q1, batch + taken, h);
      RunCatchesUp(w, q2, step.remain, h + 1);
    } else {
      SettledTogether(w, q1, batch, h);
      assert Run(w, q, batch, h).queue == q1 + batch;
    }
  }

  lemma SettledTogether(w: World, q: seq<ScanRequest>, batch: seq<ScanRequest>, h: nat)
    requires Ahead(q, h) && ClearBehind(w, batch, h)
    ensures Settled(w, q + batch, h)
  {}

  lemma AheadTogether(a: seq<ScanRequest>, b: seq<ScanRequest>, h: nat)
    requires Ahead(a, h) && Ahead(b, h)
    ensures Ahead(a + b, h)
  {}

  lemma StepStaysAhead(w: World, q1: seq<ScanRequest>, batch: seq<ScanRequest>, h: nat)
    requires HonestAt(w, h) && Ahead(q1, h) && h < 0xFFFF_FFFF
    requires ScanHeight(w, batch, h).Extracted?
    ensures Ahead(Rest(q1, h) + Respawns(ScanHeight(w, batch, h).reports), h + 1)
  {
    var reports, hash := ScanHeight(w, batch, h).reports, w.HashAt(h).value;
    SelectRestMembers(q1, h);
    if reports != [] {
      BlockReportsMembers(batch, hash, w.BlockOf(hash).block);
    }
    RespawnsAreAhead(reports, h);
  }

  lemma RespawnsAreAhead(reports: seq<Report>, h: nat)
    requires h < 0xFFFF_FFFF && forall rep :: rep in reports ==> rep.blockHeight == h
    ensures Ahead(Respawns(reports), h + 1)
  {
    RespawnsMembers(reports);
  }

  /** Such a turn leaves the queue caught up, on the chain, with the tip it read last. */
  lemma TurnCatchesUp(items: set<WatchItem>, chain: World, w: World, q: seq<ScanRequest>, end: nat)
    requires q != [] && Watched(items, q) && GoodTurn(items, chain, w, q, end)
    requires HonestHeights(chain) && Turn(w, q).ok && Ahead(q, q[0].startHeight) && ArrivalsAhead(w)
    ensures CaughtUp(chain, Turn(w, q).queue, Turn(w, q).last)
  {
    var run := Turn(w, q);
    assert forall h: nat :: Watched(items, w.ArrivalsAt(h));
    forall h: nat | h < run.last
      ensures HonestAt(w, h)
    {
      assert AgreesAt(items, w, chain, h) && HonestAt(chain, h);
    }
    RunCatchesUp(w, q, [], q[0].startHeight);
    RunKeepsWatched(items, w, q, [], q[0].startHeight);
    forall r | r in run.queue
      ensures NoneCounted(chain, r.item, r.startHeight, run.last)
    {
      forall g: nat | r.startHeight <= g < run.last
        ensures CountAt(chain, r.item, g) == 0
      {
        assert AgreesAt(items, w, chain, g) && NoMatchAt(w, r.item, g);
        MatchesAtIff(w, r.item, g);
      }
    }
  }

  /** So if no turn fails and the last of many turns is such a turn, all of them together have reported exactly what a
      naive scan of the chain up to the last tip reports. */
  lemma TurnsReportUpToLastTip(items: set<WatchItem>, chain: World, q: seq<ScanRequest>, events: seq<ManagerEvent>,
                               w: World, k: ReportKey)
    requires QueueAfter(q, events) != [] && HonestHeights(chain)
    requires var before := QueueAfter(q, events);
             && GoodHistory(items, chain, q, events + [Scanned(w)], Turn(w, before).last)
             && AllSucceeded(q, events + [Scanned(w)])
             && Ahead(before, before[0].startHeight) && ArrivalsAhead(w)
    ensures (exists rep :: rep in ReportsAfter(q, events + [Scanned(w)]) && KeyOf(rep) == k)
       <==> NaivelyReported(chain, ClientRequests(q, events + [Scanned(w)]), Turn(w, QueueAfter(q, events)).last, k)
  {
    var before, all := QueueAfter(q, events), events + [Scanned(w)];
    var end := Turn(w, before).last;
    assert all[..|all| - 1] == events;
    LastIsBounded(w, before, [], before[0].startHeight);
    QueueIsWatched(items, chain, q, events, end);
    TurnCatchesUp(items, chain, w, before, end);
    CaughtUpTurnsAreNaive(items, chain, q, all, end, k);
  }

  // Histories of this kind exist: here a turn over the one-block chain in which an item matches twice.
  lemma OneBlockHistory(r: ScanRequest)
    requires r.isPersistent && r.startHeight == 0
    ensures var tx := MatchingTx(r.item);
            var w := OneBlockWorld([tx, tx], {r.item.Bytes()});
            && HonestHeights(w) && GoodHistory({r.item}, w, [r], [Scanned(w)], 1)
            && Ahead([r], 0) && ArrivalsAhead(w) && QueueAfter([r], [Scanned(w)]) == [Respawn(r, 0), Respawn(r, 0)]
  {
    var txs := [MatchingTx(r.item), MatchingTx(r.item)];
    var w := OneBlockWorld(txs, {r.item.Bytes()});
    TwoMatchesLeaveTwoCopies(r);
    forall h: nat
      ensures HonestAt(w, h) && SoundAt(w, r.item, h)
    {
      OnlyOneBlock(txs, {r.item.Bytes()}, h);
    }
    assert [Scanned(w)][..0] == [];
    assert QueueAfter([r], []) == [r] && GoodHistory({r.item}, w, [r], [], 1);
    assert GoodTurn({r.item}, w, w, [r], 1);
  }
}
