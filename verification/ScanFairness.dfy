/** The requests manager over many turns: how long a queued request waits for a batch, and what blocks it. */
module ScanFairness {
  import opened Basics
  import opened ScanTypes
  import opened ScanSpec
  import opened ScanTheory

  // Requests of s that a run dequeuing the heights [lo, hi) leaves where they are, in order.
  function Keep(s: seq<ScanRequest>, lo: nat, hi: nat): seq<ScanRequest> {
    if s == [] then [] else
      var last := s[|s| - 1];
      Keep(s[..|s| - 1], lo, hi) + if lo <= last.startHeight < hi then [] else [last]
  }

  lemma {:induction false} KeepConcat(a: seq<ScanRequest>, b: seq<ScanRequest>, lo: nat, hi: nat)
    ensures Keep(a + b, lo, hi) == Keep(a, lo, hi) + Keep(b, lo, hi)
    decreases |b|
  {
    if b == [] {
      assert a + b == a;
    } else {
      assert (a + b)[..|a + b| - 1] == a + b[..|b| - 1];
      KeepConcat(a, b[..|b| - 1], lo, hi);
    }
  }

  lemma {:induction false} KeepNothingDequeued(s: seq<ScanRequest>, h: nat)
    ensures Keep(s, h, h) == s
  {
    if s != [] {
      KeepNothingDequeued(s[..|s| - 1], h);
    }
  }

  // Dequeuing height lo first and [lo + 1, hi) later is dequeuing [lo, hi).
  lemma {:induction false} KeepAfterRest(s: seq<ScanRequest>, lo: nat, hi: nat)
    requires lo < hi
    ensures Keep(Rest(s, lo), lo + 1, hi) == Keep(s, lo, hi)
  {
    if s != [] {
      var init, last := s[..|s| - 1], s[|s| - 1];
      KeepAfterRest(init, lo, hi);
      if last.startHeight != lo {
        KeepConcat(Rest(init, lo), [last], lo + 1, hi);
        assert [last][..0] == [];
      } else {
        assert Rest(init, lo) + [] == Rest(init, lo);
      }
    }
  }

  lemma {:induction false} RestConcat(a: seq<ScanRequest>, b: seq<ScanRequest>, h: nat)
    ensures Rest(a + b, h) == Rest(a, h) + Rest(b, h)
    decreases |b|
  {
    if b == [] {
      assert a + b == a;
    } else {
      assert (a + b)[..|a + b| - 1] == a + b[..|b| - 1];
      RestConcat(a, b[..|b| - 1], h);
    }
  }

  /** Whether it succeeds or fails, a run keeps the order of the requests it does not dequeue: they stay in
      front of everything that arrives, respawns or is put back. */
  lemma {:induction false} RunKeepsOrder(w: World, q: seq<ScanRequest>, batch: seq<ScanRequest>, h: nat)
    ensures var run := Run(w, q, batch, h);
            h <= run.next && Keep(q, h, run.next) <= run.queue
    decreases 0xFFFF_FFFF - h
  {
    if RunGoesOn(w, q, batch, h) {
      RunUnfolds(w, q, batch, h);
      var q1 := q + w.ArrivalsAt(h);
      var step := ScanHeight(w, batch + Select(q1, h), h);
      var rest := Run(w, Rest(q1, h) + Respawns(step.reports), step.remain, h + 1);
      RunKeepsOrder(w, Rest(q1, h) + Respawns(step.reports), step.remain, h + 1);
      KeepAcrossStep(q, w.ArrivalsAt(h), Respawns(step.reports), h, rest.next);
    } else {
      OrderAtEnd(w, q, batch, h);
    }
  }

  // What is kept of the old queue leads what is kept after dequeuing h and respawning.
  lemma KeepAcrossStep(q: seq<ScanRequest>, arrivals: seq<ScanRequest>, respawns: seq<ScanRequest>, h: nat, next: nat)
    requires h < next
    ensures Keep(q, h, next) <= Keep(Rest(q + arrivals, h) + respawns, h + 1, next)
  {
    RestConcat(q, arrivals, h);
    KeepConcat(Rest(q + arrivals, h), respawns, h + 1, next);
    KeepConcat(Rest(q, h), Rest(arrivals, h), h + 1, next);
    KeepAfterRest(q, h, next);
  }

  // Where a run ends, and with which queue.
  lemma RunEnds(w: World, q: seq<ScanRequest>, batch: seq<ScanRequest>, h: nat)
    requires !RunGoesOn(w, q, batch, h)
    ensures var run, q1 := Run(w, q, batch, h), q + w.ArrivalsAt(h);
            || (run.next == h && (run.queue == q1 || run.queue == q1 + batch))
            || (run.next == h + 1 && run.queue == Rest(q1, h))
  {}

  lemma OrderAtEnd(w: World, q: seq<ScanRequest>, batch: seq<ScanRequest>, h: nat)
    requires !RunGoesOn(w, q, batch, h)
    ensures var run := Run(w, q, batch, h);
            h <= run.next && Keep(q, h, run.next) <= run.queue
  {
    var next, queue := Run(w, q, batch, h).next, Run(w, q, batch, h).queue;
    RunEnds(w, q, batch, h);
    if next == h {
      KeepNothingDequeued(q, h);
      assert q <= queue;
    } else {
      RestConcat(q, w.ArrivalsAt(h), h);
      KeepAfterRest(q, h, h + 1);
      KeepNothingDequeued(Rest(q, h), h + 1);
      assert Keep(q, h, h + 1) == Rest(q, h);
      assert Rest(q, h) <= queue;
    }
  }

  // Every queued request starting at a height that the run dequeues enters its batch.
  lemma {:induction false} DequeuedAreTaken(w: World, q: seq<ScanRequest>, batch: seq<ScanRequest>, h: nat,
                                            r: ScanRequest)
    requires r in q && h <= r.startHeight < Run(w, q, batch, h).next
    ensures r in Run(w, q, batch, h).taken
    decreases 0xFFFF_FFFF - h
  {
    var q1 := q + w.ArrivalsAt(h);
    assert r in q1;
    if RunGoesOn(w, q, batch, h) {
      var step := ScanHeight(w, batch + Select(q1, h), h);
      RunUnfolds(w, q, batch, h);
      if r.startHeight == h {
        SelectRestMembers(q1, h);
      } else {
        assert r in Rest(q1, h) by { SelectRestMembers(q1, h); }
        DequeuedAreTaken(w, Rest(q1, h) + Respawns(step.reports), step.remain, h + 1, r);
      }
    } else {
      SelectRestMembers(q1, h);
    }
  }

  function Turn(w: World, q: seq<ScanRequest>): RunResult
    requires q != []
  {
    Run(w, q, [], q[0].startHeight)
  }

  // The tip read at the start of a turn headed by r reaches r's start height.
  predicate TipReaches(w: World, r: ScanRequest) {
    w.TipAt(r.startHeight).Some? && w.TipAt(r.startHeight).value >= r.startHeight
  }

  // The request at index i of the queue enters a batch in one of the given turns. Between two turns it is
  // followed to its new index.
  ghost predicate EntersBatch(q: seq<ScanRequest>, i: nat, turns: seq<World>)
    decreases |turns|
  {
    && i < |q| && turns != []
    && var run := Turn(turns[0], q);
       var lo := q[0].startHeight;
       || (lo <= q[i].startHeight < run.next && q[i] in run.taken)
       || EntersBatch(run.queue, |Keep(q[..i], lo, run.next)|, turns[1..])
  }

  lemma KeepSplit(a: seq<ScanRequest>, x: ScanRequest, b: seq<ScanRequest>, lo: nat, hi: nat)
    requires !(lo <= x.startHeight < hi)
    ensures Keep(a + [x] + b, lo, hi) == Keep(a, lo, hi) + [x] + Keep(b, lo, hi)
  {
    KeepConcat(a + [x], b, lo, hi);
    assert (a + [x])[..|a|] == a;
  }

  // Losing its head makes a queue shorter.
  lemma {:induction false} KeepLosesHead(s: seq<ScanRequest>, lo: nat, hi: nat)
    requires s != [] && lo <= s[0].startHeight < hi
    ensures |Keep(s, lo, hi)| < |s|
  {
    if |s| > 1 {
      KeepLosesHead(s[..|s| - 1], lo, hi);
    } else {
      assert s[..0] == [];
    }
  }

  lemma {:induction false} KeepMembers(s: seq<ScanRequest>, lo: nat, hi: nat)
    ensures |Keep(s, lo, hi)| <= |s|
    ensures forall r :: r in Keep(s, lo, hi) <==> r in s && !(lo <= r.startHeight < hi)
  {
    if s != [] {
      KeepMembers(s[..|s| - 1], lo, hi);
      assert s == s[..|s| - 1] + [s[|s| - 1]];
    }
  }

  // The tip read by a turn reaches each request of a queue up to index i.
  predicate FrontReached(w: World, q: seq<ScanRequest>, i: nat) {
    forall j :: 0 <= j <= i && j < |q| ==> TipReaches(w, q[j])
  }

  // A kept request whose queue loses its head moves up, among requests that were before it.
  lemma KeptMovesUp(q: seq<ScanRequest>, i: nat, lo: nat, hi: nat)
    requires i < |q| && lo <= q[0].startHeight < hi && !(lo <= q[i].startHeight < hi)
    ensures var k, kept := |Keep(q[..i], lo, hi)|, Keep(q, lo, hi);
            k < i && k < |kept| && kept[k] == q[i] && forall w :: FrontReached(w, q, i) ==> FrontReached(w, kept, k)
  {
    var a, b := q[..i], q[i + 1..];
    assert q == a + [q[i]] + b;
    KeepSplit(a, q[i], b, lo, hi);
    KeepLosesHead(a, lo, hi);
    KeepMembers(a, lo, hi);
    var ka, kept := Keep(a, lo, hi), Keep(q, lo, hi);
    forall w | FrontReached(w, q, i)
      ensures FrontReached(w, kept, |ka|)
    {
      forall j | 0 <= j <= |ka| && j < |kept|
        ensures TipReaches(w, kept[j])
      {
        if j < |ka| {
          assert kept[j] == ka[j] && ka[j] in a;
          var x :| 0 <= x < |a| && a[x] == ka[j];
          assert TipReaches(w, q[x]);
        }
      }
    }
  }

  // A turn whose head is at or below the tip moves every later request up, or takes it.
  lemma TurnMovesUp(w: World, q: seq<ScanRequest>, i: nat)
    requires i < |q| && TipReaches(w, q[0])
    ensures var run, lo := Turn(w, q), q[0].startHeight;
            var k := |Keep(q[..i], lo, run.next)|;
            if lo <= q[i].startHeight < run.next then q[i] in run.taken
            else k < i && k < |run.queue| && run.queue[k] == q[i]
                 && forall v :: FrontReached(v, q, i) ==> FrontReached(v, run.queue, k)
  {
    var run, lo := Turn(w, q), q[0].startHeight;
    RunKeepsOrder(w, q, [], lo);
    NextAfterStart(w, q, [], lo);
    if lo <= q[i].startHeight < run.next {
      DequeuedAreTaken(w, q, [], lo, q[i]);
    } else {
      KeptMovesUp(q, i, lo, run.next);
      FrontOfPrefix(Keep(q, lo, run.next), run.queue, |Keep(q[..i], lo, run.next)|);
    }
  }

  lemma FrontOfPrefix(kept: seq<ScanRequest>, queue: seq<ScanRequest>, k: nat)
    requires kept <= queue && k < |kept|
    ensures queue[k] == kept[k]
    ensures forall w :: FrontReached(w, kept, k) ==> FrontReached(w, queue, k)
  {
    forall w | FrontReached(w, kept, k)
      ensures FrontReached(w, queue, k)
    {
      assert forall j :: 0 <= j <= k ==> queue[j] == kept[j];
    }
  }

  lemma {:induction false} NextAfterStart(w: World, q: seq<ScanRequest>, batch: seq<ScanRequest>, h: nat)
    ensures Run(w, q, batch, h).next > h <==> w.TipAt(h).Some? && h <= w.TipAt(h).value
    decreases 0xFFFF_FFFF - h
  {
    if RunGoesOn(w, q, batch, h) {
      RunUnfolds(w, q, batch, h);
      var q1 := q + w.ArrivalsAt(h);
      var step := ScanHeight(w, batch + Select(q1, h), h);
      RunKeepsOrder(w, Rest(q1, h) + Respawns(step.reports), step.remain, h + 1);
    }
  }

  /** Bounded waiting: when the request at index i and those before it start at or below the tip of each turn,
      it enters a batch within i + 1 turns, whatever is enqueued meanwhile and whether or not turns fail. */
  lemma {:induction false} EntersBatchInTime(q: seq<ScanRequest>, i: nat, turns: seq<World>)
    requires i < |q| && |turns| == i + 1
    requires forall w :: w in turns ==> FrontReached(w, q, i)
    ensures EntersBatch(q, i, turns)
    decreases i
  {
    var w := turns[0];
    assert FrontReached(w, q, i);
    TurnMovesUp(w, q, i);
    var run, lo := Turn(w, q), q[0].startHeight;
    if !(lo <= q[i].startHeight < run.next) {
      var k := |Keep(q[..i], lo, run.next)|;
      var later := turns[1..k + 2];
      assert forall x :: x in later ==> x in turns;
      EntersBatchInTime(run.queue, k, later);
      MoreTurns(run.queue, k, later, turns[1..]);
    }
  }

  // Further turns do not undo it.
  lemma {:induction false} MoreTurns(q: seq<ScanRequest>, i: nat, turns: seq<World>, more: seq<World>)
    requires turns <= more && EntersBatch(q, i, turns)
    ensures EntersBatch(q, i, more)
    decreases |turns|
  {
    var run, lo := Turn(turns[0], q), q[0].startHeight;
    if !(lo <= q[i].startHeight < run.next && q[i] in run.taken) {
      MoreTurns(run.queue, |Keep(q[..i], lo, run.next)|, turns[1..], more[1..]);
    }
  }

  /** The head blocks the line. A turn takes something exactly when the tip it reads reaches the head's start
      height; otherwise the queue keeps every request in place, however low the others start. */
  lemma TurnTakesIffHeadReached(w: World, q: seq<ScanRequest>)
    requires q != []
    ensures Turn(w, q).taken != [] <==> TipReaches(w, q[0])
    ensures !TipReaches(w, q[0]) ==>
              Turn(w, q).queue == q + w.ArrivalsAt(q[0].startHeight) && Turn(w, q).reports == []
  {
    var lo := q[0].startHeight;
    NextAfterStart(w, q, [], lo);
    if TipReaches(w, q[0]) {
      DequeuedAreTaken(w, q, [], lo, q[0]);
    } else {
      assert q + w.ArrivalsAt(lo) + [] == q + w.ArrivalsAt(lo);
    }
  }

  // So a head above every tip starves the rest for as long as that lasts.
  lemma {:induction false} UnreachedHeadStarvesAll(q: seq<ScanRequest>, i: nat, turns: seq<World>)
    requires i < |q|
    requires forall w :: w in turns ==> !TipReaches(w, q[0])
    ensures !EntersBatch(q, i, turns)
    decreases |turns|
  {
    if turns != [] {
      var w, lo := turns[0], q[0].startHeight;
      TurnTakesIffHeadReached(w, q);
      var run := Turn(w, q);
      NextAfterStart(w, q, [], lo);
      RunKeepsOrder(w, q, [], lo);
      KeepNothingDequeued(q[..i], lo);
      UnreachedHeadStarvesAll(run.queue, i, turns[1..]);
    }
  }
}
