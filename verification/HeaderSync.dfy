/** Header synchronisation: any number of peer handlers feeding one writer through an unbuffered channel. */
module HeaderSync {
  import opened Basics
  import opened Headers
  import opened HeaderStores
  import opened HandleHeaders

  type PeerId = string

  /** - store: the header repository
      - slot: the header the writer has received and not yet written
      - pending: per peer handler, the headers it has still to send; an absent or empty entry is an idle handler
      - peersTip: per peer, the height it is known to have */
  datatype State = State(
    store: Store, slot: Option<Header>, pending: map<PeerId, seq<Header>>, peersTip: map<PeerId, uint32>)

  function Pending(s: State, p: PeerId): seq<Header> {
    if p in s.pending then s.pending[p] else []
  }

  function PeersTip(s: State, p: PeerId): uint32 {
    if p in s.peersTip then s.peersTip[p] else 0
  }

  /** One atomic step.
      - ReceiveHeaders, ReceiveBlock: an idle handler reads the tip and decides what to send
      - ReceiveVersion: a version message, first or repeated, sets what the peer is known to have
      - Send: a handler hands one header to the writer, which must be waiting
      - WriteInMemory, WriteTable: the writer stores the header it holds, in either repository
      - WriteFails: the store refuses the header; the writer only logs that */
  datatype Event =
    | ReceiveHeaders(peer: PeerId, batch: seq<Header>, tip: uint32)
    | ReceiveBlock(peer: PeerId, header: Header, tip: uint32)
    | ReceiveVersion(peer: PeerId, startHeight: uint32)
    | Send(peer: PeerId)
    | WriteInMemory
    | WriteTable
    | WriteFails

  ghost predicate ReadsTip(store: Store, tip: uint32) {
    if store == map[] then tip == 0 else exists h :: IsTip(store, h) && h.height == tip
  }

  ghost predicate Enabled(s: State, e: Event) {
    match e
    case ReceiveHeaders(p, batch, tip) => Pending(s, p) == [] && ReadsTip(s.store, tip) && |batch| <= TWO_TO_THE_32
    case ReceiveBlock(p, header, tip) => Pending(s, p) == [] && ReadsTip(s.store, tip)
    case ReceiveVersion(p, _) => Pending(s, p) == []
    case Send(p) => Pending(s, p) != [] && s.slot.None?
    case WriteInMemory => s.slot.Some?
    case WriteTable => s.slot.Some? && s.slot.value.height <= MAX_INT32
    case WriteFails => s.slot.Some?
  }

  // A header the table refuses for its hash or height is dropped without an error.
  function TableWrite(store: Store, x: Header): Store {
    if x.hash in store || exists k: Hash :: k in store && store[k].height == x.height then store else store[x.hash := x]
  }

  /** That is what the table does: inserting a row that fits the column changes the stored headers just so. */
  lemma TableWriteIsInsert(rows: seq<Header>, x: Header)
    requires ValidRows(rows) && x.height <= MAX_INT32
    ensures var one := InsertOne(rows, x);
            AsStore(if one.Inserted? then one.rows else rows) == TableWrite(AsStore(rows), x)
  {
    if InsertOne(rows, x).Inserted? {
      assert (rows + [x])[..|rows|] == rows;
      AcceptedIsNew(rows, x);
    } else {
      RefusedIsKnown(rows, x);
    }
  }

  ghost function Step(s: State, e: Event): State
    requires Enabled(s, e)
  {
    match e
    case ReceiveHeaders(p, batch, tip) => s.(pending := s.pending[p := Forwarded(batch, tip)])
    case ReceiveBlock(p, header, tip) =>
      (match ReactToBlock(header.height, tip, PeersTip(s, p))
       case Forward => s.(pending := s.pending[p := [header]])
       case RaisePeersTip => s.(peersTip := s.peersTip[p := header.height])
       case Known => s)
    case ReceiveVersion(p, startHeight) => s.(peersTip := s.peersTip[p := startHeight])
    case Send(p) => s.(slot := Some(Pending(s, p)[0]), pending := s.pending[p := Pending(s, p)[1..]])
    case WriteInMemory => s.(store := s.store[s.slot.value.hash := s.slot.value], slot := None)
    case WriteTable => s.(store := TableWrite(s.store, s.slot.value), slot := None)
    case WriteFails => s.(slot := None)
  }

  // Height g follows 0, a stored height, or the header the writer holds.
  ghost predicate Supported(store: Store, slot: Option<Header>, g: int) {
    g <= 1 || HeightStored(store, g - 1) || (slot.Some? && slot.value.height == g - 1)
  }

  // The headers in play; no two of them share a hash.
  type Universe = Header -> bool

  ghost predicate CollisionFree(u: Universe) {
    forall x, y :: NoCollision(u, x, y)
  }

  ghost predicate NoCollision(u: Universe, x: Header, y: Header) {
    u(x) && u(y) && x.hash == y.hash ==> x == y
  }

  predicate Genuine(u: Universe, x: Header) { u(x) }

  ghost predicate AllGenuine(u: Universe, xs: seq<Header>) {
    forall x :: x in xs ==> Genuine(u, x)
  }

  ghost predicate Incoming(u: Universe, e: Event) {
    match e
    case ReceiveHeaders(_, batch, _) => AllGenuine(u, batch)
    case ReceiveBlock(_, header, _) => Genuine(u, header)
    case _ => true
  }

  ghost predicate GenuineState(u: Universe, s: State) {
    && (forall k: Hash :: k in s.store ==> Genuine(u, s.store[k]) && s.store[k].hash == k)
    && (s.slot.Some? ==> Genuine(u, s.slot.value))
    && (forall p :: p in s.pending ==> AllGenuine(u, s.pending[p]))
  }

  // A handler's remaining run is consecutive and its next header supported.
  ghost predicate RunSupported(store: Store, slot: Option<Header>, run: seq<Header>) {
    run != [] ==> Consecutive(run) && Supported(store, slot, run[0].height)
  }

  ghost predicate Safe(s: State) {
    && Contiguous(s.store)
    && (s.slot.Some? ==> Supported(s.store, None, s.slot.value.height))
    && (forall p :: p in s.pending ==> RunSupported(s.store, s.slot, s.pending[p]))
  }

  // A start: nothing in flight, and the store as an earlier run left it.
  ghost predicate Init(s: State) {
    Contiguous(s.store) && KeyedByHash(s.store) && s.slot.None? && s.pending == map[]
  }

  lemma StoredStaysStored(store: Store, u: Universe, x: Header, g: int)
    requires forall k: Hash :: k in store ==> Genuine(u, store[k]) && store[k].hash == k
    requires CollisionFree(u) && Genuine(u, x)
    ensures HeightStored(store[x.hash := x], g) <==> HeightStored(store, g) || g == x.height
  {
    var after := store[x.hash := x];
    if x.hash in store {
      assert NoCollision(u, store[x.hash], x);
    }
    if HeightStored(store, g) {
      var k: Hash :| k in store && store[k].height == g;
      assert k in after && after[k].height == g;
    }
    if g == x.height {
      assert after[x.hash].height == g;
    }
    if HeightStored(after, g) && g != x.height {
      var k: Hash :| k in after && after[k].height == g;
      assert k in store && store[k].height == g;
    }
  }

  // The heights stored after a write, in either repository.
  lemma WriteAddsHeight(store: Store, u: Universe, x: Header, g: int)
    requires forall k: Hash :: k in store ==> Genuine(u, store[k]) && store[k].hash == k
    requires CollisionFree(u) && Genuine(u, x)
    ensures HeightStored(TableWrite(store, x), g) <==> HeightStored(store, g) || g == x.height
  {
    StoredStaysStored(store, u, x, g);
    if x.hash in store {
      assert NoCollision(u, store[x.hash], x);
      assert HeightStored(store, x.height);
    } else if exists k: Hash :: k in store && store[k].height == x.height {
      assert HeightStored(store, x.height);
    }
  }

  // A supported header fills the next height: the store stays contiguous.
  lemma WriteKeepsContiguous(before: Store, after: Store, x: Header)
    requires Contiguous(before) && Supported(before, None, x.height)
    requires forall g: int :: HeightStored(after, g) <==> HeightStored(before, g) || g == x.height
    ensures Contiguous(after)
  {
    forall k: Hash, g: int {:trigger k in after, HeightStored(after, g)} | k in after && 1 <= g <= after[k].height
      ensures HeightStored(after, g)
    {
      assert HeightStored(after, after[k].height);
      if HeightStored(before, after[k].height) {
        var j: Hash :| j in before && before[j].height == after[k].height;
        assert HeightStored(before, g);
      } else if g < x.height {
        var j: Hash :| j in before && before[j].height == x.height - 1;
        assert HeightStored(before, g);
      }
    }
  }

  lemma WriteKeepsSafe(s: State, after: Store)
    requires Safe(s) && s.slot.Some?
    requires forall g: int :: HeightStored(after, g) <==> HeightStored(s.store, g) || g == s.slot.value.height
    ensures Safe(s.(store := after, slot := None))
  {
    WriteKeepsContiguous(s.store, after, s.slot.value);
    forall p | p in s.pending
      ensures RunSupported(after, None, s.pending[p])
    {
      assert RunSupported(s.store, s.slot, s.pending[p]);
    }
  }

  // What a handler takes on starts right above a height the store has.
  lemma NewRunIsSupported(s: State, run: seq<Header>, tip: uint32)
    requires Contiguous(s.store) && ReadsTip(s.store, tip)
    requires run != [] ==> Consecutive(run) && run[0].height <= tip + 1
    ensures RunSupported(s.store, s.slot, run)
  {
    if run != [] && run[0].height > 1 {
      var h :| IsTip(s.store, h) && h.height == tip;
      var k: Hash :| k in s.store && s.store[k] == h;
      assert HeightStored(s.store, run[0].height - 1);
    }
  }

  lemma ReceiveKeepsSafe(s: State, p: PeerId, run: seq<Header>)
    requires Safe(s) && RunSupported(s.store, s.slot, run)
    ensures Safe(s.(pending := s.pending[p := run]))
  {
    var t := s.(pending := s.pending[p := run]);
    forall q | q in t.pending
      ensures RunSupported(t.store, t.slot, t.pending[q])
    {
      assert q != p ==> RunSupported(s.store, s.slot, s.pending[q]);
    }
  }

  lemma SendKeepsSafe(s: State, p: PeerId)
    requires Safe(s) && Enabled(s, Send(p))
    ensures Safe(Step(s, Send(p)))
  {
    var t, run := Step(s, Send(p)), s.pending[p];
    assert RunSupported(s.store, s.slot, run);
    forall q | q in t.pending
      ensures RunSupported(t.store, t.slot, t.pending[q])
    {
      if q == p {
        assert run[1..] != [] ==> run[1..][0].height == run[0].height + 1;
      } else {
        assert RunSupported(s.store, s.slot, s.pending[q]);
      }
    }
  }

  lemma HeadersKeepSafe(s: State, p: PeerId, batch: seq<Header>, tip: uint32)
    requires Safe(s) && ReadsTip(s.store, tip) && |batch| <= TWO_TO_THE_32
    ensures Safe(s.(pending := s.pending[p := Forwarded(batch, tip)]))
  {
    ForwardedContinuesTip(batch, tip);
    NewRunIsSupported(s, Forwarded(batch, tip), tip);
    ReceiveKeepsSafe(s, p, Forwarded(batch, tip));
  }

  /** Every step but a failing write keeps the store contiguous and every pending run supported. */
  lemma StepKeepsSafe(u: Universe, s: State, e: Event)
    requires CollisionFree(u) && Safe(s) && GenuineState(u, s) && Incoming(u, e) && Enabled(s, e) && !e.WriteFails?
    ensures Safe(Step(s, e))
  {
    match e
    case ReceiveHeaders(p, batch, tip) =>
      HeadersKeepSafe(s, p, batch, tip);
    case ReceiveBlock(p, header, tip) =>
      if header.height == Wrap32(tip + 1) {
        NewRunIsSupported(s, [header], tip);
        ReceiveKeepsSafe(s, p, [header]);
      }
    case ReceiveVersion(_, _) =>
    case Send(p) =>
      SendKeepsSafe(s, p);
    case WriteInMemory => InMemoryKeepsSafe(u, s);
    case WriteTable => TableKeepsSafe(u, s);
  }

  lemma InMemoryKeepsSafe(u: Universe, s: State)
    requires CollisionFree(u) && Safe(s) && GenuineState(u, s) && s.slot.Some?
    ensures Safe(s.(store := s.store[s.slot.value.hash := s.slot.value], slot := None))
  {
    var x := s.slot.value;
    forall g: int
      ensures HeightStored(s.store[x.hash := x], g) <==> HeightStored(s.store, g) || g == x.height
    {
      StoredStaysStored(s.store, u, x, g);
    }
    WriteKeepsSafe(s, s.store[x.hash := x]);
  }

  lemma TableKeepsSafe(u: Universe, s: State)
    requires CollisionFree(u) && Safe(s) && GenuineState(u, s) && s.slot.Some?
    ensures Safe(s.(store := TableWrite(s.store, s.slot.value), slot := None))
  {
    var x := s.slot.value;
    forall g: int
      ensures HeightStored(TableWrite(s.store, x), g) <==> HeightStored(s.store, g) || g == x.height
    {
      WriteAddsHeight(s.store, u, x, g);
    }
    WriteKeepsSafe(s, TableWrite(s.store, x));
  }

  lemma StepKeepsGenuine(u: Universe, s: State, e: Event)
    requires GenuineState(u, s) && Incoming(u, e) && Enabled(s, e)
    ensures GenuineState(u, Step(s, e))
  {
    var t := Step(s, e);
    match e
    case ReceiveHeaders(p, batch, tip) =>
      ForwardedContinuesTip(batch, tip);
      forall q | q in t.pending
        ensures AllGenuine(u, t.pending[q])
      {
        assert q != p ==> AllGenuine(u, s.pending[q]);
      }
    case ReceiveBlock(p, header, tip) =>
      forall q | q in t.pending
        ensures AllGenuine(u, t.pending[q])
      {
        assert q in s.pending ==> AllGenuine(u, s.pending[q]);
      }
    case Send(p) =>
      var run := s.pending[p];
      assert AllGenuine(u, run) && run[0] in run;
      forall q | q in t.pending
        ensures AllGenuine(u, t.pending[q])
      {
        assert AllGenuine(u, s.pending[q]);
      }
    case _ =>
  }

  // ----- Runs -----

  ghost predicate Runs(u: Universe, s: State, events: seq<Event>, t: State)
    decreases |events|
  {
    if events == [] then s == t
    else Enabled(s, events[0]) && Incoming(u, events[0]) && !events[0].WriteFails?
         && Runs(u, Step(s, events[0]), events[1..], t)
  }

  ghost predicate Start(u: Universe, s: State) {
    Init(s) && forall k: Hash :: k in s.store ==> Genuine(u, s.store[k])
  }

  lemma {:induction false} RunsKeepSafe(u: Universe, s: State, events: seq<Event>, t: State)
    requires CollisionFree(u) && Safe(s) && GenuineState(u, s) && Runs(u, s, events, t)
    ensures Safe(t) && GenuineState(u, t)
    decreases |events|
  {
    if events != [] {
      StepKeepsSafe(u, s, events[0]);
      StepKeepsGenuine(u, s, events[0]);
      RunsKeepSafe(u, Step(s, events[0]), events[1..], t);
    }
  }

  /** Safety of every run: whatever the number of peers and the interleaving of tip reads, sends and successful
      writes, each height from 1 to the tip is stored, and each handler's next header follows height 0, a stored
      height, or the header in flight. */
  lemma SyncIsSafe(u: Universe, s: State, events: seq<Event>, t: State)
    requires CollisionFree(u) && Start(u, s) && Runs(u, s, events, t)
    ensures Contiguous(t.store)
    ensures forall tip, g: int :: IsTip(t.store, tip) && 1 <= g <= tip.height ==> HeightStored(t.store, g)
    ensures forall p :: Pending(t, p) != [] ==> Supported(t.store, t.slot, Pending(t, p)[0].height)
  {
    RunsKeepSafe(u, s, events, t);
    forall p | Pending(t, p) != []
      ensures Supported(t.store, t.slot, Pending(t, p)[0].height)
    {
      assert RunSupported(t.store, t.slot, t.pending[p]);
    }
  }

  // ----- Failing writes -----

  // No handler's next header follows only the header in the writer's hands.
  ghost predicate NoneRelies(s: State)
    requires s.slot.Some?
  {
    forall p :: Pending(s, p) != [] && Pending(s, p)[0].height == s.slot.value.height + 1
      ==> Supported(s.store, None, Pending(s, p)[0].height)
  }

  lemma FailedWriteIsSafeIff(s: State)
    requires Safe(s) && s.slot.Some?
    ensures Safe(Step(s, WriteFails)) <==> NoneRelies(s)
  {
    var t := Step(s, WriteFails);
    if Safe(t) {
      forall p | Pending(s, p) != []
        ensures Supported(s.store, None, Pending(s, p)[0].height)
      {
        assert RunSupported(t.store, t.slot, t.pending[p]);
      }
    } else {
      assert !forall p :: p in t.pending ==> RunSupported(t.store, t.slot, t.pending[p]);
      var p :| p in t.pending && !RunSupported(t.store, t.slot, t.pending[p]);
      assert RunSupported(s.store, s.slot, s.pending[p]);
      assert Pending(s, p) == s.pending[p];
    }
  }

  ghost predicate ReachesGap(u: Universe, s: State) {
    exists events, t :: Runs(u, s, events, t) && !Contiguous(t.store)
  }

  // A header stored with nothing at the height below it is a gap.
  lemma StoredAboveGap(u: Universe, store: Store, x: Header)
    requires forall k: Hash :: k in store ==> Genuine(u, store[k]) && store[k].hash == k
    requires CollisionFree(u) && Genuine(u, x) && x.height > 1 && !HeightStored(store, x.height - 1)
    ensures !Contiguous(store[x.hash := x])
  {
    var after := store[x.hash := x];
    StoredStaysStored(store, u, x, x.height - 1);
    assert x.hash in after && after[x.hash].height == x.height && !HeightStored(after, x.height - 1);
  }

  /** What a lost write costs: even if all later writes succeed, the store can come to have a gap if and only if, when
      the write failed, some handler's next header relied on the lost one. */
  lemma FailedWriteReachesGapIff(u: Universe, s: State)
    requires CollisionFree(u) && Safe(s) && GenuineState(u, s) && s.slot.Some?
    ensures ReachesGap(u, Step(s, WriteFails)) <==> !NoneRelies(s)
  {
    var a := Step(s, WriteFails);
    if NoneRelies(s) {
      FailedWriteIsSafeIff(s);
      forall events, t | Runs(u, a, events, t)
        ensures Contiguous(t.store)
      {
        RunsKeepSafe(u, a, events, t);
      }
    } else {
      var p :| Pending(s, p) != [] && Pending(s, p)[0].height == s.slot.value.height + 1
               && !Supported(s.store, None, Pending(s, p)[0].height);
      var x := Pending(s, p)[0];
      assert AllGenuine(u, s.pending[p]) && x in s.pending[p];
      var b := Step(a, Send(p));
      var c := Step(b, WriteInMemory);
      StoredAboveGap(u, s.store, x);
      TwoSteps(u, a, Send(p), WriteInMemory);
      assert Runs(u, a, [Send(p), WriteInMemory], c) && !Contiguous(c.store);
    }
  }

  lemma TwoSteps(u: Universe, s: State, e: Event, f: Event)
    requires Enabled(s, e) && Incoming(u, e) && !e.WriteFails?
    requires Enabled(Step(s, e), f) && Incoming(u, f) && !f.WriteFails?
    ensures Runs(u, s, [e, f], Step(Step(s, e), f))
  {
    var t := Step(Step(s, e), f);
    assert [e, f][1..] == [f] && [f][1..] == [];
    assert Runs(u, Step(s, e), [f], t);
  }

  // A gap: the first of two headers is lost, the second is stored, and height 1 is missing below the tip.
  lemma FailedWriteLeavesGap(one: Header, two: Header)
    requires one.height == 1 && two.height == 2
    ensures var s := State(map[], None, map[], map[]);
            var batch := ReceiveHeaders("p", [one, two], 0);
            && Init(s) && Enabled(s, batch)
            && var a := Step(s, batch);
            && Enabled(a, Send("p"))
            && var b := Step(a, Send("p"));
            && Enabled(b, WriteFails)
            && var c := Step(b, WriteFails);
            && Enabled(c, Send("p"))
            && var d := Step(c, Send("p"));
            && Enabled(d, WriteInMemory)
            && !Contiguous(Step(d, WriteInMemory).store)
  {
    var batch := [one, two];
    assert InSequence(batch);
    assert Forwarded(batch, 0) == batch;
    var store: Store := map[two.hash := two];
    assert batch[1..] == [two];
    assert two.hash in store && store[two.hash].height == 2;
    assert !HeightStored(store, 1);
  }

  // ----- One hash-linked chain: what synced means -----

  function OfChain(chain: nat -> Header): Universe {
    (x: Header) => x == chain(x.height)
  }

  // Both handlers go on from the tip of the store, or from height 0 while it is empty.
  lemma HandlersReadTip(store: Store, tip: Option<Header>)
    requires tip.None? <==> store == map[]
    requires tip.Some? ==> IsTip(store, tip.value)
    ensures ReadsTip(store, TipHeight(tip))
  {}

  // The answer of synced from a tip: an error of the ancestor walk, else whether it reached the start and the
  // tip is as high as the peer's.
  ghost function SyncedAnswer(store: Store, tip: Header, peersTip: uint32, rank: Header -> nat)
    : Result<bool, StoreError>
    requires Ranked(store, rank) && RankedAt(store, rank, tip)
  {
    match Walk(store, tip, rank)
    case Err(e) => Err(e)
    case Ok(all) => Ok(all && tip.height >= peersTip)
  }

  /** All three answers: true exactly for a tip that comes down to the start and is as high as the peer's; an error
      exactly when the stored links end at one that is not a hash; else false. */
  lemma SyncedAnswerIff(store: Store, tip: Header, peersTip: uint32, rank: Header -> nat)
    requires Ranked(store, rank) && RankedAt(store, rank, tip)
    ensures var r := SyncedAnswer(store, tip, peersTip, rank);
            && (r == Ok(true) <==> ReachesStart(store, tip) && tip.height >= peersTip)
            && (r == Err(InvalidHash) <==> EndsStuck(store, tip, Err(InvalidHash)))
            && (r.Err? ==> r.error == InvalidHash)
  {
    WalkFindsStart(store, tip, rank);
    WalkEndsIff(store, tip, rank, Err(InvalidHash));
  }

  method Synced(db: Repository, peersTip: uint32, ghost rank: Header -> nat) returns (r: Result<bool, StoreError>)
    requires db.Valid() && KeyedByHash(db.Contents()) && Ranked(db.Contents(), rank)
    ensures db.Contents() == map[] ==> r == Err(NoBlocksHeaders)
    ensures db.Contents() != map[] ==>
              exists tip :: IsTip(db.Contents(), tip) && RankedAt(db.Contents(), rank, tip)
                            && r == SyncedAnswer(db.Contents(), tip, peersTip, rank)
  {
    var tip := db.ChainTip();
    if tip.Err? {
      return Err(tip.error);
    }
    assert RankedAt(db.Contents(), rank, tip.value);
    var tipHasAllAncestors := db.HasAllAncestors(tip.value.hash, rank);
    if tipHasAllAncestors.Err? {
      return Err(tipHasAllAncestors.error);
    }
    if tip.value.height < peersTip {
      return Ok(false);
    }
    r := Ok(tipHasAllAncestors.value);
  }

  /** What synced means: when all headers belong to one hash-linked chain, in every reachable state with a non-empty
      store the tip has all its ancestors, so the answer is exactly whether the tip is as high as the peer's. */
  lemma SyncedMeansCaughtUp(chain: nat -> Header, s: State, events: seq<Event>, t: State, tip: Header, peersTip: uint32)
    requires HashLinked(chain) && Start(OfChain(chain), s) && Runs(OfChain(chain), s, events, t)
    requires IsTip(t.store, tip)
    ensures ReachesStart(t.store, tip)
    ensures var rank := (x: Header) => x.height;
            && Ranked(t.store, rank) && RankedAt(t.store, rank, tip)
            && SyncedAnswer(t.store, tip, peersTip, rank) == Ok(tip.height >= peersTip)
  {
    var u, rank := OfChain(chain), (x: Header) => x.height;
    forall x, y
      ensures NoCollision(u, x, y)
    {
      assert Distinct(chain, x.height, y.height);
    }
    SyncIsSafe(u, s, events, t);
    RunsKeepSafe(u, s, events, t);
    forall k: Hash | k in t.store
      ensures FromChain(chain, t.store[k]) && t.store[k].hash == k
    {
      assert Genuine(u, t.store[k]);
    }
    ChainIsRanked(t.store, chain);
    var k: Hash :| k in t.store && t.store[k] == tip;
    assert FromChain(chain, t.store[k]);
    assert RankedAt(t.store, rank, t.store[k]);
    assert HeightStored(t.store, tip.height);
    ContiguousReachesStart(t.store, chain, tip.height);
    WalkFindsStart(t.store, tip, rank);
  }

  // ----- Blocks announced during a sync -----

  // A version message that says less of the peer than a height.
  predicate LowersBelow(e: Event, p: PeerId, n: uint32) {
    e.ReceiveVersion? && e.peer == p && e.startHeight < n
  }

  predicate NoneLowers(events: seq<Event>, p: PeerId, n: uint32) {
    forall e :: e in events ==> !LowersBelow(e, p, n)
  }

  lemma StepKeepsPeersTipIff(s: State, e: Event, p: PeerId, n: uint32)
    requires Enabled(s, e) && PeersTip(s, p) >= n
    ensures PeersTip(Step(s, e), p) >= n <==> !LowersBelow(e, p, n)
  {}

  // All along a run the peer is known to be at least at height n.
  ghost predicate StaysAtLeast(u: Universe, s: State, events: seq<Event>, t: State, p: PeerId, n: uint32)
    requires Runs(u, s, events, t)
    decreases |events|
  {
    PeersTip(s, p) >= n && (events != [] ==> StaysAtLeast(u, Step(s, events[0]), events[1..], t, p, n))
  }

  /** What is known of a peer is kept all along a run if and only if no version message of the peer says less. */
  lemma {:induction false} StaysAtLeastIff(u: Universe, s: State, events: seq<Event>, t: State, p: PeerId, n: uint32)
    requires Runs(u, s, events, t) && PeersTip(s, p) >= n
    ensures StaysAtLeast(u, s, events, t, p, n) <==> NoneLowers(events, p, n)
    ensures NoneLowers(events, p, n) ==> PeersTip(t, p) >= n
    decreases |events|
  {
    if events != [] {
      var e, rest := events[0], events[1..];
      assert events == [e] + rest;
      StepKeepsPeersTipIff(s, e, p, n);
      if !LowersBelow(e, p, n) {
        StaysAtLeastIff(u, Step(s, e), rest, t, p, n);
      } else {
        assert rest == [] || PeersTip(Step(s, e), p) < n;
      }
    }
  }

  /** A block that does not extend the tip is not forgotten before the peer itself says less: until then, whatever
      happens, synced does not answer true for its peer before the tip is as high as the block. */
  lemma AnnouncedBlockIsAwaited(u: Universe, s: State, p: PeerId, header: Header, read: uint32, events: seq<Event>,
                                t: State, tip: Header, rank: Header -> nat)
    requires Enabled(s, ReceiveBlock(p, header, read)) && header.height != Wrap32(read + 1)
    requires Runs(u, Step(s, ReceiveBlock(p, header, read)), events, t)
    requires NoneLowers(events, p, header.height)
    requires Ranked(t.store, rank) && RankedAt(t.store, rank, tip)
    ensures SyncedAnswer(t.store, tip, PeersTip(t, p), rank) == Ok(true) ==> tip.height >= header.height
  {
    StaysAtLeastIff(u, Step(s, ReceiveBlock(p, header, read)), events, t, p, header.height);
  }

  // A block that does not extend the tip, then a version message.
  lemma BlockThenVersion(t: State, p: PeerId, header: Header, read: uint32, startHeight: uint32)
    requires Enabled(t, ReceiveBlock(p, header, read)) && header.height != Wrap32(read + 1)
    ensures var a := Step(t, ReceiveBlock(p, header, read));
            && PeersTip(a, p) >= header.height
            && Enabled(a, ReceiveVersion(p, startHeight))
            && var b := Step(a, ReceiveVersion(p, startHeight));
            b.store == t.store && PeersTip(b, p) == startHeight
  {}

  /** But a version message makes the node forget it: whatever block the peer has announced, right after a version
      message synced answers true if and only if the tip is as high as that message says, on one hash-linked chain. */
  lemma VersionForgetsBlock(chain: nat -> Header, s: State, events: seq<Event>, t: State, p: PeerId, header: Header,
                            startHeight: uint32, tip: Header)
    requires HashLinked(chain) && Start(OfChain(chain), s) && Runs(OfChain(chain), s, events, t)
    requires IsTip(t.store, tip) && Pending(t, p) == []
    requires header.height != Wrap32(tip.height + 1)
    ensures var block := ReceiveBlock(p, header, tip.height);
            && Enabled(t, block) && PeersTip(Step(t, block), p) >= header.height
            && Enabled(Step(t, block), ReceiveVersion(p, startHeight))
            && var b := Step(Step(t, block), ReceiveVersion(p, startHeight));
            var rank := (x: Header) => x.height;
            && IsTip(b.store, tip) && Ranked(b.store, rank) && RankedAt(b.store, rank, tip)
            && (SyncedAnswer(b.store, tip, PeersTip(b, p), rank) == Ok(true) <==> startHeight <= tip.height)
  {
    assert ReadsTip(t.store, tip.height);
    BlockThenVersion(t, p, header, tip.height, startHeight);
    SyncedMeansCaughtUp(chain, s, events, t, tip, startHeight);
  }

  // ----- Any chain can be synchronised -----

  // At rest with a tip of height g, on the chain.
  ghost predicate RestsAt(chain: nat -> Header, s: State, p: PeerId, g: nat) {
    && s.slot.None? && Pending(s, p) == []
    && (forall k: Hash :: k in s.store ==> s.store[k].height <= g)
    && (if g == 0 then s.store == map[] else IsTip(s.store, chain(g)))
  }

  lemma TipGrows(store: Store, x: Header)
    requires forall k: Hash :: k in store ==> store[k].height < x.height
    ensures IsTip(store[x.hash := x], x)
  {
    assert store[x.hash := x][x.hash] == x;
  }

  // The next block comes in, is sent and is written.
  lemma OneBlock(chain: nat -> Header, s: State, p: PeerId, g: nat, end: nat) returns (t: State)
    requires HashLinked(chain) && RestsAt(chain, s, p, g) && g + 1 < TWO_TO_THE_32
    ensures RestsAt(chain, t, p, g + 1)
    ensures ReachesRest(chain, t, p, end) ==> ReachesRest(chain, s, p, end)
  {
    var x := chain(g + 1);
    assert ChainedAt(chain, g + 1) && ChainedAt(chain, g) && Genuine(OfChain(chain), x);
    assert ReactToBlock(x.height, g, PeersTip(s, p)).Forward?;
    var block := ReceiveBlock(p, x, g);
    var a := Step(s, block);
    var b := Step(a, Send(p));
    t := Step(b, WriteInMemory);
    TipGrows(s.store, x);
    assert RestsAt(chain, t, p, g + 1);
    if ReachesRest(chain, t, p, end) {
      ReachesEarlier(chain, b, WriteInMemory, p, end);
      ReachesEarlier(chain, a, Send(p), p, end);
      ReachesEarlier(chain, s, block, p, end);
    }
  }

  /** Whatever the chain, a peer that announces its blocks in order brings the store to any height: the reachable
      states that the results above speak of include every prefix of every hash-linked chain. */
  lemma {:induction false} ChainCanBeSynced(chain: nat -> Header, s: State, p: PeerId, g: nat, end: nat)
    requires HashLinked(chain) && RestsAt(chain, s, p, g) && g <= end < TWO_TO_THE_32
    ensures ReachesRest(chain, s, p, end)
    decreases end - g
  {
    if g == end {
      assert Runs(OfChain(chain), s, [], s);
    } else {
      var t := OneBlock(chain, s, p, g, end);
      ChainCanBeSynced(chain, t, p, g + 1, end);
    }
  }

  /** From an empty store there is a run after which synced answers true for a peer at any given height of the chain. */
  lemma SyncedIsReached(chain: nat -> Header, p: PeerId, end: nat)
    requires HashLinked(chain) && 0 < end < TWO_TO_THE_32
    ensures exists events, t ::
              && Runs(OfChain(chain), State(map[], None, map[], map[]), events, t)
              && AnswersSynced(chain, t, end)
  {
    var s := State(map[], None, map[], map[]);
    ChainCanBeSynced(chain, s, p, 0, end);
    var events, t :| Runs(OfChain(chain), s, events, t) && RestsAt(chain, t, p, end);
    assert Start(OfChain(chain), s);
    SyncedMeansCaughtUp(chain, s, events, t, chain(end), end);
    assert ChainedAt(chain, end);
    assert AnswersSynced(chain, t, end);
  }

  ghost predicate AnswersSynced(chain: nat -> Header, t: State, end: nat) {
    var rank := (x: Header) => x.height;
    && end < TWO_TO_THE_32 && IsTip(t.store, chain(end))
    && Ranked(t.store, rank) && RankedAt(t.store, rank, chain(end))
    && SyncedAnswer(t.store, chain(end), end, rank) == Ok(true)
  }

  ghost predicate ReachesRest(chain: nat -> Header, s: State, p: PeerId, end: nat) {
    exists events, t :: Runs(OfChain(chain), s, events, t) && RestsAt(chain, t, p, end)
  }

  lemma ReachesEarlier(chain: nat -> Header, s: State, e: Event, p: PeerId, end: nat)
    requires Enabled(s, e) && Incoming(OfChain(chain), e) && !e.WriteFails?
    requires ReachesRest(chain, Step(s, e), p, end)
    ensures ReachesRest(chain, s, p, end)
  {
    var events, t :| Runs(OfChain(chain), Step(s, e), events, t) && RestsAt(chain, t, p, end);
    var longer := [e] + events;
    assert longer[1..] == events;
    assert Runs(OfChain(chain), s, longer, t);
  }

  // ----- What a handler takes on can be stored -----

  ghost predicate ReachesStored(u: Universe, s: State, p: PeerId, run: seq<Header>) {
    exists events, t :: Runs(u, s, events, t) && t.slot.None? && Pending(t, p) == []
                        && forall x :: x in run ==> x.hash in t.store && t.store[x.hash] == x
  }

  lemma StoredEarlier(u: Universe, s: State, e: Event, p: PeerId, run: seq<Header>)
    requires Enabled(s, e) && Incoming(u, e) && !e.WriteFails? && ReachesStored(u, Step(s, e), p, run)
    ensures ReachesStored(u, s, p, run)
  {
    var events, t :| Runs(u, Step(s, e), events, t) && t.slot.None? && Pending(t, p) == []
                     && forall x :: x in run ==> x.hash in t.store && t.store[x.hash] == x;
    var longer := [e] + events;
    assert longer[1..] == events;
    assert Runs(u, s, longer, t);
  }

  // The first headers of a run are stored, the others still to be sent.
  ghost predicate HalfStored(u: Universe, s: State, p: PeerId, run: seq<Header>, n: nat) {
    && n <= |run| && s.slot.None? && Pending(s, p) == run[n..]
    && forall i :: 0 <= i < n ==> run[i].hash in s.store && s.store[run[i].hash] == run[i]
  }

  lemma StoreNext(u: Universe, s: State, p: PeerId, run: seq<Header>, n: nat) returns (t: State)
    requires CollisionFree(u) && AllGenuine(u, run) && HalfStored(u, s, p, run, n) && n < |run|
    ensures HalfStored(u, t, p, run, n + 1)
    ensures ReachesStored(u, t, p, run) ==> ReachesStored(u, s, p, run)
  {
    var x := run[n];
    assert Pending(s, p)[0] == x && run[n..][1..] == run[n + 1..];
    var a := Step(s, Send(p));
    t := Step(a, WriteInMemory);
    forall i | 0 <= i < n + 1
      ensures run[i].hash in t.store && t.store[run[i].hash] == run[i]
    {
      assert run[i] in run && run[n] in run;
      assert NoCollision(u, run[i], run[n]);
    }
    if ReachesStored(u, t, p, run) {
      StoredEarlier(u, a, WriteInMemory, p, run);
      StoredEarlier(u, s, Send(p), p, run);
    }
  }

  lemma {:induction false} RestCanBeStored(u: Universe, s: State, p: PeerId, run: seq<Header>, n: nat)
    requires CollisionFree(u) && AllGenuine(u, run) && HalfStored(u, s, p, run, n)
    ensures ReachesStored(u, s, p, run)
    decreases |run| - n
  {
    if n == |run| {
      assert Runs(u, s, [], s);
    } else {
      var t := StoreNext(u, s, p, run, n);
      RestCanBeStored(u, t, p, run, n + 1);
    }
  }

  /** From an idle writer, a headers message that continues the tip leads to a store that holds every header of it above
      the tip: nothing of an accepted batch is lost on the way. */
  lemma HeadersCanBeStored(u: Universe, s: State, p: PeerId, batch: seq<Header>, tip: uint32)
    requires CollisionFree(u) && AllGenuine(u, batch) && s.slot.None?
    requires Enabled(s, ReceiveHeaders(p, batch, tip)) && Accepts(batch, tip)
    ensures exists events, t ::
              && Runs(u, s, events, t)
              && forall x :: x in batch && x.height > tip ==> x.hash in t.store && t.store[x.hash] == x
  {
    var run := Forwarded(batch, tip);
    ForwardedContinuesTip(batch, tip);
    AcceptedIsForwarded(batch, tip);
    var a := Step(s, ReceiveHeaders(p, batch, tip));
    assert run[0..] == run;
    RestCanBeStored(u, a, p, run, 0);
    StoredEarlier(u, s, ReceiveHeaders(p, batch, tip), p, run);
  }
}
