/** The ping/pong liveness protocol: one manager owns the nonce table, one monitor per peer waits for its pong. */
module PingMonitor {
  import opened Basics

  type PeerId = string
  type Pings = map<uint64, PeerId>

  /** Where a monitor is.
      - Idle: waiting for its ticker
      - Sending: has sent a ping and is handing its nonce to the manager
      - Awaiting: waiting for the pong or the timer
      - TimedOut, Mismatched: handing its peer to the manager for disconnection
      - Exited: returned */
  datatype Monitor =
    | Idle
    | Sending(nonce: uint64)
    | Awaiting(nonce: uint64)
    | TimedOut(nonce: uint64)
    | Mismatched(want: uint64, got: uint64)
    | Exited

  /** Where the manager is: at its select, handing a pong to a monitor, or about to delete its entry. */
  datatype Manager = Ready | Delivering(nonce: uint64, peer: PeerId) | Removing(nonce: uint64) | Stopped

  datatype State = State(peers: set<PeerId>, pings: Pings, monitors: map<PeerId, Monitor>, manager: Manager)

  /** One atomic step. Channels are unbuffered, so Register, Deliver and Disconnect each take two goroutines.
      - AddPeer: a new peer, whose monitor starts
      - Tick: a ping goes out; a failing write drops the peer at once but the monitor goes on
      - Pong: some peer answered with a nonce
      - Disconnect, ReaderDisconnect: a monitor, or the reader of a connection, gives up a peer; the manager
        deletes one table entry of it, if it has any, in no particular order */
  datatype Event =
    | AddPeer(peer: PeerId)
    | Tick(peer: PeerId, nonce: uint64, writeFails: bool)
    | Register(peer: PeerId)
    | Pong(nonce: uint64)
    | Deliver
    | Remove
    | Timeout(peer: PeerId)
    | Disconnect(peer: PeerId, removed: Option<uint64>)
    | ReaderDisconnect(peer: PeerId, removed: Option<uint64>)
    | QuitMonitor(peer: PeerId)
    | QuitManager

  predicate At(s: State, p: PeerId, m: Monitor) { p in s.monitors && s.monitors[p] == m }

  // One entry of the peer is picked, or none when it has none.
  predicate PicksEntry(pings: Pings, p: PeerId, removed: Option<uint64>) {
    match removed
    case Some(k) => k in pings && pings[k] == p
    case None => forall k :: k in pings ==> pings[k] != p
  }

  predicate Enabled(s: State, e: Event) {
    match e
    case AddPeer(p) => p !in s.peers && p !in s.monitors
    case Tick(p, _, _) => At(s, p, Idle)
    case Register(p) => s.manager.Ready? && p in s.monitors && s.monitors[p].Sending?
    case Pong(_) => s.manager.Ready?
    case Deliver => s.manager.Delivering? && s.manager.peer in s.monitors && s.monitors[s.manager.peer].Awaiting?
    case Remove => s.manager.Removing?
    case Timeout(p) => p in s.monitors && s.monitors[p].Awaiting?
    case Disconnect(p, removed) =>
      && s.manager.Ready? && p in s.monitors && (s.monitors[p].TimedOut? || s.monitors[p].Mismatched?)
      && PicksEntry(s.pings, p, removed)
    case ReaderDisconnect(p, removed) => s.manager.Ready? && PicksEntry(s.pings, p, removed)
    case QuitMonitor(p) => At(s, p, Idle)
    case QuitManager => s.manager.Ready?
  }

  function Without(pings: Pings, removed: Option<uint64>): Pings {
    if removed.None? then pings else pings - {removed.value}
  }

  function Step(s: State, e: Event): State
    requires Enabled(s, e)
  {
    match e
    case AddPeer(p) => s.(peers := s.peers + {p}, monitors := s.monitors[p := Idle])
    case Tick(p, nonce, writeFails) =>
      s.(peers := if writeFails then s.peers - {p} else s.peers, monitors := s.monitors[p := Sending(nonce)])
    case Register(p) =>
      var nonce := s.monitors[p].nonce;
      s.(pings := s.pings[nonce := p], monitors := s.monitors[p := Awaiting(nonce)])
    case Pong(nonce) =>
      if nonce !in s.pings || s.pings[nonce] == "" || s.pings[nonce] !in s.peers then s
      else s.(manager := Delivering(nonce, s.pings[nonce]))
    case Deliver =>
      var p, got := s.manager.peer, s.manager.nonce;
      var want := s.monitors[p].nonce;
      s.(monitors := s.monitors[p := if got != want then Mismatched(want, got) else Idle], manager := Removing(got))
    case Remove => s.(pings := s.pings - {s.manager.nonce}, manager := Ready)
    case Timeout(p) => s.(monitors := s.monitors[p := TimedOut(s.monitors[p].nonce)])
    case Disconnect(p, removed) =>
      s.(peers := s.peers - {p}, pings := Without(s.pings, removed), monitors := s.monitors[p := Exited])
    case ReaderDisconnect(p, removed) => s.(peers := s.peers - {p}, pings := Without(s.pings, removed))
    case QuitMonitor(p) => s.(monitors := s.monitors[p := Exited])
    case QuitManager => s.(manager := Stopped)
  }

  const INIT := State({}, map[], map[], Ready)

  // An entry belongs to a monitor that waits for it or timed out on it, or is just being removed.
  predicate EntryOwned(s: State, m: uint64)
    requires m in s.pings
  {
    At(s, s.pings[m], Awaiting(m)) || At(s, s.pings[m], TimedOut(m)) || s.manager == Removing(m)
  }

  predicate Inv(s: State) {
    && (forall m :: m in s.pings ==> EntryOwned(s, m))
    && (forall p :: p in s.monitors ==> !s.monitors[p].Mismatched?)
    && (s.manager.Delivering? ==> s.manager.nonce in s.pings && s.pings[s.manager.nonce] == s.manager.peer)
    && (s.manager.Removing? ==>
          && s.manager.nonce in s.pings
          && var p := s.pings[s.manager.nonce];
             p in s.monitors && (s.monitors[p].Idle? || s.monitors[p].Sending? || s.monitors[p].Exited?))
  }

  lemma StepKeepsInv(s: State, e: Event)
    requires Inv(s) && Enabled(s, e)
    ensures Inv(Step(s, e))
  {
    var t := Step(s, e);
    forall m | m in t.pings
      ensures EntryOwned(t, m)
    {
      if m in s.pings {
        assert EntryOwned(s, m);
        match e
        case Disconnect(p, removed) => OneEntryPerPeer(s);
        case Deliver => assert EntryOwned(s, s.manager.nonce);
        case _ =>
      }
    }
    if e.Deliver? {
      assert EntryOwned(s, s.manager.nonce);
    }
  }

  /** At most one entry per peer. */
  lemma OneEntryPerPeer(s: State)
    requires Inv(s)
    ensures forall m, n :: m in s.pings && n in s.pings && s.pings[m] == s.pings[n] ==> m == n
  {
    forall m, n | m in s.pings && n in s.pings && s.pings[m] == s.pings[n]
      ensures m == n
    {
      assert EntryOwned(s, m) && EntryOwned(s, n);
    }
  }

  predicate Runs(s: State, events: seq<Event>, t: State)
    decreases |events|
  {
    if events == [] then s == t else Enabled(s, events[0]) && Runs(Step(s, events[0]), events[1..], t)
  }

  lemma {:induction false} RunsKeepInv(s: State, events: seq<Event>, t: State)
    requires Inv(s) && Runs(s, events, t)
    ensures Inv(t)
    decreases |events|
  {
    if events != [] {
      StepKeepsInv(s, events[0]);
      RunsKeepInv(Step(s, events[0]), events[1..], t);
    }
  }

  /** Every reachable state: a registered nonce is one its peer's monitor awaits or timed out on, or the entry being
      removed; a peer has at most one; no monitor ever meets a wrong nonce; and disconnecting a peer, by its monitor or
      its reader, deletes a single entry and leaves none of it. */
  lemma ReachableStates(events: seq<Event>, t: State)
    requires Runs(INIT, events, t)
    ensures forall m :: m in t.pings ==> EntryOwned(t, m)
    ensures forall m, n :: m in t.pings && n in t.pings && t.pings[m] == t.pings[n] ==> m == n
    ensures forall p :: p in t.monitors ==> !t.monitors[p].Mismatched?
    ensures forall p, removed :: Enabled(t, Disconnect(p, removed)) ==>
              NoEntryOf(Step(t, Disconnect(p, removed)), p)
    ensures forall p, removed :: Enabled(t, ReaderDisconnect(p, removed)) ==>
              NoEntryOf(Step(t, ReaderDisconnect(p, removed)), p)
  {
    RunsKeepInv(INIT, events, t);
    OneEntryPerPeer(t);
  }

  predicate NoEntryOf(s: State, p: PeerId) {
    forall m :: m in s.pings ==> s.pings[m] != p
  }

  // ----- Who watches the peers -----

  predicate NoQuit(events: seq<Event>) { forall e :: e in events ==> !e.QuitMonitor? }

  // Every peer has a monitor that goes on.
  predicate AllWatched(s: State) {
    forall p :: p in s.peers ==> p in s.monitors && !s.monitors[p].Exited?
  }

  // The manager hands a pong only to a peer that has not been dropped.
  predicate DeliversToPeer(s: State) {
    s.manager.Delivering? ==> s.manager.peer in s.peers && s.manager.peer != ""
  }

  lemma StepKeepsWatched(s: State, e: Event)
    requires Inv(s) && AllWatched(s) && DeliversToPeer(s) && Enabled(s, e) && !e.QuitMonitor?
    ensures AllWatched(Step(s, e)) && DeliversToPeer(Step(s, e))
  {
    if s.manager.Delivering? {
      assert EntryOwned(s, s.manager.nonce);
    }
  }

  lemma {:induction false} RunsKeepWatched(s: State, events: seq<Event>, t: State)
    requires Inv(s) && AllWatched(s) && DeliversToPeer(s) && Runs(s, events, t) && NoQuit(events)
    ensures AllWatched(t) && DeliversToPeer(t)
    decreases |events|
  {
    if events != [] {
      assert events[0] in events && forall e :: e in events[1..] ==> e in events;
      StepKeepsWatched(s, events[0]);
      StepKeepsInv(s, events[0]);
      RunsKeepWatched(Step(s, events[0]), events[1..], t);
    }
  }

  /** Until the node quits, no peer is left unwatched: in every reachable state each peer has a monitor that has not
      returned; and pongs are handed to such peers only. */
  lemma PeersAreWatched(events: seq<Event>, t: State)
    requires Runs(INIT, events, t) && NoQuit(events)
    ensures forall p :: p in t.peers ==> p in t.monitors && !t.monitors[p].Exited?
    ensures t.manager.Delivering? ==> t.manager.peer in t.peers && t.manager.peer != ""
  {
    RunsKeepWatched(INIT, events, t);
  }

  // ----- Rounds -----

  // A peer whose monitor is about to ping it, the manager being at its select.
  predicate BeforeRound(s: State, p: PeerId) {
    Inv(s) && s.manager.Ready? && At(s, p, Idle) && p in s.peers && p != ""
  }

  // The rest of the table and the other monitors are as before, but for a nonce drawn again.
  predicate OthersUntouched(s: State, t: State, p: PeerId, nonce: uint64) {
    && t.monitors.Keys == s.monitors.Keys
    && (forall q :: q in s.monitors && q != p ==> t.monitors[q] == s.monitors[q])
    && t.pings == s.pings - {nonce}
  }

  lemma IdleHasNoEntry(s: State, p: PeerId)
    requires Inv(s) && s.manager.Ready? && At(s, p, Idle)
    ensures NoEntryOf(s, p)
  {
    forall m | m in s.pings
      ensures s.pings[m] != p
    {
      assert EntryOwned(s, m);
    }
  }

  /** A round that the peer answers in time: the peer stays, its monitor waits for the next tick, and the nonce is
      gone. */
  lemma AnsweredRound(s: State, p: PeerId, nonce: uint64) returns (t: State)
    requires BeforeRound(s, p)
    ensures Runs(s, [Tick(p, nonce, false), Register(p), Pong(nonce), Deliver, Remove], t)
    ensures t.peers == s.peers && At(t, p, Idle) && NoEntryOf(t, p) && t.manager.Ready?
    ensures OthersUntouched(s, t, p, nonce)
  {
    IdleHasNoEntry(s, p);
    var s1 := Step(s, Tick(p, nonce, false));
    var s2 := Step(s1, Register(p));
    var s3 := Step(s2, Pong(nonce));
    var s4 := Step(s3, Deliver);
    t := Step(s4, Remove);
    FiveSteps(s, Tick(p, nonce, false), Register(p), Pong(nonce), Deliver, Remove);
  }

  lemma FiveSteps(s: State, a: Event, b: Event, c: Event, d: Event, e: Event)
    requires Enabled(s, a) && Enabled(Step(s, a), b) && Enabled(Step(Step(s, a), b), c)
    requires Enabled(Step(Step(Step(s, a), b), c), d) && Enabled(Step(Step(Step(Step(s, a), b), c), d), e)
    ensures Runs(s, [a, b, c, d, e], Step(Step(Step(Step(Step(s, a), b), c), d), e))
  {
    var s1 := Step(s, a);
    FourSteps(s1, b, c, d, e);
    assert [a, b, c, d, e][1..] == [b, c, d, e];
  }

  lemma FourSteps(s: State, a: Event, b: Event, c: Event, d: Event)
    requires Enabled(s, a) && Enabled(Step(s, a), b) && Enabled(Step(Step(s, a), b), c)
    requires Enabled(Step(Step(Step(s, a), b), c), d)
    ensures Runs(s, [a, b, c, d], Step(Step(Step(Step(s, a), b), c), d))
  {
    var t := Step(Step(Step(Step(s, a), b), c), d);
    assert [a, b, c, d][1..] == [b, c, d] && [b, c, d][1..] == [c, d] && [c, d][1..] == [d] && [d][1..] == [];
    assert Runs(Step(Step(Step(s, a), b), c), [d], t);
    assert Runs(Step(Step(s, a), b), [c, d], t);
    assert Runs(Step(s, a), [b, c, d], t);
  }

  /** A round without an answer: the peer is dropped, its monitor has returned, its entry is gone, and a pong that comes
      after all changes nothing. */
  lemma SilentRound(s: State, p: PeerId, nonce: uint64) returns (t: State)
    requires BeforeRound(s, p)
    ensures Runs(s, [Tick(p, nonce, false), Register(p), Timeout(p), Disconnect(p, Some(nonce))], t)
    ensures t.peers == s.peers - {p} && At(t, p, Exited) && NoEntryOf(t, p)
    ensures OthersUntouched(s, t, p, nonce)
    ensures Enabled(t, Pong(nonce)) && Step(t, Pong(nonce)) == t
  {
    IdleHasNoEntry(s, p);
    var s1 := Step(s, Tick(p, nonce, false));
    var s2 := Step(s1, Register(p));
    var s3 := Step(s2, Timeout(p));
    t := Step(s3, Disconnect(p, Some(nonce)));
    FourSteps(s, Tick(p, nonce, false), Register(p), Timeout(p), Disconnect(p, Some(nonce)));
  }

  /** A ping that cannot be written drops the peer at once; its monitor still goes through the round, ignores pongs, and
      returns when the timer has fired. */
  lemma UnwrittenRound(s: State, p: PeerId, nonce: uint64) returns (t: State)
    requires BeforeRound(s, p)
    ensures Step(s, Tick(p, nonce, true)).peers == s.peers - {p}
    ensures Runs(s, [Tick(p, nonce, true), Register(p), Pong(nonce), Timeout(p), Disconnect(p, Some(nonce))], t)
    ensures t.peers == s.peers - {p} && At(t, p, Exited) && NoEntryOf(t, p)
    ensures OthersUntouched(s, t, p, nonce)
  {
    IdleHasNoEntry(s, p);
    var s1 := Step(s, Tick(p, nonce, true));
    var s2 := Step(s1, Register(p));
    var s3 := Step(s2, Pong(nonce));
    assert s3 == s2;
    var s4 := Step(s3, Timeout(p));
    t := Step(s4, Disconnect(p, Some(nonce)));
    FiveSteps(s, Tick(p, nonce, true), Register(p), Pong(nonce), Timeout(p), Disconnect(p, Some(nonce)));
  }

  /** However the run went, giving up a peer drops it, and its monitor if that gave it up. */
  lemma GivenUpIsDropped(events: seq<Event>, t: State, p: PeerId, removed: Option<uint64>)
    requires Runs(INIT, events, t)
    ensures Enabled(t, Disconnect(p, removed)) ==>
              var after := Step(t, Disconnect(p, removed));
              after.peers == t.peers - {p} && At(after, p, Exited) && NoEntryOf(after, p)
    ensures Enabled(t, ReaderDisconnect(p, removed)) ==>
              var after := Step(t, ReaderDisconnect(p, removed));
              after.peers == t.peers - {p} && after.monitors == t.monitors && NoEntryOf(after, p)
  {
    ReachableStates(events, t);
  }

  // ----- When the manager gets stuck -----

  // The manager hands a pong to a monitor that has already given up and waits for the manager.
  predicate Stuck(s: State) {
    s.manager.Delivering? && At(s, s.manager.peer, TimedOut(s.manager.nonce))
  }

  // No step of any goroutine ends that.
  lemma StuckStays(s: State, e: Event)
    requires Stuck(s) && Enabled(s, e)
    ensures Stuck(Step(s, e)) && Step(s, e).manager == s.manager
  {}

  lemma {:induction false} StuckForever(s: State, events: seq<Event>, t: State)
    requires Stuck(s) && Runs(s, events, t)
    ensures Stuck(t) && t.manager == s.manager && t.pings == s.pings
    decreases |events|
  {
    if events != [] {
      StuckStays(s, events[0]);
      StuckForever(Step(s, events[0]), events[1..], t);
    }
  }

  /** In a reachable state in which the manager has accepted a pong, it can deliver it exactly while the monitor
      has not timed out; after that it is stuck for good. */
  lemma DeliveryIffNotTimedOut(events: seq<Event>, t: State)
    requires Runs(INIT, events, t) && t.manager.Delivering?
    ensures Enabled(t, Deliver) <==> At(t, t.manager.peer, Awaiting(t.manager.nonce))
    ensures !Enabled(t, Deliver) <==> Stuck(t)
  {
    RunsKeepInv(INIT, events, t);
    assert EntryOwned(t, t.manager.nonce);
  }

  // A pong accepted just before the timer fires leads there.
  lemma PongAtTimeoutGetsStuck(p: PeerId, nonce: uint64)
    requires p != ""
    ensures var events := [AddPeer(p), Tick(p, nonce, false), Register(p), Pong(nonce), Timeout(p)];
            exists t :: Runs(INIT, events, t) && Stuck(t)
  {
    FiveSteps(INIT, AddPeer(p), Tick(p, nonce, false), Register(p), Pong(nonce), Timeout(p));
  }

  // ----- The manager's table -----

  class PeerPings {
    var pings: Pings
    var peers: set<PeerId>

    constructor (peers: set<PeerId>)
      ensures pings == map[] && this.peers == peers
    {
      pings, this.peers := map[], peers;
    }

    // The table's part of a registration.
    method OnPing(nonce: uint64, peer: PeerId)
      modifies this`pings
      ensures pings == old(pings)[nonce := peer]
      ensures forall s: State :: s.pings == old(pings) && s.manager.Ready? && At(s, peer, Sending(nonce)) ==>
                pings == Step(s, Register(peer)).pings
    {
      pings := pings[nonce := peer];
    }

    // The peer a pong is handed to, if any.
    method OnPong(nonce: uint64) returns (peer: Option<PeerId>)
      ensures forall s: State :: s.pings == pings && s.peers == peers && s.manager.Ready? ==>
                Step(s, Pong(nonce)).manager == if peer.Some? then Delivering(nonce, peer.value) else Ready
    {
      var id := if nonce in pings then pings[nonce] else "";
      if id == "" || id !in peers {
        return None;
      }
      peer := Some(id);
    }

    // The table's part of a removal.
    method AfterDelivery(nonce: uint64)
      modifies this`pings
      ensures pings == old(pings) - {nonce}
      ensures forall s: State :: s.pings == old(pings) && s.manager == Removing(nonce) ==>
                pings == Step(s, Remove).pings
    {
      pings := pings - {nonce};
    }

    // Deletes the first entry of the peer that a walk over the table meets.
    method OnDisconnect(peer: PeerId) returns (removed: Option<uint64>)
      modifies this
      ensures PicksEntry(old(pings), peer, removed)
      ensures pings == Without(old(pings), removed) && peers == old(peers) - {peer}
      ensures forall s: State :: s.pings == old(pings) && s.peers == old(peers) && s.manager.Ready? ==>
                Enabled(s, ReaderDisconnect(peer, removed))
                && pings == Step(s, ReaderDisconnect(peer, removed)).pings
                && peers == Step(s, ReaderDisconnect(peer, removed)).peers
      ensures forall s: State ::
                s.pings == old(pings) && s.peers == old(peers) && Enabled(s, Disconnect(peer, removed)) ==>
                && pings == Step(s, Disconnect(peer, removed)).pings
                && peers == Step(s, Disconnect(peer, removed)).peers
    {
      peers := peers - {peer};
      removed := None;
      var rest := pings.Keys;
      while rest != {}
        invariant rest <= pings.Keys && pings == old(pings) && removed.None?
        invariant forall k :: k in pings && k !in rest ==> pings[k] != peer
        decreases |rest|
      {
        var k :| k in rest;
        if pings[k] == peer {
          pings := pings - {k};
          return Some(k);
        }
        rest := rest - {k};
      }
    }
  }
}
