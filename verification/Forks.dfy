/** Competing chains over the table, which keeps the first header of every height: when synced can still become true. */
module Forks {
  import opened Basics
  import opened Headers
  import opened HeaderStores
  import opened HandleHeaders
  import opened HeaderSync

  // A stored parent is one height below its child.
  ghost predicate StepsDownAt(store: Store, child: Header) {
    (child.height > 1 && |child.prevBlockHash| == 32 && child.prevBlockHash in store)
    ==> store[child.prevBlockHash].height == child.height - 1
  }

  ghost predicate StepsDown(store: Store) {
    forall k: Hash :: k in store ==> StepsDownAt(store, store[k])
  }

  // The headers stored at a height and below it are linked.
  ghost predicate LinkedAt(store: Store, g: int) {
    forall j: Hash, k: Hash :: j in store && k in store && store[j].height == g && store[k].height == g - 1
      ==> LinksTo(store, store[j], store[k])
  }

  ghost predicate LinkedUpTo(store: Store, top: int) {
    forall g: int :: 2 <= g <= top ==> LinkedAt(store, g)
  }

  lemma StepsDownIsRanked(store: Store)
    requires StepsDown(store)
    ensures Ranked(store, (x: Header) => x.height)
  {
    forall k: Hash | k in store
      ensures RankedAt(store, (x: Header) => x.height, store[k])
    {
      assert StepsDownAt(store, store[k]);
    }
  }

  // Links at every height lead down to the start.
  lemma {:induction false} LinkedReachesStart(store: Store, k: Hash)
    requires Contiguous(store) && k in store && LinkedUpTo(store, store[k].height)
    ensures ReachesStart(store, store[k])
    decreases store[k].height
  {
    var g := store[k].height;
    if g <= 1 {
      assert Linked(store, [store[k]]);
    } else {
      assert HeightStored(store, g - 1);
      var j: Hash :| j in store && store[j].height == g - 1;
      LinkedReachesStart(store, j);
      assert LinkedAt(store, g);
      ChildReachesStart(store, store[k], store[j]);
    }
  }

  // A path down to the start passes through the only header of every height.
  lemma {:induction false} PathLinksAll(store: Store, path: seq<Header>)
    requires UniqueHeights(store.Values) && StepsDown(store)
    requires Linked(store, path) && path[|path| - 1].height <= 1 && path[0] in store.Values
    ensures LinkedUpTo(store, path[0].height)
    decreases |path|
  {
    var child := path[0];
    if child.height > 1 {
      var parent, tail := path[1], path[1..];
      assert LinksTo(store, path[0], path[0 + 1]);
      assert parent.height == child.height - 1 by {
        var k: Hash :| k in store && store[k] == child;
        assert StepsDownAt(store, store[k]);
      }
      forall i | 0 <= i < |tail| - 1
        ensures LinksTo(store, tail[i], tail[i + 1])
      {
        var j := i + 1;
        assert LinksTo(store, path[j], path[j + 1]);
      }
      PathLinksAll(store, tail);
      OnlyHeadersLink(store, child, parent);
    }
  }

  lemma OnlyHeadersLink(store: Store, child: Header, parent: Header)
    requires UniqueHeights(store.Values) && child in store.Values && LinksTo(store, child, parent)
    requires parent.height == child.height - 1
    ensures LinkedAt(store, child.height)
  {
    assert parent in store.Values;
    forall j: Hash, k: Hash
      | j in store && k in store && store[j].height == child.height && store[k].height == child.height - 1
      ensures LinksTo(store, store[j], store[k])
    {
      assert store[j] in store.Values && store[k] in store.Values;
      assert store[j] == child && store[k] == parent;
    }
  }

  /** With one header per height, a tip has all its ancestors if and only if the headers stored at any two neighbouring
      heights up to it are linked. */
  lemma TipReachesStartIff(store: Store, tip: Header)
    requires Contiguous(store) && UniqueHeights(store.Values) && StepsDown(store) && IsTip(store, tip)
    ensures ReachesStart(store, tip) <==> LinkedUpTo(store, tip.height)
  {
    var k: Hash :| k in store && store[k] == tip;
    if LinkedUpTo(store, tip.height) {
      LinkedReachesStart(store, k);
    }
    if ReachesStart(store, tip) {
      var path: seq<Header> :| Linked(store, path) && path[0] == tip && path[|path| - 1].height <= 1;
      assert tip in store.Values;
      PathLinksAll(store, path);
    }
  }

  // ----- Runs over the table -----

  // A header names its parent by hash, and the parent is one height below. Headers may compete for a height.
  ghost predicate HeightsFollowLinks(u: Universe) {
    forall x, y :: HeightFollowsLink(u, x, y)
  }

  ghost predicate HeightFollowsLink(u: Universe, x: Header, y: Header) {
    u(x) && u(y) && x.height > 1 && x.prevBlockHash == y.hash ==> y.height == x.height - 1
  }

  predicate TableOnly(events: seq<Event>) {
    forall e :: e in events ==> !e.WriteInMemory?
  }

  lemma GenuineStepsDown(u: Universe, s: State)
    requires HeightsFollowLinks(u) && GenuineState(u, s)
    ensures StepsDown(s.store)
  {
    forall k: Hash | k in s.store
      ensures StepsDownAt(s.store, s.store[k])
    {
      var child := s.store[k];
      if |child.prevBlockHash| == 32 && child.prevBlockHash in s.store {
        assert HeightFollowsLink(u, child, s.store[child.prevBlockHash]);
      }
    }
  }

  // The table never takes a second header of a height, and never changes or drops one.
  lemma TableWriteKeeps(store: Store, x: Header)
    ensures forall k: Hash :: k in store ==> k in TableWrite(store, x) && TableWrite(store, x)[k] == store[k]
    ensures UniqueHeights(store.Values) ==> UniqueHeights(TableWrite(store, x).Values)
  {
    var after := TableWrite(store, x);
    if UniqueHeights(store.Values) && after != store {
      forall a, b | a in after.Values && b in after.Values && a.height == b.height
        ensures a == b
      {
        assert a != x ==> a in store.Values;
        assert b != x ==> b in store.Values;
      }
    }
  }

  ghost predicate Extends(before: Store, after: Store) {
    forall k: Hash :: k in before ==> k in after && after[k] == before[k]
  }

  lemma TableStepKeeps(s: State, e: Event)
    requires Enabled(s, e) && !e.WriteInMemory?
    ensures Extends(s.store, Step(s, e).store)
    ensures UniqueHeights(s.store.Values) ==> UniqueHeights(Step(s, e).store.Values)
  {
    if e.WriteTable? {
      TableWriteKeeps(s.store, s.slot.value);
    }
  }

  lemma {:induction false} TableRunKeeps(u: Universe, s: State, events: seq<Event>, t: State)
    requires Runs(u, s, events, t) && TableOnly(events)
    ensures Extends(s.store, t.store)
    ensures UniqueHeights(s.store.Values) ==> UniqueHeights(t.store.Values)
    decreases |events|
  {
    if events != [] {
      assert events[0] in events && forall e :: e in events[1..] ==> e in events;
      TableStepKeeps(s, events[0]);
      TableRunKeeps(u, Step(s, events[0]), events[1..], t);
    }
  }

  // A link between two headers that is there later was there before; so a link that is missing stays missing.
  lemma LinkWasThere(before: Store, after: Store, g: int)
    requires Extends(before, after) && KeyedByHash(after) && LinkedAt(after, g)
    ensures LinkedAt(before, g)
  {
    forall j: Hash, k: Hash | j in before && k in before && before[j].height == g && before[k].height == g - 1
      ensures LinksTo(before, before[j], before[k])
    {
      assert j in after && k in after && after[j] == before[j] && after[k] == before[k];
      assert LinksTo(after, after[j], after[k]);
      assert after[j].prevBlockHash == after[k].hash == k;
    }
  }

  lemma LinksWereThere(before: Store, after: Store, low: int, high: int)
    requires Extends(before, after) && KeyedByHash(after) && low <= high && LinkedUpTo(after, high)
    ensures LinkedUpTo(before, low)
  {
    forall g: int | 2 <= g <= low
      ensures LinkedAt(before, g)
    {
      LinkWasThere(before, after, g);
    }
  }

  // A state of a run over the table.
  ghost predicate TableState(u: Universe, s: State) {
    && CollisionFree(u) && HeightsFollowLinks(u)
    && Safe(s) && GenuineState(u, s) && UniqueHeights(s.store.Values)
  }

  lemma TableRunKeepsState(u: Universe, s: State, events: seq<Event>, t: State)
    requires TableState(u, s) && Runs(u, s, events, t) && TableOnly(events)
    ensures TableState(u, t)
  {
    RunsKeepSafe(u, s, events, t);
    TableRunKeeps(u, s, events, t);
  }

  lemma TableStateAnswers(u: Universe, t: State, tip: Header, peersTip: uint32)
    requires TableState(u, t) && IsTip(t.store, tip)
    ensures var rank := (x: Header) => x.height;
            && Ranked(t.store, rank) && RankedAt(t.store, rank, tip)
            && (SyncedAnswer(t.store, tip, peersTip, rank) == Ok(true)
                <==> LinkedUpTo(t.store, tip.height) && tip.height >= peersTip)
  {
    var rank := (x: Header) => x.height;
    GenuineStepsDown(u, t);
    StepsDownIsRanked(t.store);
    var k: Hash :| k in t.store && t.store[k] == tip;
    assert RankedAt(t.store, rank, t.store[k]);
    WalkFindsStart(t.store, tip, rank);
    TipReachesStartIff(t.store, tip);
  }

  /** What synced means when chains compete: over the table, in every reachable state, it answers true if and only if
      the tip is as high as the peer's and the headers stored at neighbouring heights are linked all the way down. */
  lemma TableSyncedIff(u: Universe, s: State, events: seq<Event>, t: State, tip: Header, peersTip: uint32)
    requires CollisionFree(u) && HeightsFollowLinks(u) && Start(u, s) && UniqueHeights(s.store.Values)
    requires Runs(u, s, events, t) && TableOnly(events) && IsTip(t.store, tip)
    ensures var rank := (x: Header) => x.height;
            && Ranked(t.store, rank) && RankedAt(t.store, rank, tip)
            && (SyncedAnswer(t.store, tip, peersTip, rank) == Ok(true)
                <==> LinkedUpTo(t.store, tip.height) && tip.height >= peersTip)
  {
    assert TableState(u, s);
    TableRunKeepsState(u, s, events, t);
    TableStateAnswers(u, t, tip, peersTip);
  }

  /** A reorganisation is for good: once the table holds two neighbouring headers of different chains, synced answers
      true in no later state, whatever arrives and whatever tip the peer has. */
  lemma BrokenLinkIsForGood(u: Universe, s: State, events: seq<Event>, t: State, top: Header, tip: Header,
                            peersTip: uint32)
    requires TableState(u, s) && IsTip(s.store, top) && !LinkedUpTo(s.store, top.height)
    requires Runs(u, s, events, t) && TableOnly(events) && IsTip(t.store, tip)
    ensures var rank := (x: Header) => x.height;
            && Ranked(t.store, rank) && RankedAt(t.store, rank, tip)
            && SyncedAnswer(t.store, tip, peersTip, rank) != Ok(true)
  {
    TableRunKeepsState(u, s, events, t);
    TableRunKeeps(u, s, events, t);
    var k: Hash :| k in s.store && s.store[k] == top;
    assert k in t.store && t.store[k] == top;
    if LinkedUpTo(t.store, tip.height) {
      LinksWereThere(s.store, t.store, top.height, tip.height);
      assert false;
    }
    TableStateAnswers(u, t, tip, peersTip);
  }

  // The tip read and the height are all that is checked, so a block of another chain is taken. Here the second block
  // extends a competitor of the first.
  lemma ForkBreaksLink(one: Header, two: Header)
    requires one.height == 1 && two.height == 2 && two.hash != one.hash && two.prevBlockHash != one.hash
    ensures var s := State(map[], None, map[], map[]);
            && Enabled(s, ReceiveBlock("p", one, 0))
            && var a := Step(s, ReceiveBlock("p", one, 0));
            && Enabled(a, Send("p"))
            && var b := Step(a, Send("p"));
            && Enabled(b, WriteTable)
            && var c := Step(b, WriteTable);
            && Enabled(c, ReceiveBlock("q", two, 1))
            && var d := Step(c, ReceiveBlock("q", two, 1));
            && Enabled(d, Send("q"))
            && var e := Step(d, Send("q"));
            && Enabled(e, WriteTable)
            && IsTip(Step(e, WriteTable).store, two) && !LinkedUpTo(Step(e, WriteTable).store, 2)
  {
    var first: Store := map[one.hash := one];
    assert one.hash in first && IsTip(first, one);
    assert TableWrite(map[], one) == first;
    var both := first[two.hash := two];
    assert TableWrite(first, two) == both;
    assert one.hash in both && two.hash in both && both[one.hash] == one && both[two.hash] == two;
    assert !LinksTo(both, both[two.hash], both[one.hash]);
    assert !LinkedAt(both, 2);
  }
}
