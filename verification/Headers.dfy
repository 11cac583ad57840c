/** Block headers, and what it means that a stored header has all its ancestors. */
module Headers {
  import opened Basics
  import opened Wire

  // A header with its own hash. The link to the previous block is raw bytes, as decoded.
  datatype Header = Header(hash: Hash, prevBlockHash: bytes, height: uint32)

  // NilHeader stands for the nil dereference that ends a call when an unknown hash or height is looked up.
  datatype StoreError = NoBlocksHeaders | BlockNotFound | InvalidHash | NilHeader | WriteRejected

  type Store = map<Hash, Header>

  ghost predicate HeightStored(store: Store, g: int) {
    exists k: Hash :: k in store && store[k].height == g
  }

  // Every height from 1 to that of any stored header is stored.
  ghost predicate Contiguous(store: Store) {
    forall k: Hash, g: int {:trigger k in store, HeightStored(store, g)} :: k in store && 1 <= g <= store[k].height
      ==> HeightStored(store, g)
  }

  // What ChainTip may return: a stored header of greatest height.
  predicate IsTip(store: Store, tip: Header) {
    (exists k: Hash :: k in store && store[k] == tip) && forall k: Hash :: k in store ==> store[k].height <= tip.height
  }

  // ----- Ancestors -----

  predicate LinksTo(store: Store, child: Header, parent: Header) {
    |child.prevBlockHash| == 32 && child.prevBlockHash in store && store[child.prevBlockHash] == parent
  }

  ghost predicate Linked(store: Store, path: seq<Header>) {
    path != [] && forall i :: 0 <= i < |path| - 1 ==> LinksTo(store, path[i], path[i + 1])
  }

  // Following stored links from a header reaches one of height at most 1.
  ghost predicate ReachesStart(store: Store, header: Header) {
    exists path: seq<Header> :: Linked(store, path) && path[0] == header && path[|path| - 1].height <= 1
  }

  // The stored links run upwards in some order, so that following them ends. Heights are not compared by the
  // code; links given by hashes of the linked headers cannot form a cycle.
  ghost predicate Ranked(store: Store, rank: Header -> nat) {
    forall k: Hash :: k in store ==> RankedAt(store, rank, store[k])
  }

  ghost predicate RankedAt(store: Store, rank: Header -> nat, child: Header) {
    (child.height > 1 && |child.prevBlockHash| == 32 && child.prevBlockHash in store)
    ==> rank(store[child.prevBlockHash]) < rank(child)
  }

  // The walk of HasAllAncestors.
  ghost function Walk(store: Store, header: Header, rank: Header -> nat): (r: Result<bool, StoreError>)
    requires Ranked(store, rank) && RankedAt(store, rank, header)
    ensures r.Err? ==> r.error == InvalidHash
    decreases rank(header)
  {
    if header.height <= 1 then Ok(true)
    else if |header.prevBlockHash| != 32 then Err(InvalidHash)
    else if header.prevBlockHash !in store then Ok(false)
    else Walk(store, store[header.prevBlockHash], rank)
  }

  lemma {:induction false} WalkStopsAtStart(store: Store, header: Header, rank: Header -> nat, path: seq<Header>)
    requires Ranked(store, rank) && RankedAt(store, rank, header)
    requires Linked(store, path) && path[0] == header && path[|path| - 1].height <= 1
    ensures Walk(store, header, rank) == Ok(true)
    decreases |path|
  {
    if header.height > 1 {
      assert LinksTo(store, path[0], path[1]);
      var tail := path[1..];
      forall i | 0 <= i < |tail| - 1
        ensures LinksTo(store, tail[i], tail[i + 1])
      {
        var j := i + 1;
        assert LinksTo(store, path[j], path[j + 1]);
      }
      WalkStopsAtStart(store, path[1], rank, tail);
    }
  }

  // A stored link passes reachability on to the child.
  lemma ChildReachesStart(store: Store, child: Header, parent: Header)
    requires LinksTo(store, child, parent) && ReachesStart(store, parent)
    ensures ReachesStart(store, child)
  {
    var path: seq<Header> :| Linked(store, path) && path[0] == parent && path[|path| - 1].height <= 1;
    var longer := [child] + path;
    forall i | 0 <= i < |longer| - 1
      ensures LinksTo(store, longer[i], longer[i + 1])
    {
      if i > 0 {
        assert LinksTo(store, path[i - 1], path[i - 1 + 1]);
      }
    }
    assert longer[|longer| - 1] == path[|path| - 1];
  }

  /** HasAllAncestors answers true exactly for the headers from which stored links lead to height 1 or below. */
  lemma {:induction false} WalkFindsStart(store: Store, header: Header, rank: Header -> nat)
    requires Ranked(store, rank) && RankedAt(store, rank, header)
    ensures Walk(store, header, rank) == Ok(true) <==> ReachesStart(store, header)
    decreases rank(header)
  {
    if ReachesStart(store, header) {
      var path: seq<Header> :| Linked(store, path) && path[0] == header && path[|path| - 1].height <= 1;
      WalkStopsAtStart(store, header, rank, path);
    }
    if Walk(store, header, rank) == Ok(true) {
      if header.height <= 1 {
        assert Linked(store, [header]);
      } else {
        var parent := store[header.prevBlockHash];
        WalkFindsStart(store, parent, rank);
        ChildReachesStart(store, header, parent);
      }
    }
  }

  // Where a walk cannot go on: the link is not a hash, or no header is stored under it.
  predicate StuckAt(store: Store, x: Header, r: Result<bool, StoreError>) {
    && x.height > 1
    && match r
       case Ok(all) => !all && |x.prevBlockHash| == 32 && x.prevBlockHash !in store
       case Err(e) => e == InvalidHash && |x.prevBlockHash| != 32
  }

  // Following stored links from a header, without coming to height 1, ends where a walk is stuck with that answer.
  ghost predicate EndsStuck(store: Store, header: Header, r: Result<bool, StoreError>) {
    exists path: seq<Header> ::
      && Linked(store, path) && path[0] == header && StuckAt(store, path[|path| - 1], r)
      && forall i :: 0 <= i < |path| ==> path[i].height > 1
  }

  lemma {:induction false} WalkGetsStuck(store: Store, header: Header, rank: Header -> nat, path: seq<Header>,
                                         r: Result<bool, StoreError>)
    requires Ranked(store, rank) && RankedAt(store, rank, header)
    requires Linked(store, path) && path[0] == header && StuckAt(store, path[|path| - 1], r)
    requires forall i :: 0 <= i < |path| ==> path[i].height > 1
    ensures Walk(store, header, rank) == r
    decreases |path|
  {
    if |path| > 1 {
      assert LinksTo(store, path[0], path[0 + 1]);
      var tail := path[1..];
      forall i | 0 <= i < |tail| - 1
        ensures LinksTo(store, tail[i], tail[i + 1])
      {
        var j := i + 1;
        assert LinksTo(store, path[j], path[j + 1]);
      }
      WalkGetsStuck(store, path[1], rank, tail, r);
    }
  }

  lemma ChildEndsStuck(store: Store, child: Header, parent: Header, r: Result<bool, StoreError>)
    requires LinksTo(store, child, parent) && child.height > 1 && EndsStuck(store, parent, r)
    ensures EndsStuck(store, child, r)
  {
    var path: seq<Header> :|
      && Linked(store, path) && path[0] == parent && StuckAt(store, path[|path| - 1], r)
      && forall i :: 0 <= i < |path| ==> path[i].height > 1;
    var longer := [child] + path;
    forall i | 0 <= i < |longer| - 1
      ensures LinksTo(store, longer[i], longer[i + 1])
    {
      if i > 0 {
        assert LinksTo(store, path[i - 1], path[i - 1 + 1]);
      }
    }
    assert longer[|longer| - 1] == path[|path| - 1];
  }

  /** The other answers: false exactly when the stored links end at an unknown parent, and an error exactly when they
      end at a link that is not 32 bytes long. */
  lemma {:induction false} WalkEndsIff(store: Store, header: Header, rank: Header -> nat, r: Result<bool, StoreError>)
    requires Ranked(store, rank) && RankedAt(store, rank, header) && r != Ok(true)
    ensures Walk(store, header, rank) == r <==> EndsStuck(store, header, r)
    decreases rank(header)
  {
    if EndsStuck(store, header, r) {
      var path: seq<Header> :|
        && Linked(store, path) && path[0] == header && StuckAt(store, path[|path| - 1], r)
        && forall i :: 0 <= i < |path| ==> path[i].height > 1;
      WalkGetsStuck(store, header, rank, path, r);
    }
    if Walk(store, header, rank) == r {
      if |header.prevBlockHash| == 32 && header.prevBlockHash in store {
        var parent := store[header.prevBlockHash];
        WalkEndsIff(store, parent, rank, r);
        ChildEndsStuck(store, header, parent, r);
      } else {
        assert Linked(store, [header]) && StuckAt(store, [header][0], r);
      }
    }
  }

  // ----- One hash-linked chain -----

  // A chain of headers by height, for all heights there are: consecutive headers are linked, and no two share a hash.
  ghost predicate HashLinked(chain: nat -> Header) {
    && (forall g: nat :: ChainedAt(chain, g))
    && (forall f: nat, g: nat :: Distinct(chain, f, g))
  }

  ghost predicate ChainedAt(chain: nat -> Header, g: nat) {
    && (g < TWO_TO_THE_32 ==> chain(g).height == g)
    && (g + 1 < TWO_TO_THE_32 ==> chain(g + 1).prevBlockHash == chain(g).hash)
  }

  ghost predicate Distinct(chain: nat -> Header, f: nat, g: nat) {
    f < TWO_TO_THE_32 && g < TWO_TO_THE_32 && chain(f).hash == chain(g).hash ==> f == g
  }

  ghost predicate FromChain(chain: nat -> Header, x: Header) {
    x == chain(x.height)
  }

  // The store holds headers of the chain, each under its hash.
  ghost predicate StoresChain(store: Store, chain: nat -> Header) {
    forall k: Hash :: k in store ==> FromChain(chain, store[k]) && store[k].hash == k
  }

  // The chain whose header at height g has the hash given for g.
  ghost function ChainOf(hashOf: nat -> Hash): nat -> Header {
    (g: nat) => Header(hashOf(g), if g == 0 then [] else hashOf(g - 1), if g < TWO_TO_THE_32 then g else 0)
  }

  ghost predicate NoCollisionBelow(hashOf: nat -> Hash, f: nat, g: nat) {
    f < TWO_TO_THE_32 && g < TWO_TO_THE_32 && hashOf(f) == hashOf(g) ==> f == g
  }

  lemma ChainOfIsHashLinked(hashOf: nat -> Hash)
    requires forall f: nat, g: nat :: NoCollisionBelow(hashOf, f, g)
    ensures HashLinked(ChainOf(hashOf))
  {
    forall g: nat
      ensures ChainedAt(ChainOf(hashOf), g)
    {
      ChainOfIsLinked(hashOf, g);
    }
    forall f: nat, g: nat
      ensures Distinct(ChainOf(hashOf), f, g)
    {
      assert NoCollisionBelow(hashOf, f, g);
    }
  }

  lemma ChainOfIsLinked(hashOf: nat -> Hash, g: nat)
    ensures ChainedAt(ChainOf(hashOf), g)
  {
    var chain, next := ChainOf(hashOf), g + 1;
    assert chain(g).hash == hashOf(g);
    assert chain(next).prevBlockHash == hashOf(g);
  }

  function NumberHash(g: nat): Hash { LE(g, 32) }

  /** There are hash-linked chains. */
  lemma HashLinkedChainsExist()
    ensures exists chain :: HashLinked(chain)
  {
    forall f: nat, g: nat
      ensures NoCollisionBelow(NumberHash, f, g)
    {
      if f < TWO_TO_THE_32 && g < TWO_TO_THE_32 {
        NumberFits(f);
        NumberFits(g);
      }
    }
    ChainOfIsHashLinked(NumberHash);
  }

  lemma NumberFits(g: nat)
    requires g < TWO_TO_THE_32
    ensures FromLE(NumberHash(g)) == g
  {
    Pow256Values();
    Pow256Grows(4, 32);
    LERoundTrip(g, 32);
  }

  lemma ChainIsRanked(store: Store, chain: nat -> Header)
    requires HashLinked(chain) && StoresChain(store, chain)
    ensures Ranked(store, (x: Header) => x.height)
  {
    forall k: Hash | k in store
      ensures RankedAt(store, (x: Header) => x.height, store[k])
    {
      var child := store[k];
      if child.height > 1 && child.prevBlockHash in store {
        var parent := store[child.prevBlockHash];
        assert ChainedAt(chain, child.height - 1);
        assert FromChain(chain, parent) && FromChain(chain, child);
        assert Distinct(chain, parent.height, child.height - 1);
      }
    }
  }

  // In a contiguous store of one chain every stored header reaches the start.
  lemma {:induction false} ContiguousReachesStart(store: Store, chain: nat -> Header, g: nat)
    requires HashLinked(chain) && StoresChain(store, chain) && Contiguous(store)
    requires HeightStored(store, g)
    ensures ReachesStart(store, chain(g))
    decreases g
  {
    var k: Hash :| k in store && store[k].height == g;
    assert FromChain(chain, store[k]);
    if g <= 1 {
      assert Linked(store, [chain(g)]);
    } else {
      assert HeightStored(store, g - 1);
      ContiguousReachesStart(store, chain, g - 1);
      var j: Hash :| j in store && store[j].height == g - 1;
      assert FromChain(chain, store[j]);
      assert ChainedAt(chain, g - 1);
      ChildReachesStart(store, chain(g), chain(g - 1));
    }
  }
}
