/** The two header repositories: a map in memory, and a table with unique hashes and heights. */
module HeaderStores {
  import opened Basics
  import opened Headers
  import opened Locator

  // A locator of a tip over the headers stored: the tip's hash, then that of some stored header at each height.
  ghost predicate IsLocator(stored: set<Header>, tip: Header, locator: seq<Hash>) {
    var v := LocatorHeights(tip.height);
    && |locator| == 1 + |v| && locator[0] == tip.hash
    && forall i :: 0 <= i < |v| ==> HasHashAt(stored, v[i], locator[i + 1])
  }

  ghost predicate HasHashAt(stored: set<Header>, height: uint32, hash: Hash) {
    exists x :: x in stored && x.height == height && x.hash == hash
  }

  ghost predicate HasHeight(stored: set<Header>, height: uint32) {
    exists x :: x in stored && x.height == height
  }

  // Some height that the locator of a tip visits has no stored header.
  ghost predicate MissesHeight(stored: set<Header>, tip: Header) {
    exists i :: 0 <= i < |LocatorHeights(tip.height)| && !HasHeight(stored, LocatorHeights(tip.height)[i])
  }

  ghost predicate UniqueHeights(stored: set<Header>) {
    forall x, y :: x in stored && y in stored && x.height == y.height ==> x == y
  }

  // The answer of an ancestor walk: true if it comes down to the start, false for an unknown parent, else an error.
  ghost predicate AncestorAnswer(store: Store, header: Header, r: Result<bool, StoreError>) {
    && (r == Ok(true) <==> ReachesStart(store, header))
    && (r == Ok(false) <==> EndsStuck(store, header, Ok(false)))
    && (r.Err? <==> EndsStuck(store, header, Err(InvalidHash)))
    && (r.Err? ==> r.error == InvalidHash)
  }

  // In a contiguous store every height a locator visits is found.
  lemma ContiguousHasVisited(store: Store, tip: Header)
    requires Contiguous(store) && IsTip(store, tip)
    ensures !MissesHeight(store.Values, tip)
  {
    var v := LocatorHeights(tip.height);
    VisitedInRange(tip.height);
    var k: Hash :| k in store && store[k] == tip;
    forall i | 0 <= i < |v|
      ensures HasHeight(store.Values, v[i])
    {
      assert HeightStored(store, v[i]);
      var j: Hash :| j in store && store[j].height == v[i];
      assert store[j] in store.Values;
    }
  }

  // With unique heights a tip has one locator, so any two repositories holding the same headers agree on it.
  lemma LocatorIsUnique(stored: set<Header>, tip: Header, a: seq<Hash>, b: seq<Hash>)
    requires UniqueHeights(stored) && IsLocator(stored, tip, a) && IsLocator(stored, tip, b)
    ensures a == b
  {
    var v := LocatorHeights(tip.height);
    forall i | 0 <= i < |a|
      ensures a[i] == b[i]
    {
      if i > 0 {
        assert HasHashAt(stored, v[i - 1], a[i - 1 + 1]) && HasHashAt(stored, v[i - 1], b[i - 1 + 1]);
      }
    }
  }

  lemma TipIsUnique(store: Store, a: Header, b: Header)
    requires UniqueHeights(store.Values) && IsTip(store, a) && IsTip(store, b)
    ensures a == b
  {
    var j: Hash :| j in store && store[j] == a;
    var k: Hash :| k in store && store[k] == b;
    assert a in store.Values && b in store.Values;
  }

  /** Two repositories that hold the same headers, with unique heights, build the same latest locator, whatever order
      they go through the headers in. */
  lemma LatestLocatorsAgree(one: Store, two: Store, tipOne: Header, tipTwo: Header, a: seq<Hash>, b: seq<Hash>)
    requires one.Values == two.Values && UniqueHeights(one.Values)
    requires IsTip(one, tipOne) && IsLocator(one.Values, tipOne, a)
    requires IsTip(two, tipTwo) && IsLocator(two.Values, tipTwo, b)
    ensures a == b
  {
    var k: Hash :| k in two && two[k] == tipTwo;
    assert tipTwo in one.Values;
    forall j: Hash | j in one
      ensures one[j].height <= tipTwo.height
    {
      assert one[j] in two.Values;
    }
    TipIsUnique(one, tipOne, tipTwo);
    LocatorIsUnique(one.Values, tipOne, a, b);
  }

  // A locator loop half-way: hashes are in for the heights visited, v[|locator| - 1..] are still to come.
  ghost predicate LocatorSoFar(stored: set<Header>, tip: Header, locator: seq<Hash>, height: uint32,
                               decrement: uint32) {
    var v := LocatorHeights(tip.height);
    && 1 <= |locator| <= 1 + |v| && locator[0] == tip.hash
    && v[|locator| - 1..] == Visit(height, decrement, |locator|)
    && forall i :: 0 <= i < |locator| - 1 ==> HasHashAt(stored, v[i], locator[i + 1])
  }

  // The next height of the loop is one of the locator's.
  lemma LocatorVisits(stored: set<Header>, tip: Header, locator: seq<Hash>, height: uint32, decrement: uint32)
    requires LocatorSoFar(stored, tip, locator, height, decrement)
    requires height > 0 && |locator| < MAX_BLOCK_LOCATORS_PER_MSG
    ensures |locator| <= |LocatorHeights(tip.height)| && LocatorHeights(tip.height)[|locator| - 1] == height
  {
    var v, n := LocatorHeights(tip.height), |locator| - 1;
    assert v[n..][0] == height;
  }

  // One round of a locator loop.
  lemma LocatorGrows(stored: set<Header>, tip: Header, locator: seq<Hash>, height: uint32, decrement: uint32,
                     hash: Hash)
    requires LocatorSoFar(stored, tip, locator, height, decrement)
    requires height > 0 && |locator| < MAX_BLOCK_LOCATORS_PER_MSG && HasHashAt(stored, height, hash)
    ensures LocatorSoFar(stored, tip, locator + [hash],
                         NextHeight(height, decrement), NextDecrement(decrement, |locator|))
  {
    LocatorVisits(stored, tip, locator, height, decrement);
    var v, n := LocatorHeights(tip.height), |locator| - 1;
    assert v[n + 1..] == v[n..][1..];
  }

  // The end of a locator loop.
  lemma LocatorEnds(stored: set<Header>, tip: Header, locator: seq<Hash>, height: uint32, decrement: uint32)
    requires LocatorSoFar(stored, tip, locator, height, decrement)
    requires height == 0 || |locator| >= MAX_BLOCK_LOCATORS_PER_MSG
    ensures IsLocator(stored, tip, locator)
    ensures !MissesHeight(stored, tip)
  {
    var v := LocatorHeights(tip.height);
    assert v[|locator| - 1..] == [];
    forall i | 0 <= i < |v|
      ensures HasHeight(stored, v[i])
    {
      assert HasHashAt(stored, v[i], locator[i + 1]);
    }
  }

  class HeaderInmemory {
    var headers: Store

    constructor ()
      ensures headers == map[]
    {
      headers := map[];
    }

    method ChainTip() returns (r: Result<Header, StoreError>)
      ensures r == Err(NoBlocksHeaders) <==> headers == map[]
      ensures r.Err? ==> r.error == NoBlocksHeaders
      ensures r.Ok? ==> IsTip(headers, r.value)
    {
      if |headers| == 0 {
        return Err(NoBlocksHeaders);
      }
      var tip: Option<Header> := None;
      var rest := headers.Keys;
      while rest != {}
        invariant rest <= headers.Keys
        invariant tip.None? ==> rest == headers.Keys
        invariant tip.Some? ==> exists k: Hash :: k in headers && headers[k] == tip.value
        invariant forall k: Hash :: k in headers && k !in rest ==> tip.Some? && headers[k].height <= tip.value.height
        decreases |rest|
      {
        var k :| k in rest;
        rest := rest - {k};
        if tip.None? || headers[k].height > tip.value.height {
          tip := Some(headers[k]);
        }
      }
      r := Ok(tip.value);
    }

    // A header is found under its own hash, provided that writing kept the map keyed by hashes.
    method GetBlockHeader(hash: Hash) returns (r: Result<Header, StoreError>)
      ensures r == Lookup(headers, hash)
      ensures KeyedByHash(headers) ==> (r.Ok? <==> exists x :: x in headers.Values && x.hash == hash)
      ensures KeyedByHash(headers) && r.Ok? ==> r.value.hash == hash
    {
      if hash !in headers {
        return Err(BlockNotFound);
      }
      r := Ok(headers[hash]);
    }

    method GetBlockHeaderByHeight(height: uint32) returns (r: Result<Header, StoreError>)
      ensures r.Ok? ==> r.value in headers.Values && r.value.height == height
      ensures r.Err? ==> r.error == BlockNotFound && !HasHeight(headers.Values, height)
    {
      var rest := headers.Keys;
      while rest != {}
        invariant rest <= headers.Keys
        invariant forall k: Hash :: k in headers && k !in rest ==> headers[k].height != height
        decreases |rest|
      {
        var k :| k in rest;
        rest := rest - {k};
        if headers[k].height == height {
          return Ok(headers[k]);
        }
      }
      r := Err(BlockNotFound);
    }

    // Each key is bound to the address of one loop variable, so after the loop all of them hold the last header.
    method WriteHeaders(written: seq<Header>)
      modifies this
      ensures headers == old(headers) + WrittenMap(written)
    {
      var keys: set<Hash> := {};
      for i := 0 to |written|
        invariant keys == set x | x in written[..i] :: x.hash
      {
        assert written[..i + 1] == written[..i] + [written[i]];
        keys := keys + {written[i].hash};
      }
      assert written[..|written|] == written;
      if |written| > 0 {
        headers := headers + map k | k in keys :: written[|written| - 1];
      }
    }

    method LatestBlockLocator() returns (r: Result<seq<Hash>, StoreError>)
      ensures headers == map[] <==> r == Err(NoBlocksHeaders)
      ensures headers != map[] && Contiguous(headers) ==> r.Ok?
      ensures r.Ok? ==> exists tip :: IsTip(headers, tip) && IsLocator(headers.Values, tip, r.value)
    {
      var tip := ChainTip();
      if tip.Err? {
        return Err(tip.error);
      }
      r := BlockLocatorFromHash(tip.value);
      if Contiguous(headers) {
        ContiguousHasVisited(headers, tip.value);
      }
    }

    // One round of the locator loop.
    method AppendHashAt(block: Header, locator: seq<Hash>, height: uint32, decrement: uint32)
      returns (r: Result<seq<Hash>, StoreError>)
      requires LocatorSoFar(headers.Values, block, locator, height, decrement)
      requires height > 0 && |locator| < MAX_BLOCK_LOCATORS_PER_MSG
      ensures r.Ok? ==> |r.value| == |locator| + 1
                        && LocatorSoFar(headers.Values, block, r.value,
                                        NextHeight(height, decrement), NextDecrement(decrement, |locator|))
      ensures r.Err? ==> r.error == BlockNotFound && MissesHeight(headers.Values, block)
    {
      LocatorVisits(headers.Values, block, locator, height, decrement);
      var header := GetBlockHeaderByHeight(height);
      if header.Err? {
        return Err(header.error);
      }
      assert HasHashAt(headers.Values, height, header.value.hash);
      LocatorGrows(headers.Values, block, locator, height, decrement, header.value.hash);
      r := Ok(locator + [header.value.hash]);
    }

    method BlockLocatorFromHash(block: Header) returns (r: Result<seq<Hash>, StoreError>)
      ensures r.Ok? <==> !MissesHeight(headers.Values, block)
      ensures r.Ok? ==> IsLocator(headers.Values, block, r.value)
      ensures r.Err? ==> r.error == BlockNotFound
    {
      var locator := [block.hash];
      if block.height == 0 {
        return Ok(locator);
      }
      var height: uint32, decrement: uint32 := block.height, 1;
      while height > 0 && |locator| < MAX_BLOCK_LOCATORS_PER_MSG
        invariant LocatorSoFar(headers.Values, block, locator, height, decrement)
        decreases MAX_BLOCK_LOCATORS_PER_MSG - |locator|
      {
        var longer := AppendHashAt(block, locator, height, decrement);
        if longer.Err? {
          return longer;
        }
        ghost var nextHeight, nextDecrement := NextHeight(height, decrement), NextDecrement(decrement, |locator|);
        locator := longer.value;
        if decrement > height {
          height := 0;
        } else {
          height := height - decrement;
        }
        if |locator| > 10 {
          decrement := Wrap32(decrement * 2);
        }
        assert height == nextHeight && decrement == nextDecrement;
      }
      LocatorEnds(headers.Values, block, locator, height, decrement);
      r := Ok(locator);
    }

    // The ghost rank only makes the walk's end provable; cyclic links would keep the loop going.
    method HasAllAncestors(hash: Hash, ghost rank: Header -> nat) returns (r: Result<bool, StoreError>)
      requires Ranked(headers, rank)
      ensures headers == map[] ==> r == Err(NoBlocksHeaders)
      ensures headers != map[] && hash !in headers ==> r == Err(NilHeader)
      ensures hash in headers ==> r == Walk(headers, headers[hash], rank) && AncestorAnswer(headers, headers[hash], r)
    {
      if |headers| == 0 {
        return Err(NoBlocksHeaders);
      }
      if hash !in headers {
        return Err(NilHeader);
      }
      r := WalkAncestors(headers, headers[hash], rank);
    }
  }

  // What a call writes: under every hash of the call, the last header of the call.
  function WrittenMap(written: seq<Header>): Store {
    var keys := set x | x in written :: x.hash;
    map k | k in keys :: written[|written| - 1]
  }

  function Lookup(store: Store, hash: Hash): Result<Header, StoreError> {
    if hash in store then Ok(store[hash]) else Err(BlockNotFound)
  }

  /** After a call writes several headers, looking one of them up by its hash finds it if and only if it is the last. */
  lemma WrittenIsFoundIff(store: Store, written: seq<Header>, x: Header)
    requires x in written
    ensures Lookup(store + WrittenMap(written), x.hash) == Ok(x) <==> x == written[|written| - 1]
  {
    assert x.hash in WrittenMap(written);
  }

  /** And looking up any other hash finds what it found before. */
  lemma OthersAreFoundAsBefore(store: Store, written: seq<Header>, hash: Hash)
    requires forall x :: x in written ==> x.hash != hash
    ensures Lookup(store + WrittenMap(written), hash) == Lookup(store, hash)
  {
    assert hash !in WrittenMap(written);
  }

  // The loop both repositories run.
  method WalkAncestors(store: Store, from: Header, ghost rank: Header -> nat) returns (r: Result<bool, StoreError>)
    requires Ranked(store, rank) && RankedAt(store, rank, from)
    ensures r == Walk(store, from, rank) && AncestorAnswer(store, from, r)
  {
    var header := from;
    WalkFindsStart(store, from, rank);
    WalkEndsIff(store, from, rank, Ok(false));
    WalkEndsIff(store, from, rank, Err(InvalidHash));
    while header.height > 1
      invariant RankedAt(store, rank, header)
      invariant Walk(store, from, rank) == Walk(store, header, rank)
      decreases rank(header)
    {
      if |header.prevBlockHash| != 32 {
        return Err(InvalidHash);
      }
      if header.prevBlockHash !in store {
        return Ok(false);
      }
      header := store[header.prevBlockHash];
    }
    r := Ok(true);
  }

  // ----- The table -----

  // Heights are stored in a signed 32-bit column.
  const MAX_INT32: int := 0x7FFF_FFFF

  datatype InsertResult = Inserted(rows: seq<Header>) | UniqueViolation | OutOfRange

  // The rows of one transaction: the first row that fails ends it.
  function InsertAll(rows: seq<Header>, written: seq<Header>): InsertResult {
    if written == [] then Inserted(rows) else
      var before := InsertAll(rows, written[..|written| - 1]);
      match before
      case Inserted(now) => InsertOne(now, written[|written| - 1])
      case _ => before
  }

  function InsertOne(rows: seq<Header>, x: Header): InsertResult {
    if x.height > MAX_INT32 then OutOfRange
    else if exists i :: 0 <= i < |rows| && (rows[i].hash == x.hash || rows[i].height == x.height) then UniqueViolation
    else Inserted(rows + [x])
  }

  ghost predicate ValidRows(rows: seq<Header>) {
    && (forall i :: 0 <= i < |rows| ==> rows[i].height <= MAX_INT32)
    && forall i, j :: 0 <= i < j < |rows| ==> rows[i].hash != rows[j].hash && rows[i].height != rows[j].height
  }

  // The table as a map by hash.
  function AsStore(rows: seq<Header>): Store {
    if rows == [] then map[] else
      var last := rows[|rows| - 1];
      AsStore(rows[..|rows| - 1])[last.hash := last]
  }

  function Stored(rows: seq<Header>): set<Header> { set x | x in rows }

  lemma {:induction false} AsStoreHoldsRows(rows: seq<Header>)
    requires ValidRows(rows)
    ensures forall k: Hash :: k in AsStore(rows) ==> AsStore(rows)[k] in rows && AsStore(rows)[k].hash == k
    ensures forall x :: x in rows ==> x.hash in AsStore(rows) && AsStore(rows)[x.hash] == x
  {
    if rows != [] {
      var init, last := rows[..|rows| - 1], rows[|rows| - 1];
      AsStoreHoldsRows(init);
      assert forall x :: x in rows <==> x in init || x == last by {
        assert rows == init + [last];
      }
      forall x | x in init
        ensures x.hash != last.hash
      {
        var i :| 0 <= i < |init| && init[i] == x;
        assert rows[i].hash != rows[|rows| - 1].hash;
      }
      var before, after := AsStore(init), AsStore(rows);
      assert after == before[last.hash := last];
      forall k: Hash | k in after
        ensures after[k] in rows && after[k].hash == k
      {
        assert k != last.hash ==> k in before && after[k] == before[k];
      }
      forall x | x in rows
        ensures x.hash in after && after[x.hash] == x
      {
        assert x != last ==> x.hash in before && before[x.hash] == x;
      }
    }
  }

  lemma AsStoreValues(rows: seq<Header>)
    requires ValidRows(rows)
    ensures AsStore(rows).Values == Stored(rows)
  {
    AsStoreHoldsRows(rows);
    forall x | x in Stored(rows)
      ensures x in AsStore(rows).Values
    {
      assert AsStore(rows)[x.hash] == x;
    }
  }

  lemma {:induction false} InsertKeepsValid(rows: seq<Header>, written: seq<Header>)
    requires ValidRows(rows)
    ensures InsertAll(rows, written).Inserted? ==>
              ValidRows(InsertAll(rows, written).rows) && InsertAll(rows, written).rows == rows + written
  {
    if written != [] {
      InsertKeepsValid(rows, written[..|written| - 1]);
      assert written == written[..|written| - 1] + [written[|written| - 1]];
    }
  }

  lemma {:induction false} ValidPrefix(rows: seq<Header>, n: nat)
    requires n <= |rows| && ValidRows(rows)
    ensures ValidRows(rows[..n])
  {}

  lemma InsertOneIff(rows: seq<Header>, x: Header)
    requires ValidRows(rows)
    ensures InsertOne(rows, x).Inserted? <==> ValidRows(rows + [x])
    ensures InsertOne(rows, x).OutOfRange? <==> x.height > MAX_INT32
  {
    var all := rows + [x];
    if InsertOne(rows, x).UniqueViolation? {
      var i :| 0 <= i < |rows| && (rows[i].hash == x.hash || rows[i].height == x.height);
      assert all[i] == rows[i] && all[|rows|] == x;
    } else if InsertOne(rows, x).OutOfRange? {
      assert all[|rows|] == x;
    }
  }

  /** A call inserts all its headers if and only if that keeps the table valid. */
  lemma {:induction false} InsertAllIff(rows: seq<Header>, written: seq<Header>)
    requires ValidRows(rows)
    ensures InsertAll(rows, written).Inserted? <==> ValidRows(rows + written)
  {
    if written == [] {
      assert rows + written == rows;
    } else {
      var init, last := written[..|written| - 1], written[|written| - 1];
      InsertAllIff(rows, init);
      InsertKeepsValid(rows, init);
      InsertSplit(rows, init, last);
      assert written == init + [last];
    }
  }

  lemma InsertSplit(rows: seq<Header>, before: seq<Header>, x: Header)
    ensures ValidRows(rows + (before + [x]))
       <==> ValidRows(rows + before) && InsertOne(rows + before, x).Inserted?
  {
    var now := rows + before;
    assert rows + (before + [x]) == now + [x] && (now + [x])[..|now|] == now;
    if ValidRows(now) {
      InsertOneIff(now, x);
    } else if ValidRows(now + [x]) {
      ValidPrefix(now + [x], |now|);
    }
  }

  // A header outside the column, after others that could all be inserted.
  ghost predicate RefusedAt(rows: seq<Header>, written: seq<Header>, i: nat)
    requires i < |written|
  {
    ValidRows(rows + written[..i]) && written[i].height > MAX_INT32
  }

  /** It is an error if and only if those before the first header outside the column could all be inserted. */
  lemma {:induction false} InsertFailsIff(rows: seq<Header>, written: seq<Header>)
    requires ValidRows(rows)
    ensures InsertAll(rows, written).OutOfRange? <==> exists i :: 0 <= i < |written| && RefusedAt(rows, written, i)
  {
    if written != [] {
      var init, last := written[..|written| - 1], written[|written| - 1];
      InsertFailsIff(rows, init);
      InsertAllIff(rows, init);
      InsertKeepsValid(rows, init);
      forall i | 0 <= i < |init|
        ensures RefusedAt(rows, written, i) <==> RefusedAt(rows, init, i)
      {
        assert written[..i] == init[..i] && written[i] == init[i];
      }
      if InsertAll(rows, init).Inserted? {
        InsertOneIff(rows + init, last);
        assert RefusedAt(rows, written, |init|) <==> last.height > MAX_INT32;
        NoneOutOfRange(rows, init);
      } else {
        assert !RefusedAt(rows, written, |init|);
      }
    }
  }

  lemma NoneOutOfRange(rows: seq<Header>, written: seq<Header>)
    requires ValidRows(rows + written)
    ensures forall i :: 0 <= i < |written| ==> written[i].height <= MAX_INT32
  {
    forall i | 0 <= i < |written|
      ensures written[i].height <= MAX_INT32
    {
      assert (rows + written)[|rows| + i] == written[i];
    }
  }

  class HeaderTable {
    var rows: seq<Header>

    ghost predicate Valid()
      reads this
    {
      ValidRows(rows)
    }

    constructor ()
      ensures Valid() && rows == []
    {
      rows := [];
    }

    method ChainTip() returns (r: Result<Header, StoreError>)
      requires Valid()
      ensures r == Err(NoBlocksHeaders) <==> rows == []
      ensures r.Err? ==> r.error == NoBlocksHeaders
      ensures r.Ok? ==> r.value in rows && forall x :: x in rows ==> x.height <= r.value.height
    {
      if |rows| == 0 {
        return Err(NoBlocksHeaders);
      }
      var tip := rows[0];
      for i := 1 to |rows|
        invariant tip in rows && forall j :: 0 <= j < i ==> rows[j].height <= tip.height
      {
        if rows[i].height > tip.height {
          tip := rows[i];
        }
      }
      r := Ok(tip);
    }

    // A known hash or height rolls the whole call back and still reports success.
    method WriteHeaders(written: seq<Header>) returns (r: Result<(), StoreError>)
      requires Valid()
      modifies this
      ensures Valid()
      ensures r == (if InsertAll(old(rows), written).OutOfRange? then Err(WriteRejected) else Ok(()))
      ensures rows == if InsertAll(old(rows), written).Inserted? then old(rows) + written else old(rows)
    {
      var pending := rows;
      InsertKeepsValid(rows, written);
      for i := 0 to |written|
        invariant rows == old(rows) && InsertAll(rows, written[..i]) == Inserted(pending)
      {
        assert written[..i + 1][..i] == written[..i];
        var one := InsertOne(pending, written[i]);
        if !one.Inserted? {
          RefusedStaysRefused(rows, written, i + 1);
          if one.UniqueViolation? {
            return Ok(());
          }
          return Err(WriteRejected);
        }
        pending := one.rows;
      }
      assert written[..|written|] == written;
      rows := pending;
      r := Ok(());
    }

    method LatestBlockLocator() returns (r: Result<seq<Hash>, StoreError>)
      requires Valid()
      ensures rows == [] <==> r == Err(NoBlocksHeaders)
      ensures rows != [] && Contiguous(AsStore(rows)) ==> r.Ok?
      ensures r.Ok? ==> exists tip :: IsTip(AsStore(rows), tip) && IsLocator(Stored(rows), tip, r.value)
    {
      AsStoreHoldsRows(rows);
      var tip := ChainTip();
      if tip.Err? {
        return Err(tip.error);
      }
      assert IsTip(AsStore(rows), tip.value);
      r := BlockLocatorFromHash(tip.value);
      if Contiguous(AsStore(rows)) {
        AsStoreValues(rows);
        ContiguousHasVisited(AsStore(rows), tip.value);
      }
    }

    // One round of the locator loop. A height missing from the map is a nil header.
    method AppendHashAt(headersMap: map<uint32, Header>, block: Header, locator: seq<Hash>, height: uint32,
                        decrement: uint32)
      returns (r: Result<seq<Hash>, StoreError>)
      requires forall g :: g in headersMap ==> headersMap[g] in rows && headersMap[g].height == g
      requires forall x :: x in rows ==> x.height in headersMap
      requires LocatorSoFar(Stored(rows), block, locator, height, decrement)
      requires height > 0 && |locator| < MAX_BLOCK_LOCATORS_PER_MSG
      ensures r.Ok? ==> |r.value| == |locator| + 1
                        && LocatorSoFar(Stored(rows), block, r.value,
                                        NextHeight(height, decrement), NextDecrement(decrement, |locator|))
      ensures r.Err? ==> r.error == NilHeader && MissesHeight(Stored(rows), block)
    {
      LocatorVisits(Stored(rows), block, locator, height, decrement);
      if height !in headersMap {
        assert !HasHeight(Stored(rows), height);
        return Err(NilHeader);
      }
      var hash := headersMap[height].hash;
      assert headersMap[height] in Stored(rows);
      assert HasHashAt(Stored(rows), height, hash);
      LocatorGrows(Stored(rows), block, locator, height, decrement, hash);
      r := Ok(locator + [hash]);
    }

    method BlockLocatorFromHash(block: Header) returns (r: Result<seq<Hash>, StoreError>)
      requires Valid()
      ensures r.Ok? <==> !MissesHeight(Stored(rows), block)
      ensures r.Ok? ==> IsLocator(Stored(rows), block, r.value)
      ensures r.Err? ==> r.error == NilHeader
    {
      var headersMap := ByHeight();
      var locator := [block.hash];
      if block.height == 0 {
        return Ok(locator);
      }
      var height: uint32, decrement: uint32 := block.height, 1;
      while height > 0 && |locator| < MAX_BLOCK_LOCATORS_PER_MSG
        invariant LocatorSoFar(Stored(rows), block, locator, height, decrement)
        decreases MAX_BLOCK_LOCATORS_PER_MSG - |locator|
      {
        var longer := AppendHashAt(headersMap, block, locator, height, decrement);
        if longer.Err? {
          return longer;
        }
        ghost var nextHeight, nextDecrement := NextHeight(height, decrement), NextDecrement(decrement, |locator|);
        locator := longer.value;
        if decrement > height {
          height := 0;
        } else {
          height := height - decrement;
        }
        if |locator| > 10 {
          decrement := Wrap32(decrement * 2);
        }
        assert height == nextHeight && decrement == nextDecrement;
      }
      LocatorEnds(Stored(rows), block, locator, height, decrement);
      r := Ok(locator);
    }

    method ByHeight() returns (m: map<uint32, Header>)
      requires Valid()
      ensures forall g :: g in m ==> m[g] in rows && m[g].height == g
      ensures forall x :: x in rows ==> x.height in m
    {
      m := map[];
      for i := 0 to |rows|
        invariant forall g :: g in m ==> m[g] in rows && m[g].height == g
        invariant forall j :: 0 <= j < i ==> rows[j].height in m
      {
        m := m[rows[i].height := rows[i]];
      }
    }

    // Unlike the in-memory walk, an unknown hash is an error of its own, and an empty table is no special case.
    method HasAllAncestors(hash: Hash, ghost rank: Header -> nat) returns (r: Result<bool, StoreError>)
      requires Valid() && Ranked(AsStore(rows), rank)
      ensures hash !in AsStore(rows) ==> r == Err(BlockNotFound)
      ensures hash in AsStore(rows) ==>
                r == Walk(AsStore(rows), AsStore(rows)[hash], rank)
                  && AncestorAnswer(AsStore(rows), AsStore(rows)[hash], r)
    {
      var headersMap: Store := map[];
      var blockHeader: Option<Header> := None;
      AsStoreHoldsRows(rows);
      for i := 0 to |rows|
        invariant headersMap == AsStore(rows[..i])
        invariant blockHeader == if hash in headersMap then Some(headersMap[hash]) else None
      {
        assert rows[..i + 1][..i] == rows[..i];
        headersMap := headersMap[rows[i].hash := rows[i]];
        if rows[i].hash == hash {
          blockHeader := Some(rows[i]);
        }
      }
      assert rows[..|rows|] == rows;
      if blockHeader.None? {
        return Err(BlockNotFound);
      }
      r := WalkAncestors(headersMap, blockHeader.value, rank);
    }
  }

  lemma {:induction false} RefusedStaysRefused(rows: seq<Header>, written: seq<Header>, n: nat)
    requires n <= |written| && !InsertAll(rows, written[..n]).Inserted?
    ensures InsertAll(rows, written) == InsertAll(rows, written[..n])
    decreases |written| - n
  {
    if n < |written| {
      assert written[..n + 1][..n] == written[..n];
      RefusedStaysRefused(rows, written, n + 1);
    } else {
      assert written[..n] == written;
    }
  }

  lemma EmptyTable(rows: seq<Header>)
    requires ValidRows(rows)
    ensures AsStore(rows) == map[] <==> rows == []
  {
    AsStoreHoldsRows(rows);
    if rows != [] {
      assert rows[0] in rows && rows[0].hash in AsStore(rows);
    }
  }

  /** Either repository, behind the interface that the node works with. */
  datatype Repository = InMemory(db: HeaderInmemory) | Table(table: HeaderTable)
  {
    ghost function Objects(): set<object> { if InMemory? then {db} else {table} }

    ghost predicate Valid()
      reads Objects()
    {
      Table? ==> table.Valid()
    }

    ghost function Contents(): Store
      reads Objects()
    {
      match this
      case InMemory(db) => db.headers
      case Table(table) => AsStore(table.rows)
    }

    method ChainTip() returns (r: Result<Header, StoreError>)
      requires Valid()
      ensures r == Err(NoBlocksHeaders) <==> Contents() == map[]
      ensures r.Err? ==> r.error == NoBlocksHeaders
      ensures r.Ok? ==> IsTip(Contents(), r.value)
    {
      match this {
        case InMemory(db) =>
          r := db.ChainTip();
        case Table(table) =>
          AsStoreHoldsRows(table.rows);
          EmptyTable(table.rows);
          r := table.ChainTip();
      }
    }

    method HasAllAncestors(hash: Hash, ghost rank: Header -> nat) returns (r: Result<bool, StoreError>)
      requires Valid() && Ranked(Contents(), rank)
      ensures hash in Contents() ==>
                r == Walk(Contents(), Contents()[hash], rank) && AncestorAnswer(Contents(), Contents()[hash], r)
      ensures hash !in Contents() ==> r.Err?
    {
      match this {
        case InMemory(db) => r := db.HasAllAncestors(hash, rank);
        case Table(table) => r := table.HasAllAncestors(hash, rank);
      }
    }

    method LatestBlockLocator() returns (r: Result<seq<Hash>, StoreError>)
      requires Valid()
      ensures Contents() == map[] <==> r == Err(NoBlocksHeaders)
      ensures Contents() != map[] && Contiguous(Contents()) ==> r.Ok?
      ensures r.Ok? ==> exists tip :: IsTip(Contents(), tip) && IsLocator(Contents().Values, tip, r.value)
    {
      match this {
        case InMemory(db) =>
          r := db.LatestBlockLocator();
        case Table(table) =>
          EmptyTable(table.rows);
          AsStoreValues(table.rows);
          r := table.LatestBlockLocator();
      }
    }
  }

  // ----- What writing keeps -----

  ghost predicate KeyedByHash(store: Store) {
    forall k: Hash :: k in store ==> store[k].hash == k
  }

  /** Writing several headers in one in-memory call binds every one of their hashes to the last, so the map stays
      keyed by hash if and only if all the headers of the call share one hash. The node writes one per call. */
  lemma WriteKeepsKeysIff(store: Store, written: seq<Header>)
    requires KeyedByHash(store)
    ensures KeyedByHash(store + WrittenMap(written))
       <==> forall x, y :: x in written && y in written ==> x.hash == y.hash
  {
    var after := store + WrittenMap(written);
    if written != [] {
      var last := written[|written| - 1];
      assert last in written;
      if KeyedByHash(after) {
        forall x | x in written
          ensures x.hash == last.hash
        {
          assert x.hash in WrittenMap(written);
          assert after[x.hash] == last;
        }
      }
    }
  }

  lemma RefusedIsKnown(rows: seq<Header>, x: Header)
    requires ValidRows(rows) && InsertOne(rows, x).UniqueViolation?
    ensures x.hash in AsStore(rows) || exists k: Hash :: k in AsStore(rows) && AsStore(rows)[k].height == x.height
  {
    AsStoreHoldsRows(rows);
    var i :| 0 <= i < |rows| && (rows[i].hash == x.hash || rows[i].height == x.height);
    assert rows[i] in rows && AsStore(rows)[rows[i].hash] == rows[i];
  }

  lemma AcceptedIsNew(rows: seq<Header>, x: Header)
    requires ValidRows(rows) && InsertOne(rows, x).Inserted?
    ensures x.hash !in AsStore(rows) && forall k: Hash :: k in AsStore(rows) ==> AsStore(rows)[k].height != x.height
  {
    AsStoreHoldsRows(rows);
  }

  /** One header written to both repositories leaves them holding the same headers exactly when the table did not
      refuse a header that the map took: its height fits the column, and no other header has its height. */
  lemma WritesAgreeIff(rows: seq<Header>, x: Header)
    requires ValidRows(rows)
    requires forall y :: y in rows && y.hash == x.hash ==> y == x
    ensures var one := InsertOne(rows, x);
            AsStore(if one.Inserted? then one.rows else rows) == AsStore(rows)[x.hash := x]
            <==> x in rows || (x.height <= MAX_INT32 && forall y :: y in rows ==> y.height != x.height)
  {
    var store := AsStore(rows);
    AsStoreHoldsRows(rows);
    if InsertOne(rows, x).Inserted? {
      assert (rows + [x])[..|rows|] == rows;
      AcceptedIsNew(rows, x);
    } else if x in rows {
      assert store[x.hash := x] == store;
    } else {
      assert x.hash !in store && x.hash in store[x.hash := x];
      if InsertOne(rows, x).UniqueViolation? {
        RefusedIsKnown(rows, x);
      }
    }
  }
}
