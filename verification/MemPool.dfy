/** The pool of unconfirmed transactions. */
module MemPool {
  import opened Basics

  type TxId = string

  // A transaction and the hash it has; copies of one hash may differ in witness data.
  datatype Tx = Tx(hash: TxId, raw: bytes)

  datatype TxEvent = TxConfirmed(txID: TxId, tx: Tx) | TxUnConfirmed(txID: TxId, tx: Tx)

  // The events of a block for the pool hashes given: one per block transaction with such a hash.
  function Confirmations(pool: set<TxId>, block: seq<Tx>): multiset<TxEvent> {
    if block == [] then multiset{} else
      var init, last := block[..|block| - 1], block[|block| - 1];
      if last.hash in pool then Confirmations(pool, init) + multiset{TxConfirmed(last.hash, last)}
      else Confirmations(pool, init)
  }

  function BlockHashes(block: seq<Tx>): set<TxId> { set tx | tx in block :: tx.hash }

  function Purged(txs: map<TxId, Tx>, k: TxId, hashes: set<TxId>): map<TxId, Tx> {
    if k in hashes then txs - {k} else txs
  }

  // The events of different pool transactions add up.
  lemma {:induction false} ConfirmationsAdd(pool: set<TxId>, k: TxId, block: seq<Tx>)
    requires k !in pool
    ensures Confirmations(pool + {k}, block) == Confirmations(pool, block) + Confirmations({k}, block)
  {
    if block != [] {
      ConfirmationsAdd(pool, k, block[..|block| - 1]);
    }
  }

  /** How often an event goes out: as often as the block holds that very transaction, if its hash is pooled. */
  lemma {:induction false} ConfirmationCount(pool: set<TxId>, block: seq<Tx>, e: TxEvent)
    ensures Confirmations(pool, block)[e]
         == if e.TxConfirmed? && e.txID == e.tx.hash && e.txID in pool then multiset(block)[e.tx] else 0
  {
    if block != [] {
      var init, last := block[..|block| - 1], block[|block| - 1];
      ConfirmationCount(pool, init, e);
      assert block == init + [last];
      assert multiset(block) == multiset(init) + multiset{last};
    }
  }

  // The pool after its transaction k is compared with each of a block's.
  function Compared(txs: map<TxId, Tx>, k: TxId, block: seq<Tx>): map<TxId, Tx> {
    if block == [] then txs else
      var init, last := block[..|block| - 1], block[|block| - 1];
      if last.hash == k then Compared(txs, k, init) - {k} else Compared(txs, k, init)
  }

  lemma {:induction false} ComparedIsPurged(txs: map<TxId, Tx>, k: TxId, block: seq<Tx>)
    ensures Compared(txs, k, block) == Purged(txs, k, BlockHashes(block))
  {
    if block != [] {
      var init, last := block[..|block| - 1], block[|block| - 1];
      ComparedIsPurged(txs, k, init);
      assert block == init + [last];
      assert BlockHashes(block) == BlockHashes(init) + {last.hash};
    }
  }

  class MemPool {
    var txs: map<TxId, Tx>
    var events: multiset<TxEvent>  // broadcast to the subscribers, in no order

    ghost predicate Valid()
      reads this
    {
      forall k :: k in txs ==> txs[k].hash == k
    }

    constructor ()
      ensures Valid() && txs == map[] && events == multiset{}
    {
      txs, events := map[], multiset{};
    }

    // A hash already pooled keeps its first transaction.
    method AddTx(txID: TxId, tx: Tx)
      modifies this`txs
      ensures txs == if txID in old(txs) then old(txs) else old(txs)[txID := tx]
    {
      if txID !in txs {
        txs := txs[txID := tx];
      }
    }

    method ReceiveTx(tx: Tx)
      requires Valid()
      modifies this
      ensures Valid()
      ensures txs == if tx.hash in old(txs) then old(txs) else old(txs)[tx.hash := tx]
      ensures events == old(events) + multiset{TxUnConfirmed(tx.hash, tx)}
    {
      AddTx(tx.hash, tx);
      NotifySubscribers(TxUnConfirmed(tx.hash, tx));
    }

    method RemoveTxFromMemPool(txID: TxId) returns (found: bool)
      modifies this`txs
      ensures found <==> txID in old(txs)
      ensures txs == old(txs) - {txID}
    {
      found := txID in txs;
      if found {
        txs := txs - {txID};
      }
    }

    method NotifySubscribers(event: TxEvent)
      modifies this`events
      ensures events == old(events) + multiset{event}
    {
      events := events + multiset{event};
    }

    // One pool transaction against the block; a second equal transaction finds it gone and is still announced.
    method CheckOne(v: Tx, block: seq<Tx>)
      modifies this
      ensures txs == Purged(old(txs), v.hash, BlockHashes(block))
      ensures events == old(events) + Confirmations({v.hash}, block)
    {
      ghost var pool, sent, k := txs, events, v.hash;
      for j := 0 to |block|
        invariant txs == Compared(pool, k, block[..j])
        invariant events == sent + Confirmations({k}, block[..j])
      {
        assert block[..j + 1][..j] == block[..j];
        if block[j].hash == v.hash {
          var found := RemoveTxFromMemPool(v.hash);
          NotifySubscribers(TxConfirmed(block[j].hash, block[j]));
        }
      }
      assert block[..|block|] == block;
      ComparedIsPurged(pool, k, block);
    }

    /** Ranges over the pool in any order while deleting from it: a visit deletes no entry but its own, so every entry
        is still there when its turn comes. Whatever the order, exactly the block's transactions leave the pool, and
        each block transaction whose hash was pooled is announced once. */
    method CheckTxConfirmed(block: seq<Tx>)
      requires Valid()
      modifies this
      ensures Valid()
      ensures txs == old(txs) - BlockHashes(block)
      ensures events == old(events) + Confirmations(old(txs).Keys, block)
    {
      ghost var pool, hashes, visited: set<TxId> := txs, BlockHashes(block), {};
      var rest := txs.Keys;
      NoConfirmations(block);
      while rest != {}
        invariant Visiting(pool, txs, hashes, rest, visited)
        invariant events == old(events) + Confirmations(visited, block)
        decreases rest
      {
        var k :| k in rest;
        ghost var txs0, events0 := txs, events;
        VisitOne(pool, txs0, hashes, rest, visited, k);
        ConfirmationsAdd(visited, k, block);
        CheckOne(txs[k], block);
        rest, visited := rest - {k}, visited + {k};
        assert txs == Purged(txs0, k, hashes);
        assert Visiting(pool, txs, hashes, rest, visited);
        assert events == events0 + Confirmations({k}, block);
      }
      AllVisited(pool, txs, hashes, visited);
    }
  }

  // The pool halfway through the loop: the hashes visited so far that the block has are gone.
  ghost predicate Visiting(pool: map<TxId, Tx>, txs: map<TxId, Tx>, hashes: set<TxId>, rest: set<TxId>,
                           visited: set<TxId>) {
    && visited <= pool.Keys && rest == pool.Keys - visited
    && txs == pool - (hashes * visited)
  }

  lemma VisitOne(pool: map<TxId, Tx>, txs: map<TxId, Tx>, hashes: set<TxId>, rest: set<TxId>, visited: set<TxId>,
                 k: TxId)
    requires Visiting(pool, txs, hashes, rest, visited) && k in rest
    ensures k in txs && txs[k] == pool[k] && k !in visited
    ensures Visiting(pool, Purged(txs, k, hashes), hashes, rest - {k}, visited + {k})
  {
    if k in hashes {
      assert hashes * (visited + {k}) == hashes * visited + {k};
    } else {
      assert hashes * (visited + {k}) == hashes * visited;
    }
  }

  lemma AllVisited(pool: map<TxId, Tx>, txs: map<TxId, Tx>, hashes: set<TxId>, visited: set<TxId>)
    requires Visiting(pool, txs, hashes, {}, visited)
    ensures visited == pool.Keys && txs == pool - hashes
  {
    assert forall k :: k in pool ==> k in pool.Keys - visited || k in visited;
  }

  lemma {:induction false} NoConfirmations(block: seq<Tx>)
    ensures Confirmations({}, block) == multiset{}
  {
    if block != [] {
      NoConfirmations(block[..|block| - 1]);
    }
  }
}
