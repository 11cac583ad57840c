/** Data of the scanner: watch items, requests, blocks, reports, and what a run reads from outside. */
module ScanTypes {
  import opened Basics

  type Script = bytes
  type ClientID = bytes

  datatype TxInput = TxInput(hash: bytes, index: uint32)

  datatype Transaction = Transaction(id: bytes, inputs: seq<TxInput>, outputs: seq<Script>)

  datatype Block = Block(height: uint32, transactions: seq<Transaction>)

  datatype WatchItem =
    | SpentWatchItem(hash: Hash, index: uint32, outputScript: Script)
    | UnspentWatchItem(outputScript: Script)
  {
    // The element looked up in the block filter.
    function Bytes(): Script { outputScript }

    // Inputs whose hash is not 32 bytes long are skipped.
    predicate Match(tx: Transaction) {
      match this
      case SpentWatchItem(hash, index, _) =>
        exists i :: 0 <= i < |tx.inputs| && |tx.inputs[i].hash| == 32
                    && tx.inputs[i].hash == hash && tx.inputs[i].index == index
      case UnspentWatchItem(outputScript) =>
        exists i :: 0 <= i < |tx.outputs| && tx.outputs[i] == outputScript
    }
  }

  datatype ScanRequest = ScanRequest(clientID: ClientID, startHeight: uint32, item: WatchItem, isPersistent: bool)

  datatype Report = Report(tx: Transaction, blockHash: Hash, blockHeight: uint32, request: ScanRequest)

  // A stored filter is the set of scripts it answers "maybe" for: the block's own scripts plus false positives.
  datatype FilterLookup = FilterMissing | FilterFailed | FilterFound(elements: set<Script>)

  datatype BlockLookup = BlockMissing | BlockFailed | BlockFound(block: Block)

  // A tip reading. At 2^32-1 every uint32 height is at most the tip, so a scan would never leave its loop.
  type TipHeight = n: int | 0 <= n < 0xFFFF_FFFF

  /** Everything one run of the worker reads from outside. A run looks at each height once, so answers indexed by
      height let the tip move and stores change between two iterations.
      - tips: the chain tip read just before a height is compared with it; an absent entry is a read error
      - hashes: the header store's answers by height; an absent entry is an error
      - filters, blocks: the answers by block hash; an absent entry is "not found"
      - arrivals: requests other goroutines enqueue between the previous iteration and that of a height */
  datatype World = World(
    genesis: Hash,
    tips: map<nat, TipHeight>,
    hashes: map<nat, Hash>,
    filters: map<Hash, FilterLookup>,
    blocks: map<Hash, BlockLookup>,
    arrivals: map<nat, seq<ScanRequest>>)
  {
    function TipAt(h: nat): Option<TipHeight> { if h in tips then Some(tips[h]) else None }

    // Height 0 is the configured genesis block; it is never looked up.
    function HashAt(h: nat): Option<Hash> {
      if h == 0 then Some(genesis) else if h in hashes then Some(hashes[h]) else None
    }

    function FilterOf(hash: Hash): FilterLookup { if hash in filters then filters[hash] else FilterMissing }

    function BlockOf(hash: Hash): BlockLookup { if hash in blocks then blocks[hash] else BlockMissing }

    function ArrivalsAt(h: nat): seq<ScanRequest> { if h in arrivals then arrivals[h] else [] }
  }

  // The block at h, when hash, filter and block can all be had.
  function VisibleBlock(w: World, h: nat): Option<Block> {
    match w.HashAt(h)
    case None => None
    case Some(hash) =>
      if w.FilterOf(hash).FilterFound? && w.BlockOf(hash).BlockFound? then Some(w.BlockOf(hash).block) else None
  }

  // ----- In plain words -----

  // What an item watches for: a transaction that spends its outpoint, or one that pays to its script.
  predicate Concerns(item: WatchItem, tx: Transaction) {
    match item
    case SpentWatchItem(hash, index, _) => TxInput(hash, index) in tx.inputs
    case UnspentWatchItem(outputScript) => outputScript in tx.outputs
  }

  /** A match is found wherever in the transaction it is. */
  lemma MatchIff(item: WatchItem, tx: Transaction)
    ensures item.Match(tx) <==> Concerns(item, tx)
  {
    match item
    case SpentWatchItem(hash, index, _) =>
      if Concerns(item, tx) {
        var i :| 0 <= i < |tx.inputs| && tx.inputs[i] == TxInput(hash, index);
      }
    case UnspentWatchItem(outputScript) =>
  }

  // The stores serve a block at h: the header store knows its hash, and its filter and itself can be had.
  predicate ServedAt(w: World, h: nat, hash: Hash, block: Block) {
    && (if h == 0 then hash == w.genesis else h in w.hashes && hash == w.hashes[h])
    && hash in w.filters && w.filters[hash].FilterFound?
    && hash in w.blocks && w.blocks[hash] == BlockFound(block)
  }

  lemma ServedIff(w: World, h: nat, hash: Hash, block: Block)
    ensures ServedAt(w, h, hash, block) <==> w.HashAt(h) == Some(hash) && VisibleBlock(w, h) == Some(block)
  {}
}
