/** What the node does with a headers message and with a block message: which headers go on to the writer. */
module HandleHeaders {
  import opened Basics
  import opened Headers

  // Consecutive heights, compared as the code does: the next height minus one, modulo 2^32.
  ghost predicate InSequence(batch: seq<Header>) {
    forall i :: 0 <= i < |batch| - 1 ==> batch[i].height == Wrap32(batch[i + 1].height - 1)
  }

  function Above(batch: seq<Header>, height: uint32): seq<Header> {
    if batch == [] then [] else
      var last := batch[|batch| - 1];
      Above(batch[..|batch| - 1], height) + if last.height > height then [last] else []
  }

  // The headers forwarded from a batch when the tip read is at the given height.
  ghost function Forwarded(batch: seq<Header>, tip: uint32): seq<Header> {
    if batch == [] || !InSequence(batch) then []
    else if batch[0].height > Wrap32(tip + 1) || batch[|batch| - 1].height <= tip then []
    else if batch[0].height < tip then Above(batch, tip)
    else batch
  }

  ghost predicate Consecutive(run: seq<Header>) {
    forall i :: 0 <= i < |run| ==> run[i].height == run[0].height + i
  }

  method CheckHeadersInSequence(headers: seq<Header>) returns (ok: bool)
    ensures ok <==> InSequence(headers)
    ensures ok <==> forall i :: 0 <= i < |headers| ==> headers[i].height == Wrap32(headers[0].height + i)
  {
    InSequenceIff(headers);
    for i := 0 to |headers|
      invariant forall j :: 0 <= j < i && j < |headers| - 1 ==> headers[j].height == Wrap32(headers[j + 1].height - 1)
    {
      if i < |headers| - 1 {
        if headers[i].height != Wrap32(headers[i + 1].height - 1) {
          return false;
        }
      }
    }
    ok := true;
  }

  // A batch is in sequence exactly when its heights are first, first + 1, ... modulo 2^32.
  lemma InSequenceIff(batch: seq<Header>)
    ensures InSequence(batch) <==> forall i :: 0 <= i < |batch| ==> batch[i].height == Wrap32(batch[0].height + i)
  {
    if InSequence(batch) {
      forall i | 0 <= i < |batch|
        ensures batch[i].height == Wrap32(batch[0].height + i)
      {
        HeightsFollow(batch, i);
      }
    }
  }

  lemma {:induction false} HeightsFollow(batch: seq<Header>, i: nat)
    requires InSequence(batch) && i < |batch|
    ensures batch[i].height == Wrap32(batch[0].height + i)
  {
    if i > 0 {
      HeightsFollow(batch, i - 1);
      assert batch[i - 1].height == Wrap32(batch[i - 1 + 1].height - 1);
    }
  }

  // Ahead: the batch starts above the tip's successor, so the missing headers are asked for again.
  datatype Reaction = Ignored | Ahead | Stored

  method HeadersAbove(batch: seq<Header>, height: uint32) returns (newHeaders: seq<Header>)
    ensures newHeaders == Above(batch, height)
  {
    newHeaders := [];
    for i := 0 to |batch|
      invariant newHeaders == Above(batch[..i], height)
    {
      assert batch[..i + 1][..i] == batch[..i];
      if batch[i].height > height {
        newHeaders := newHeaders + [batch[i]];
      }
    }
    assert batch[..|batch|] == batch;
  }

  // A batch that continues the tip: in sequence, not starting above the tip's successor, and ending above the tip.
  ghost predicate Accepts(batch: seq<Header>, tip: uint32) {
    && batch != [] && InSequence(batch)
    && batch[0].height <= Wrap32(tip + 1) && batch[|batch| - 1].height > tip
  }

  lemma {:induction false} AboveMembers(batch: seq<Header>, height: uint32)
    ensures forall x :: x in Above(batch, height) <==> x in batch && x.height > height
  {
    if batch != [] {
      AboveMembers(batch[..|batch| - 1], height);
      assert batch == batch[..|batch| - 1] + [batch[|batch| - 1]];
    }
  }

  /** Something is forwarded exactly from a batch that continues the tip, and then every header above the tip is. */
  lemma AcceptedIsForwarded(batch: seq<Header>, tip: uint32)
    ensures Forwarded(batch, tip) != [] <==> Accepts(batch, tip)
    ensures Accepts(batch, tip) ==> forall x :: x in batch && x.height > tip ==> x in Forwarded(batch, tip)
  {
    AboveMembers(batch, tip);
    if Accepts(batch, tip) {
      assert batch[|batch| - 1] in batch;
      assert batch[|batch| - 1] in Forwarded(batch, tip);
    }
  }

  /** Of an accepted batch of at most 2^32 headers, just what the tip lacks is forwarded, and its own height if the
      batch starts there. */
  lemma ForwardedIs(batch: seq<Header>, tip: uint32)
    requires |batch| <= TWO_TO_THE_32 && Accepts(batch, tip)
    ensures var known := tip + 1 - batch[0].height;
            if known <= 1 then Forwarded(batch, tip) == batch
            else known < |batch| && Forwarded(batch, tip) == batch[known..]
  {
    NoWrapInBatch(batch, tip);
    if batch[0].height < tip {
      AboveIsTail(batch, tip);
    }
  }

  // tip is None while the store is empty; the code then goes on as from height 0. A new sync with the peer is asked for
  // both when headers are missing and after headers have been sent.
  method HandleHeaders(batch: seq<Header>, tip: Option<Header>)
    returns (sent: seq<Header>, reaction: Reaction, resync: bool)
    ensures sent == Forwarded(batch, TipHeight(tip))
    ensures sent != [] <==> Accepts(batch, TipHeight(tip))
    ensures Accepts(batch, TipHeight(tip)) ==> forall x :: x in batch && x.height > TipHeight(tip) ==> x in sent
    ensures tip.None? && batch != [] && InSequence(batch) && batch[0].height == 1 && batch[|batch| - 1].height >= 1
            ==> sent == batch
    ensures reaction.Stored? <==> sent != []
    ensures reaction.Ahead? <==> batch != [] && InSequence(batch) && batch[0].height > Wrap32(TipHeight(tip) + 1)
    ensures resync <==> !reaction.Ignored?
  {
    sent, reaction, resync := [], Ignored, false;
    var tipHeight: int := TipHeight(tip);
    if |batch| == 0 {
      return;
    }
    var sequential := CheckHeadersInSequence(batch);
    if !sequential {
      return;
    }
    AcceptedIsForwarded(batch, TipHeight(tip));
    var first, last := batch[0].height, batch[|batch| - 1].height;
    if first > Wrap32(tipHeight + 1) {
      return sent, Ahead, true;
    }
    if last <= tipHeight {
      return;
    }
    var headers := batch;
    if first < tipHeight && last > tipHeight {
      var newHeaders := HeadersAbove(batch, tipHeight);
      AboveLast(batch, tipHeight);
      if |newHeaders| > 0 {
        headers := newHeaders;
      }
    }
    sent := SendAll(headers);
    reaction, resync := Stored, true;
  }

  // Header by header over the channel to the writer.
  method SendAll(headers: seq<Header>) returns (sent: seq<Header>)
    ensures sent == headers
  {
    sent := [];
    for i := 0 to |headers|
      invariant sent == headers[..i]
    {
      sent := sent + [headers[i]];
    }
    assert headers[..|headers|] == headers;
  }

  function TipHeight(tip: Option<Header>): uint32 {
    if tip.None? then 0 else tip.value.height
  }

  lemma AboveLast(batch: seq<Header>, height: uint32)
    requires batch != [] && batch[|batch| - 1].height > height
    ensures Above(batch, height) != []
  {}

  // What a block message leads to: its header goes to the writer, or the peer is known to be further than before.
  datatype BlockReaction = Forward | RaisePeersTip | Known

  function ReactToBlock(height: uint32, tip: uint32, peersTip: uint32): BlockReaction {
    if height == Wrap32(tip + 1) then Forward
    else if height > peersTip then RaisePeersTip
    else Known
  }

  // A raised tip starts a new sync.
  method HandleBlock(header: Header, tip: Option<Header>, peersTip: uint32)
    returns (sent: Option<Header>, newPeersTip: uint32, resync: bool)
    ensures var reaction := ReactToBlock(header.height, TipHeight(tip), peersTip);
            && sent == (if reaction.Forward? then Some(header) else None)
            && newPeersTip == (if reaction.RaisePeersTip? then header.height else peersTip)
            && resync == reaction.RaisePeersTip?
    ensures newPeersTip >= peersTip && (sent.None? ==> newPeersTip >= header.height)
    ensures tip.None? ==> (sent.Some? <==> header.height == 1)
    ensures tip.Some? ==> (sent.Some? <==> header.height == Wrap32(tip.value.height + 1))
    ensures resync <==> sent.None? && header.height > peersTip
  {
    sent, newPeersTip, resync := None, peersTip, false;
    if header.height != Wrap32(TipHeight(tip) + 1) {
      if header.height > peersTip {
        newPeersTip, resync := header.height, true;
      }
      return;
    }
    sent := Some(header);
  }

  lemma {:induction false} AboveAll(batch: seq<Header>, height: uint32)
    requires forall x :: x in batch ==> x.height > height
    ensures Above(batch, height) == batch
  {
    if batch != [] {
      var init, last := batch[..|batch| - 1], batch[|batch| - 1];
      assert last in batch;
      AboveAll(init, height);
      assert batch == init + [last];
    }
  }

  lemma {:induction false} AboveNone(batch: seq<Header>, height: uint32)
    requires forall x :: x in batch ==> x.height <= height
    ensures Above(batch, height) == []
  {
    if batch != [] {
      assert batch[|batch| - 1] in batch;
      AboveNone(batch[..|batch| - 1], height);
    }
  }

  lemma {:induction false} AboveConcat(a: seq<Header>, b: seq<Header>, height: uint32)
    ensures Above(a + b, height) == Above(a, height) + Above(b, height)
    decreases |b|
  {
    if b == [] {
      assert a + b == a;
    } else {
      assert (a + b)[..|a + b| - 1] == a + b[..|b| - 1];
      AboveConcat(a, b[..|b| - 1], height);
    }
  }

  // The part of a run above a height inside it is its tail.
  lemma AboveIsTail(batch: seq<Header>, height: uint32)
    requires batch != [] && Consecutive(batch) && batch[0].height <= height < batch[|batch| - 1].height
    ensures Above(batch, height) == batch[height - batch[0].height + 1..]
  {
    var cut := height - batch[0].height + 1;
    assert batch == batch[..cut] + batch[cut..];
    AboveConcat(batch[..cut], batch[cut..], height);
    AboveNone(batch[..cut], height);
    AboveAll(batch[cut..], height);
  }

  /** What is forwarded from a batch of at most 2^32 headers is a run of consecutive heights, with no wrap-around,
      that starts at the tip or just above it, ends above it, and holds every header of the batch above the tip. */
  lemma ForwardedContinuesTip(batch: seq<Header>, tip: uint32)
    requires |batch| <= TWO_TO_THE_32
    ensures var run := Forwarded(batch, tip);
            run != [] ==>
              && Consecutive(run)
              && (run[0].height == tip || run[0].height == tip + 1)
              && run[|run| - 1].height > tip
              && (forall x :: x in batch && x.height > tip ==> x in run)
              && (forall x :: x in run ==> x in batch)
  {
    if Forwarded(batch, tip) != [] {
      NoWrapInBatch(batch, tip);
      if batch[0].height < tip {
        AboveIsTail(batch, tip);
        TailOfRun(batch, tip - batch[0].height + 1);
      }
    }
  }

  lemma TailOfRun(batch: seq<Header>, cut: nat)
    requires Consecutive(batch) && cut < |batch|
    ensures Consecutive(batch[cut..]) && batch[cut..][0].height == batch[0].height + cut
    ensures forall x :: x in batch && x.height >= batch[0].height + cut ==> x in batch[cut..]
  {
    forall x | x in batch && x.height >= batch[0].height + cut
      ensures x in batch[cut..]
    {
      var i :| 0 <= i < |batch| && batch[i] == x;
      assert batch[cut..][i - cut] == x;
    }
  }

  // A batch that passes the checks cannot contain the wrap from 2^32-1 to 0.
  lemma NoWrapInBatch(batch: seq<Header>, tip: uint32)
    requires 0 < |batch| <= TWO_TO_THE_32 && InSequence(batch)
    requires batch[0].height <= Wrap32(tip + 1) && batch[|batch| - 1].height > tip
    ensures Consecutive(batch)
  {
    InSequenceIff(batch);
    var n := |batch|;
    assert batch[n - 1].height == Wrap32(batch[0].height + (n - 1));
    assert batch[0].height + (n - 1) < TWO_TO_THE_32;
  }
}
