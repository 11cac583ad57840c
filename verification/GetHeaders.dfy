/** The getheaders message. */
module GetHeaders {
  import opened Basics
  import opened Wire
  import opened VarInts
  import opened Marshaler
  import opened Headers
  import opened Locator
  import opened HeaderStores

  const MAX_LOCATORS: nat := 500
  const VERSION: uint32 := 70016

  datatype MsgGetHeaders = MsgGetHeaders(version: uint32, locators: seq<Hash>, hashStop: Hash)

  // The payload; more than 500 hashes are refused.
  method NewMsgGetHeaders(hashStop: Hash, locator: seq<Hash>) returns (r: Option<MsgGetHeaders>)
    ensures r == if |locator| <= MAX_LOCATORS then Some(MsgGetHeaders(VERSION, locator, hashStop)) else None
  {
    var hashes: seq<Hash> := [];
    for i := 0 to |locator|
      invariant hashes == locator[..i] && i <= MAX_LOCATORS
    {
      if |hashes| + 1 > MAX_LOCATORS {
        return None;
      }
      hashes := hashes + [locator[i]];
    }
    assert locator[..|locator|] == locator;
    r := Some(MsgGetHeaders(VERSION, hashes, hashStop));
  }

  function Value(m: MsgGetHeaders): GoValue {
    Pointer(Struct([Uint32(m.version), Locators(m.locators), Raw(m.hashStop)]))
  }

  // Reads n hashes and drops them.
  function SkipHashes(s: bytes, n: nat): Parsed<()> {
    if n == 0 then Parsed((), s)
    else
      match SkipHashes(s, n - 1)
      case Failed(rest) => Failed(rest)
      case Parsed(_, now) =>
        match TakeSome(now, 32)
        case Failed(rest) => Failed(rest)
        case Parsed(_, rest) => Parsed((), rest)
  }

  // Stopped: there is no making a slice of as many hashes as announced. The decoder panics, which ends the handling of
  // the message, or the program is out of memory, which ends it all.
  datatype Outcome<+T> = Decoded(value: T, rest: bytes) | Rejected(rest: bytes) | Stopped

  // The locator decoder has a value receiver: it makes room for its hashes, of which there may be at most as many as
  // fit, consumes their bytes and keeps none of them.
  function DecodeLocators(s: bytes, room: nat): Outcome<()> {
    match UnmarshalBinary(s)
    case Failed(rest) => Rejected(rest)
    case Parsed(x, rest) =>
      if Int(x).value > room then Stopped
      else
        match SkipHashes(rest, Int(x).value)
        case Failed(now) => Rejected(now)
        case Parsed(_, now) => Decoded((), now)
  }

  function Decode(s: bytes, room: nat): Outcome<MsgGetHeaders> {
    match ParseUint32(s)
    case Failed(rest) => Rejected(rest)
    case Parsed(version, s1) =>
      match DecodeLocators(s1, room)
      case Stopped => Stopped
      case Rejected(rest) => Rejected(rest)
      case Decoded(_, s2) =>
        match TakeSome(s2, 32)
        case Failed(rest) => Rejected(rest)
        case Parsed(hashStop, rest) => Decoded(MsgGetHeaders(version, [], hashStop), rest)
  }

  // How a decoding method ends.
  datatype Ending<+T> = Done(value: T) | Refused | Panicked

  // What a decoding method returned and left, against its function. After a panic nothing is said of what is left.
  predicate Ends<T(==)>(o: Outcome<T>, v: Ending<T>, rest: bytes) {
    match o
    case Decoded(value, now) => v == Done(value) && rest == now
    case Rejected(now) => v == Refused && rest == now
    case Stopped => v == Panicked
  }

  method DecodeMessage(r: Reader, room: nat) returns (m: Ending<MsgGetHeaders>)
    modifies r
    ensures Ends(Decode(old(r.rest), room), m, r.rest)
  {
    var version := r.DecodeUint32();
    if version.None? {
      return Refused;
    }
    var locators := DecodeBlockLocators(r, room);
    if locators.Panicked? {
      return Panicked;
    }
    if locators.Refused? {
      return Refused;
    }
    var hashStop := r.DecodeArray(32);
    if hashStop.None? {
      return Refused;
    }
    m := Done(MsgGetHeaders(version.value, [], hashStop.value));
  }

  method DecodeBlockLocators(r: Reader, room: nat) returns (v: Ending<()>)
    modifies r
    ensures Ends(DecodeLocators(old(r.rest), room), v, r.rest)
  {
    var count := Unmarshal(r);
    if count.None? {
      return Refused;
    }
    var n: nat := Int(count.value).value;
    if n > room {
      return Panicked;
    }
    ghost var s := r.rest;
    for i := 0 to n
      invariant SkipHashes(s, i) == Parsed((), r.rest)
    {
      var hash := r.DecodeArray(32);
      if hash.None? {
        SkipFails(s, i + 1, n);
        return Refused;
      }
    }
    v := Done(());
  }

  lemma {:induction false} SkipFails(s: bytes, i: nat, n: nat)
    requires i <= n && SkipHashes(s, i).Failed?
    ensures SkipHashes(s, n) == SkipHashes(s, i)
    decreases n - i
  {
    if i < n {
      SkipFails(s, i + 1, n);
    }
  }

  // Skipping as many hashes as were written.
  lemma {:induction false} SkipWritten(hashes: seq<Hash>, suffix: bytes)
    ensures SkipHashes(Hashes(hashes) + suffix, |hashes|) == Parsed((), suffix)
    decreases |hashes|
  {
    if hashes == [] {
      assert Hashes(hashes) + suffix == suffix;
    } else {
      var init, last := hashes[..|hashes| - 1], hashes[|hashes| - 1];
      assert Hashes(hashes) + suffix == Hashes(init) + (last + suffix);
      SkipWritten(init, last + suffix);
      TakePrefix(last, suffix);
    }
  }

  // Bytes that skipping leaves: none is lost below 32 a hash.
  lemma {:induction false} SkipLeaves(s: bytes, n: nat)
    requires |s| >= 32 * n
    ensures SkipHashes(s, n).Parsed? && SkipHashes(s, n).rest == s[32 * n..]
  {
    if n > 0 {
      SkipLeaves(s, n - 1);
    }
  }

  function Encoded(m: MsgGetHeaders): bytes {
    LE(m.version, 4) + (MarshalVarIntField(NewFromInt(Length(|m.locators|))).value + Hashes(m.locators) + m.hashStop)
  }

  lemma MarshalsTo(m: MsgGetHeaders)
    ensures Marshal(Value(m)) == Some(Encoded(m))
  {
    ThreeFields(Uint32(m.version), Locators(m.locators), Raw(m.hashStop));
    var count := MarshalVarIntField(NewFromInt(Length(|m.locators|))).value;
    assert [] + LE(m.version, 4) == LE(m.version, 4);
    assert LE(m.version, 4) + (count + Hashes(m.locators)) + m.hashStop == Encoded(m);
  }

  lemma VersionBytes()
    ensures LE(VERSION, 4) == [0x80, 0x11, 0x01, 0x00]
  {
    LEBytes(VERSION);
  }

  /** The bytes of every message with at most 252 locators: version, count, the hashes in the order of the locator, and
      the stop hash. */
  lemma MessageBytes(m: MsgGetHeaders)
    requires |m.locators| <= 0xFC
    ensures Marshal(Value(m)).Some?
    ensures var b, n := Marshal(Value(m)).value, |m.locators|;
            && |b| == 5 + 32 * n + 32
            && b[..4] == LE(m.version, 4) && b[4] == n
            && (forall i :: 0 <= i < n ==> b[5 + 32 * i..5 + 32 * i + 32] == m.locators[i])
            && b[5 + 32 * n..] == m.hashStop
  {
    MarshalsTo(m);
    var b, n, hashes := Encoded(m), |m.locators|, Hashes(m.locators);
    var head := LE(m.version, 4) + [n];
    assert b == head + hashes + m.hashStop;
    forall i | 0 <= i < n
      ensures b[5 + 32 * i..5 + 32 * i + 32] == m.locators[i]
    {
      HashAt(m.locators, i);
      Inside(head, hashes, m.hashStop, 32 * i);
    }
  }

  // A hash in the middle of a message.
  lemma Inside(a: bytes, b: bytes, c: bytes, k: nat)
    requires |a| == 5 && k + 32 <= |b|
    ensures (a + b + c)[5 + k..5 + k + 32] == b[k..k + 32]
  {}

  lemma DecodesVersion(m: MsgGetHeaders)
    ensures var tail := MarshalVarIntField(NewFromInt(Length(|m.locators|))).value + Hashes(m.locators) + m.hashStop;
            ParseUint32(Encoded(m)) == Parsed(m.version, tail)
  {
    var tail := MarshalVarIntField(NewFromInt(Length(|m.locators|))).value + Hashes(m.locators) + m.hashStop;
    TakePrefix(LE(m.version, 4), tail);
    Pow256Values();
    LERoundTrip(m.version, 4);
  }

  lemma ShortFrames(m: MsgGetHeaders, room: nat)
    requires |m.locators| <= 0xFC
    ensures Decode(Encoded(m), room)
         == if |m.locators| <= room then Decoded(MsgGetHeaders(m.version, [], m.hashStop), []) else Stopped
  {
    DecodesVersion(m);
    var n, hashes := |m.locators|, Hashes(m.locators);
    assert [n] + hashes + m.hashStop == [n] + (hashes + m.hashStop);
    TakePrefix([n], hashes + m.hashStop);
    SkipWritten(m.locators, m.hashStop);
    assert m.hashStop + [] == m.hashStop;
    TakePrefix(m.hashStop, []);
  }

  lemma LongIsMisread(m: MsgGetHeaders, room: nat)
    requires 0xFC < |m.locators| <= MAX_LOCATORS
    ensures Decode(Encoded(m), room).Stopped? || Decode(Encoded(m), room).rest != []
  {
    DecodesVersion(m);
    var n, hashes := |m.locators|, Hashes(m.locators);
    var s := [n % 256] + hashes + m.hashStop;
    assert BE16(n) + hashes + m.hashStop == [n / 256] + s;
    TakePrefix([n / 256], s);
    assert UnmarshalBinary([n / 256] + s) == Parsed(V8(n / 256), s);
    SkipLeaves(s, n / 256);
    assert |s[32 * (n / 256)..]| > 32;
  }

  /** Framing of every message that can be built: decoding recovers version and stop hash and consumes exactly all
      bytes if and only if there are at most 252 locators, and room for them. Beyond that the count, written without its
      marker and with its bytes swapped, is misread. */
  lemma FramingHoldsIff(m: MsgGetHeaders, room: nat)
    requires |m.locators| <= MAX_LOCATORS
    ensures Marshal(Value(m)).Some?
    ensures Decode(Marshal(Value(m)).value, room) == Decoded(MsgGetHeaders(m.version, [], m.hashStop), [])
       <==> |m.locators| <= 0xFC && |m.locators| <= room
  {
    MarshalsTo(m);
    if |m.locators| <= 0xFC {
      ShortFrames(m, room);
    } else {
      LongIsMisread(m, room);
    }
  }

  /** The locators that either repository builds are never refused, and always frame correctly for a receiver that has
      room for 42 hashes. */
  lemma LocatorsFrame(stored: set<Header>, tip: Header, locator: seq<Hash>, hashStop: Hash, room: nat)
    requires IsLocator(stored, tip, locator) && room >= 42
    ensures |locator| <= 42 <= MAX_LOCATORS
    ensures var m := MsgGetHeaders(VERSION, locator, hashStop);
            && Marshal(Value(m)).Some?
            && Decode(Marshal(Value(m)).value, room) == Decoded(MsgGetHeaders(VERSION, [], hashStop), [])
  {
    LocatorShape(tip.height);
    FramingHoldsIff(MsgGetHeaders(VERSION, locator, hashStop), room);
  }

  function ZeroHash(): Hash { Zeros(32) }

  // On the wire the message asks for what follows this hash, if it is known, before all others.
  ghost predicate AsksFrom(m: MsgGetHeaders, hash: Hash) {
    && Marshal(Value(m)).Some? && |Marshal(Value(m)).value| >= 37
    && Marshal(Value(m)).value[5..37] == hash
  }

  lemma AsksFromFirst(m: MsgGetHeaders)
    requires 0 < |m.locators| <= 0xFC
    ensures AsksFrom(m, m.locators[0])
  {
    MessageBytes(m);
    assert 5 + 32 * 0 == 5;
  }

  // The message a sync with a peer sends: from the store's locator, or from the genesis hash while it is empty.
  method SyncRequest(db: Repository, genesis: Hash) returns (r: Result<MsgGetHeaders, StoreError>)
    requires db.Valid()
    ensures db.Contents() == map[] ==>
              r == Ok(MsgGetHeaders(VERSION, [genesis], ZeroHash())) && AsksFrom(r.value, genesis)
    ensures Contiguous(db.Contents()) ==> r.Ok?
    ensures r.Ok? ==> r.value.version == 70016 && r.value.hashStop == ZeroHash() && FramesWithRoom(r.value)
    ensures r.Ok? && db.Contents() != map[] ==>
              exists tip :: && IsTip(db.Contents(), tip) && AsksFrom(r.value, tip.hash)
                            && IsLocator(db.Contents().Values, tip, r.value.locators)
  {
    var locator := db.LatestBlockLocator();
    var hashes: seq<Hash>;
    ghost var tip: Option<Header> := None;
    if locator.Err? {
      if locator.error != NoBlocksHeaders {
        return Err(locator.error);
      }
      hashes := [genesis];
    } else {
      hashes := locator.value;
      ghost var t :| IsTip(db.Contents(), t) && IsLocator(db.Contents().Values, t, hashes);
      LocatorsFrame(db.Contents().Values, t, hashes, ZeroHash(), 42);
      tip := Some(t);
    }
    var msg := NewMsgGetHeaders(ZeroHash(), hashes);
    AsksFromFirst(msg.value);
    assert tip.Some? ==> AsksFrom(msg.value, tip.value.hash);
    forall room: nat | room >= 42
      ensures FramesFor(msg.value, room)
    {
      FramingHoldsIff(msg.value, room);
    }
    r := Ok(msg.value);
  }

  // A receiver with room for so many hashes decodes the message and nothing is left over.
  ghost predicate FramesFor(m: MsgGetHeaders, room: nat) {
    && Marshal(Value(m)).Some?
    && Decode(Marshal(Value(m)).value, room) == Decoded(MsgGetHeaders(m.version, [], m.hashStop), [])
  }

  ghost predicate FramesWithRoom(m: MsgGetHeaders) {
    forall room: nat :: room >= 42 ==> FramesFor(m, room)
  }
}
