/** Answering an inv message with a getdata message for the same objects. */
module Inventory {
  import opened Basics
  import opened Wire
  import opened Marshaler

  datatype MsgInv = MsgInv(count: uint8, inventory: seq<InvVector>)

  function DecodeVector(s: bytes): Parsed<InvVector> {
    match ParseUint32(s)
    case Failed(rest) => Failed(rest)
    case Parsed(kind, s1) =>
      match TakeSome(s1, 32)
      case Failed(rest) => Failed(rest)
      case Parsed(hash, rest) => Parsed(InvVector(kind, hash), rest)
  }

  function DecodeVectors(s: bytes, n: nat): Parsed<seq<InvVector>> {
    if n == 0 then Parsed([], s)
    else
      match DecodeVectors(s, n - 1)
      case Failed(rest) => Failed(rest)
      case Parsed(before, now) =>
        match DecodeVector(now)
        case Failed(rest) => Failed(rest)
        case Parsed(v, rest) => Parsed(before + [v], rest)
  }

  function DecodeInv(s: bytes): Parsed<MsgInv> {
    match TakeFull(s, 1)
    case Failed(rest) => Failed(rest)
    case Parsed(c, s1) =>
      match DecodeVectors(s1, c[0])
      case Failed(rest) => Failed(rest)
      case Parsed(inventory, rest) => Parsed(MsgInv(c[0], inventory), rest)
  }

  method ReadVector(r: Reader) returns (v: Option<InvVector>)
    modifies r
    ensures Parsing(DecodeVector(old(r.rest)), v, r.rest)
  {
    var kind := r.DecodeUint32();
    if kind.None? {
      return None;
    }
    var hash := r.DecodeArray(32);
    if hash.None? {
      return None;
    }
    v := Some(InvVector(kind.value, hash.value));
  }

  function Increment8(i: uint8): uint8 { (i + 1) % 0x100 }

  lemma NoOverflow(i: uint8)
    requires i < 0xFF
    ensures Increment8(i) == i as int + 1
  {}

  // The counter is a uint8, like the count.
  method UnmarshalInv(r: Reader) returns (inv: Option<MsgInv>)
    modifies r
    ensures Parsing(DecodeInv(old(r.rest)), inv, r.rest)
  {
    var c := r.ReadFull(1);
    if c.None? {
      return None;
    }
    var count: uint8 := c.value[0];
    var inventory: seq<InvVector> := [];
    ghost var s := r.rest;
    var i: uint8 := 0;
    while i < count
      invariant i <= count && DecodeVectors(s, i) == Parsed(inventory, r.rest)
      decreases count - i
    {
      VectorsStep(s, i, inventory, r.rest);
      var v := ReadVector(r);
      if v.None? {
        VectorsFail(s, i + 1, count);
        return None;
      }
      inventory := inventory + [v.value];
      NoOverflow(i);
      i := Increment8(i);
    }
    inv := Some(MsgInv(count, inventory));
  }

  lemma VectorsStep(s: bytes, i: nat, before: seq<InvVector>, now: bytes)
    requires DecodeVectors(s, i) == Parsed(before, now)
    ensures DecodeVectors(s, i + 1)
         == if DecodeVector(now).Failed? then Failed(DecodeVector(now).rest)
            else Parsed(before + [DecodeVector(now).value], DecodeVector(now).rest)
  {}

  lemma {:induction false} VectorsFail(s: bytes, i: nat, n: nat)
    requires i <= n && DecodeVectors(s, i).Failed?
    ensures DecodeVectors(s, n) == Failed(DecodeVectors(s, i).rest)
    decreases n - i
  {
    if i < n {
      VectorsFail(s, i + 1, n);
    }
  }

  // The getdata payload that answers an inv payload, if that can be decoded.
  function Answer(payload: bytes): Option<bytes> {
    match DecodeInv(payload)
    case Failed(_) => None
    case Parsed(inv, _) => Marshal(GetData(inv.count, inv.inventory))
  }

  method HandleInv(r: Reader) returns (getData: Option<bytes>)
    modifies r
    ensures getData == Answer(old(r.rest))
  {
    var inv := UnmarshalInv(r);
    if inv.None? {
      return None;
    }
    getData := MarshalValue(GetData(inv.value.count, inv.value.inventory));
  }

  // The first n bytes of s, with zeros where it is shorter.
  function Padded(s: bytes, n: nat): (b: bytes)
    ensures |b| == n
  {
    if |s| >= n then s[..n] else s + Zeros(n - |s|)
  }

  lemma VectorsSnoc(before: seq<InvVector>, v: InvVector)
    ensures Vectors(before + [v]) == Vectors(before) + (LE(v.kind, 4) + v.hash)
  {
    assert (before + [v])[..|before|] == before;
  }

  // Vectors that are there in full are read and written back unchanged.
  lemma {:induction false} FullVectors(s: bytes, n: nat)
    requires |s| >= 36 * n
    ensures DecodeVectors(s, n).Parsed? && DecodeVectors(s, n).rest == s[36 * n..]
    ensures Vectors(DecodeVectors(s, n).value) == s[..36 * n]
  {
    if n > 0 {
      FullVectors(s, n - 1);
      FullVectorsAt(s, 36 * (n - 1), DecodeVectors(s, n - 1).value);
    }
  }

  // The step of the induction: k bytes of s have been read.
  lemma FullVectorsAt(s: bytes, k: nat, before: seq<InvVector>)
    requires k + 36 <= |s| && Vectors(before) == s[..k]
    ensures var now := DecodeVector(s[k..]);
            now.Parsed? && now.rest == s[k + 36..] && Vectors(before + [now.value]) == s[..k + 36]
  {
    var now := s[k..];
    LastVector(now);
    VectorsSnoc(before, DecodeVector(now).value);
    assert Padded(now, 36) == now[..36];
    assert now[..36] == s[k..k + 36];
    assert s[..k + 36] == s[..k] + s[k..k + 36];
    assert now[36..] == s[k + 36..];
  }

  // One vector: it needs its type and one byte of its hash; missing hash bytes read as zero.
  lemma LastVector(s: bytes)
    ensures DecodeVector(s).Parsed? <==> |s| >= 5
    ensures |s| >= 5 ==>
              var v := DecodeVector(s).value;
              LE(v.kind, 4) + v.hash == Padded(s, 36) && (|s| >= 36 ==> DecodeVector(s).rest == s[36..])
  {
    if |s| >= 5 {
      FromLERoundTrip(s[..4]);
      ParsedUint32(s[..4]);
      var v := DecodeVector(s).value;
      assert LE(v.kind, 4) == s[..4];
      if |s| >= 36 {
        assert s[4..][..32] == s[4..36] && s[..4] + s[4..36] == s[..36];
      } else {
        assert s[..4] + (s[4..] + Zeros(36 - |s|)) == s + Zeros(36 - |s|);
      }
    }
  }

  // Too few bytes for n vectors fail.
  lemma {:induction false} ShortVectorsFail(s: bytes, n: nat)
    requires n > 0 && |s| < 36 * (n - 1) + 5
    ensures DecodeVectors(s, n).Failed?
  {
    if |s| >= 36 * (n - 1) {
      FullVectors(s, n - 1);
      LastVector(s[36 * (n - 1)..]);
    } else if n > 1 {
      if |s| < 36 * (n - 2) + 5 {
        ShortVectorsFail(s, n - 1);
      } else {
        FullVectors(s, n - 2);
        TruncatedEatsAll(s[36 * (n - 2)..]);
      }
    }
  }

  lemma TruncatedEatsAll(s: bytes)
    requires 5 <= |s| < 36
    ensures DecodeVector(s).Parsed? && DecodeVector(s).rest == []
  {
    LastVector(s);
    ParsedUint32(s[..4]);
  }

  // The first byte of a payload.
  function Count(payload: bytes): nat {
    if payload == [] then 0 else payload[0]
  }

  /** The echo, for every payload. A getdata goes out exactly when the payload holds its count, all vectors but the
      last in full, and the last up to the first byte of its hash; it is the payload's first 1 + 36 * count bytes,
      with zeros for those that are missing. So it repeats the payload's bytes if and only if they are all there. */
  lemma AnswerEchoes(payload: bytes)
    ensures Answer(payload).Some?
       <==> payload != [] && (payload[0] == 0 || |payload| >= 1 + 36 * (Count(payload) - 1) + 5)
    ensures Answer(payload).Some? ==> Answer(payload).value == Padded(payload, 1 + 36 * Count(payload))
  {
    if payload != [] && payload[0] > 0 {
      var c: int, s := Count(payload), payload[1..];
      assert payload == [payload[0]] + s;
      if |s| < 36 * (c - 1) + 5 {
        ShortVectorsFail(s, c);
      } else {
        LastVectorEchoes(s, c);
        PaddedCons(payload[0], s, 36 * c);
      }
    }
  }

  lemma PaddedCons(c: uint8, s: bytes, n: nat)
    ensures Padded([c] + s, 1 + n) == [c] + Padded(s, n)
  {
    if |s| >= n {
      assert ([c] + s)[..1 + n] == [c] + s[..n];
    }
  }

  lemma PaddedSplit(s: bytes, k: nat, n: nat)
    requires |s| >= k
    ensures Padded(s, k + n) == s[..k] + Padded(s[k..], n)
  {
    if |s| >= k + n {
      assert s[..k] + s[k..][..n] == s[..k + n];
    } else {
      assert s[..k] + (s[k..] + Zeros(n - (|s| - k))) == s + Zeros(k + n - |s|);
    }
  }

  lemma LastVectorEchoes(s: bytes, c: nat)
    requires c > 0 && |s| >= 36 * (c - 1) + 5
    ensures DecodeVectors(s, c).Parsed? && Vectors(DecodeVectors(s, c).value) == Padded(s, 36 * c)
  {
    var k := 36 * (c - 1);
    FullVectors(s, c - 1);
    LastVector(s[k..]);
    var before, v := DecodeVectors(s, c - 1).value, DecodeVector(s[k..]).value;
    assert DecodeVectors(s, c).Parsed? && DecodeVectors(s, c).value == before + [v];
    VectorsSnoc(before, v);
    PaddedSplit(s, k, 36);
  }

  // The whole prefix comes back when it is all there.
  lemma FullPayloadIsEchoed(payload: bytes)
    requires payload != [] && |payload| >= 1 + 36 * Count(payload)
    ensures Answer(payload) == Some(payload[..1 + 36 * Count(payload)])
  {
    AnswerEchoes(payload);
  }
}
