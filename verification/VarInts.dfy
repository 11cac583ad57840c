/** Variable-length integers. */
module VarInts {
  import opened Basics
  import opened Wire

  const MAX_INT64: int := 0x7FFF_FFFF_FFFF_FFFF

  type int64 = n: int | -0x8000_0000_0000_0000 <= n <= 0x7FFF_FFFF_FFFF_FFFF

  // The dynamic type of the value decides the form.
  datatype VarInt = V8(v8: uint8) | V16(v16: uint16) | V32(v32: uint32) | V64(v64: uint64) | Invalid

  function NewFromInt(i: int64): VarInt {
    if i < 0 then V8(0)
    else if i <= 0xFC then V8(i)
    else if i <= 0xFFFF then V16(i)
    else if i <= 0xFFFF_FFFF then V32(i)
    else V64(i)
  }

  // Values above the largest int64 are read as that.
  function Int(x: VarInt): Option<int64> {
    match x
    case V8(n) => Some(n)
    case V16(n) => Some(n)
    case V32(n) => Some(n)
    case V64(n) => Some(if n > MAX_INT64 then MAX_INT64 else n)
    case Invalid => None
  }

  function MarshalBinary(x: VarInt): Option<bytes> {
    match x
    case V8(n) => Some([n])
    case V16(n) => Some([0xFD] + LE(n, 2))
    case V32(n) => Some([0xFE] + LE(n, 4))
    case V64(n) => Some([0xFF] + LE(n, 8))
    case Invalid => None
  }

  lemma FitsWidth(b: bytes)
    requires |b| == 2 || |b| == 4 || |b| == 8
    ensures |b| == 2 ==> FromLE(b) < 0x1_0000
    ensures |b| == 4 ==> FromLE(b) < 0x1_0000_0000
    ensures |b| == 8 ==> FromLE(b) < 0x1_0000_0000_0000_0000
  {
    FromLERoundTrip(b);
    Pow256Values();
  }

  function UnmarshalBinary(s: bytes): Parsed<VarInt> {
    match TakeFull(s, 1)
    case Failed(rest) => Failed(rest)
    case Parsed(first, tail) =>
      var b := first[0];
      if b < 0xFD then Parsed(V8(b), tail)
      else
        var width := if b == 0xFD then 2 else if b == 0xFE then 4 else 8;
        match TakeFull(tail, width)
        case Failed(rest) => Failed(rest)
        case Parsed(v, rest) =>
          FitsWidth(v);
          Parsed(if b == 0xFD then V16(FromLE(v)) else if b == 0xFE then V32(FromLE(v)) else V64(FromLE(v)), rest)
  }

  method Unmarshal(r: Reader) returns (x: Option<VarInt>)
    modifies r
    ensures Parsing(UnmarshalBinary(old(r.rest)), x, r.rest)
  {
    var first := r.ReadFull(1);
    if first.None? {
      return None;
    }
    var b := first.value[0];
    if b < 0xFD {
      return Some(V8(b));
    }
    var v: Option<bytes>;
    if b == 0xFD {
      v := r.ReadFull(2);
      if v.Some? {
        FitsWidth(v.value);
        return Some(V16(FromLE(v.value)));
      }
    } else if b == 0xFE {
      v := r.ReadFull(4);
      if v.Some? {
        FitsWidth(v.value);
        return Some(V32(FromLE(v.value)));
      }
    } else {
      v := r.ReadFull(8);
      if v.Some? {
        FitsWidth(v.value);
        return Some(V64(FromLE(v.value)));
      }
    }
    x := None;
  }

  lemma UnmarshalWide(marker: uint8, v: bytes, suffix: bytes)
    requires marker >= 0xFD && |v| == (if marker == 0xFD then 2 else if marker == 0xFE then 4 else 8)
    ensures UnmarshalBinary([marker] + v + suffix)
         == (FitsWidth(v);
             Parsed(if marker == 0xFD then V16(FromLE(v))
                    else if marker == 0xFE then V32(FromLE(v))
                    else V64(FromLE(v)), suffix))
  {
    assert [marker] + v + suffix == [marker] + (v + suffix);
    TakePrefix([marker], v + suffix);
    TakePrefix(v, suffix);
    FitsWidth(v);
  }

  /** An encoded value is decoded, whatever follows, exactly when it is not a single byte from the marker range. */
  lemma DecodesIff(x: VarInt, suffix: bytes)
    requires x != Invalid
    ensures UnmarshalBinary(MarshalBinary(x).value + suffix) == Parsed(x, suffix) <==> !(x.V8? && x.v8 >= 0xFD)
  {
    Pow256Values();
    match x
    case V8(n) =>
      TakePrefix([n], suffix);
    case V16(n) =>
      UnmarshalWide(0xFD, LE(n, 2), suffix);
      LERoundTrip(n, 2);
    case V32(n) =>
      UnmarshalWide(0xFE, LE(n, 4), suffix);
      LERoundTrip(n, 4);
    case V64(n) =>
      UnmarshalWide(0xFF, LE(n, 8), suffix);
      LERoundTrip(n, 8);
  }

  // The eight bytes of the widest form.
  predicate EightBytes(b: bytes, n: nat) {
    |b| == 8 && forall i :: 0 <= i < 8 ==> b[i] == n / Pow256(i) % 256
  }

  /** The bytes of every non-negative integer: itself up to 252, else a marker and two, four or eight bytes, least
      significant first. A negative integer is written as 0. */
  lemma EncodedBytes(i: int64)
    ensures var e := MarshalBinary(NewFromInt(i));
            && e.Some?
            && (i < 0 ==> e.value == [0])
            && (0 <= i < 0xFD ==> e.value == [i])
            && (0xFD <= i < 0x1_0000 ==> e.value == [0xFD, i % 256, i / 256])
            && (0x1_0000 <= i < 0x1_0000_0000 ==>
                  e.value == [0xFE, i % 256, i / 256 % 256, i / 0x1_0000 % 256, i / 0x100_0000])
            && (0x1_0000_0000 <= i ==> |e.value| == 9 && e.value[0] == 0xFF && EightBytes(e.value[1..], i))
  {
    if i >= 0 {
      LEBytes(i);
      if i >= 0x1_0000_0000 {
        forall j | 0 <= j < 8
          ensures LE(i, 8)[j] == i / Pow256(j) % 256
        {
          LEByte(i, 8, j);
        }
        assert ([0xFF] + LE(i, 8))[1..] == LE(i, 8);
      }
    }
  }

  /** Larger values than an int holds are read as the largest. */
  lemma IntIsCapped(n: uint64)
    ensures Int(V64(n)) == Some(if n < 0x8000_0000_0000_0000 then n else 0x7FFF_FFFF_FFFF_FFFF)
  {}

  /** Round trip of every non-negative integer, with any bytes behind it. */
  lemma RoundTrip(i: int64, suffix: bytes)
    requires i >= 0
    ensures MarshalBinary(NewFromInt(i)).Some?
    ensures UnmarshalBinary(MarshalBinary(NewFromInt(i)).value + suffix) == Parsed(NewFromInt(i), suffix)
    ensures Int(NewFromInt(i)) == Some(i)
  {
    DecodesIff(NewFromInt(i), suffix);
  }

  /** No encoding is a prefix of another; in particular no two integers share one. */
  lemma PrefixFree(i: int64, j: int64)
    requires i >= 0 && j >= 0
    ensures MarshalBinary(NewFromInt(i)).value <= MarshalBinary(NewFromInt(j)).value ==> i == j
  {
    var a, b := MarshalBinary(NewFromInt(i)).value, MarshalBinary(NewFromInt(j)).value;
    if a <= b {
      RoundTrip(i, b[|a|..]);
      RoundTrip(j, []);
      assert a + b[|a|..] == b && b + [] == b;
    }
  }

  // Only its own encoding decodes to a value.
  lemma DecodedFromItsEncoding(e: bytes)
    requires UnmarshalBinary(e).Parsed? && UnmarshalBinary(e).rest == []
    ensures MarshalBinary(UnmarshalBinary(e).value) == Some(e)
  {
    var tail := e[1..];
    assert e == [e[0]] + tail;
    if e[0] >= 0xFD {
      var width := if e[0] == 0xFD then 2 else if e[0] == 0xFE then 4 else 8;
      assert |tail[width..]| == 0;
      assert tail[..width] == tail;
      FitsWidth(tail);
      FromLERoundTrip(tail);
    } else {
      assert tail == [] && e == [e[0]];
    }
  }

  /** The encoding is the shortest byte string that decodes to the integer, and the only one of its length, except
      at the largest int64, as which all larger values are read. */
  lemma ShortestForm(i: int64, e: bytes)
    requires i >= 0
    requires UnmarshalBinary(e).Parsed? && UnmarshalBinary(e).rest == [] && Int(UnmarshalBinary(e).value) == Some(i)
    ensures var shortest := MarshalBinary(NewFromInt(i)).value;
            |shortest| <= |e| && (|shortest| == |e| && i < MAX_INT64 ==> shortest == e)
  {
    DecodedFromItsEncoding(e);
  }
}
