/** The struct marshaler: how each kind of value is dispatched and written. */
module Marshaler {
  import opened Basics
  import opened Wire
  import opened VarInts

  datatype InvVector = InvVector(kind: uint32, hash: Hash)

  /** A Go value as the marshaler's type switch sees it.
      - Raw: byte slices and strings, and arrays of 4, 12 or 32 bytes
      - VarIntValue: a VarInt held by value; its own encoder has a pointer receiver
      - Locators, GetData: values with an encoder of their own
      - Pointer: one level is followed before the switch; a pointer that is left counts as its target's encoder, if it
        has one */
  datatype GoValue =
    | Uint8(v8: uint8)
    | Uint16(v16: uint16)
    | Uint32(v32: uint32)
    | Uint64(v64: uint64)
    | Raw(b: bytes)
    | VarIntValue(x: VarInt)
    | Locators(hashes: seq<Hash>)
    | GetData(count: uint8, inventory: seq<InvVector>)
    | Struct(fields: seq<GoValue>)
    | Pointer(target: GoValue)

  function Concat(a: Option<bytes>, b: Option<bytes>): Option<bytes> {
    if a.Some? && b.Some? then Some(a.value + b.value) else None
  }

  // A VarInt by value is a struct of one field: its dynamic integer, without the marker, and a uint16 big-endian.
  function MarshalVarIntField(x: VarInt): Option<bytes> {
    match x
    case V8(n) => Some([n])
    case V16(n) => Some(BE16(n))
    case V32(n) => Some(LE(n, 4))
    case V64(n) => Some(LE(n, 8))
    case Invalid => None
  }

  function Hashes(hashes: seq<Hash>): (b: bytes)
    ensures |b| == 32 * |hashes|
  {
    if hashes == [] then [] else Hashes(hashes[..|hashes| - 1]) + hashes[|hashes| - 1]
  }

  function Vectors(inventory: seq<InvVector>): (b: bytes)
    ensures |b| == 36 * |inventory|
  {
    if inventory == [] then [] else
      var last := inventory[|inventory| - 1];
      Vectors(inventory[..|inventory| - 1]) + (LE(last.kind, 4) + last.hash)
  }

  // Lengths are ints; a slice longer than the largest int64 does not exist.
  function Length(n: nat): int64 { if n > MAX_INT64 then MAX_INT64 else n }

  // What is behind a pointer that the switch sees: only types with an encoder are known there, a VarInt among them.
  function MarshalByEncoder(v: GoValue): Option<bytes> {
    match v
    case VarIntValue(x) => MarshalBinary(x)
    case Locators(hashes) => MarshalBlockLocators(hashes)
    case GetData(count, inventory) => Some([count] + Vectors(inventory))
    case _ => None
  }

  function MarshalBlockLocators(hashes: seq<Hash>): Option<bytes> {
    Concat(MarshalVarIntField(NewFromInt(Length(|hashes|))), Some(Hashes(hashes)))
  }

  function Marshal(v: GoValue): Option<bytes>
    decreases v, 0
  {
    match v
    case Pointer(Pointer(target)) => MarshalByEncoder(target)
    case Pointer(target) => Marshal(target)
    case Uint8(n) => Some([n])
    case Uint16(n) => Some(BE16(n))
    case Uint32(n) => Some(LE(n, 4))
    case Uint64(n) => Some(LE(n, 8))
    case Raw(b) => Some(b)
    case VarIntValue(x) => MarshalVarIntField(x)
    case Locators(_) => MarshalByEncoder(v)
    case GetData(_, _) => MarshalByEncoder(v)
    case Struct(fields) => MarshalFields(fields)
  }

  // A pointer field is followed before it is marshalled.
  function MarshalField(v: GoValue): Option<bytes>
    decreases v, 1
  {
    if v.Pointer? then Marshal(v.target) else Marshal(v)
  }

  function MarshalFields(fields: seq<GoValue>): Option<bytes>
    decreases fields, 0
  {
    if fields == [] then Some([])
    else
      var last := fields[|fields| - 1];
      Concat(MarshalFields(fields[..|fields| - 1]), MarshalField(last))
  }

  method MarshalLocators(hashes: seq<Hash>) returns (r: Option<bytes>)
    ensures r == Marshal(Locators(hashes))
  {
    var count := MarshalVarIntField(NewFromInt(Length(|hashes|)));
    var buf := [];
    for i := 0 to |hashes|
      invariant buf == Hashes(hashes[..i])
    {
      assert hashes[..i + 1][..i] == hashes[..i];
      buf := buf + hashes[i];
    }
    assert hashes[..|hashes|] == hashes;
    r := Concat(count, Some(buf));
  }

  method MarshalGetData(count: uint8, inventory: seq<InvVector>) returns (r: Option<bytes>)
    ensures r == Marshal(GetData(count, inventory))
  {
    var buf := [];
    for i := 0 to |inventory|
      invariant buf == Vectors(inventory[..i])
    {
      assert inventory[..i + 1][..i] == inventory[..i];
      buf := buf + (LE(inventory[i].kind, 4) + inventory[i].hash);
    }
    assert inventory[..|inventory|] == inventory;
    r := Some([count] + buf);
  }

  method MarshalEncoder(v: GoValue) returns (r: Option<bytes>)
    ensures r == MarshalByEncoder(v)
  {
    match v {
      case VarIntValue(x) => r := MarshalBinary(x);
      case Locators(hashes) => r := MarshalLocators(hashes);
      case GetData(count, inventory) => r := MarshalGetData(count, inventory);
      case _ => r := None;
    }
  }

  /** How a VarInt is written depends on the pointers to it: two give its own encoder, with marker, which decodes again;
      none or one give its bare integer, which decodes to it if and only if it is a byte below the markers. */
  lemma VarIntPointersIff(i: int64, suffix: bytes)
    requires i >= 0
    ensures var v := VarIntValue(NewFromInt(i));
            && Marshal(Pointer(v)) == Marshal(v) && Marshal(v).Some? && Marshal(Pointer(Pointer(v))).Some?
            && UnmarshalBinary(Marshal(Pointer(Pointer(v))).value + suffix) == Parsed(NewFromInt(i), suffix)
            && (UnmarshalBinary(Marshal(v).value) == Parsed(NewFromInt(i), []) <==> i < 0xFD)
  {
    RoundTrip(i, suffix);
    var bare := MarshalVarIntField(NewFromInt(i)).value;
    if i < 0xFD {
      RoundTrip(i, []);
      assert bare + [] == bare;
    } else if UnmarshalBinary(bare) == Parsed(NewFromInt(i), []) {
      DecodedFromItsEncoding(bare);
      assert false;
    }
  }

  method MarshalStructField(v: GoValue) returns (r: Option<bytes>)
    ensures r == MarshalField(v)
    decreases v, 1
  {
    if v.Pointer? {
      r := MarshalValue(v.target);
    } else {
      r := MarshalValue(v);
    }
  }

  method MarshalValue(v: GoValue) returns (r: Option<bytes>)
    ensures r == Marshal(v)
    decreases v, 0
  {
    match v {
      case Pointer(target) =>
        if target.Pointer? {
          r := MarshalEncoder(target.target);
        } else {
          r := MarshalValue(target);
        }
      case Uint8(n) => r := Some([n]);
      case Uint16(n) => r := Some(BE16(n));
      case Uint32(n) => r := Some(LE(n, 4));
      case Uint64(n) => r := Some(LE(n, 8));
      case Raw(b) => r := Some(b);
      case VarIntValue(x) => r := MarshalVarIntField(x);
      case Locators(hashes) => r := MarshalLocators(hashes);
      case GetData(count, inventory) => r := MarshalGetData(count, inventory);
      case Struct(fields) => r := MarshalStruct(fields);
    }
  }

  method MarshalStruct(fields: seq<GoValue>) returns (r: Option<bytes>)
    ensures r == MarshalFields(fields)
    decreases fields, 0
  {
    var buf := [];
    for i := 0 to |fields|
      invariant MarshalFields(fields[..i]) == Some(buf)
    {
      assert fields[..i + 1][..i] == fields[..i];
      var s := MarshalStructField(fields[i]);
      if s.None? {
        FailureStays(fields, i + 1);
        return None;
      }
      buf := buf + s.value;
    }
    assert fields[..|fields|] == fields;
    r := Some(buf);
  }

  lemma {:induction false} FailureStays(fields: seq<GoValue>, n: nat)
    requires n <= |fields| && MarshalFields(fields[..n]).None?
    ensures MarshalFields(fields).None?
    decreases |fields| - n
  {
    if n < |fields| {
      assert fields[..n + 1][..n] == fields[..n];
      FailureStays(fields, n + 1);
    } else {
      assert fields[..n] == fields;
    }
  }

  // Three fields, none of them pointers.
  lemma ThreeFields(a: GoValue, b: GoValue, c: GoValue)
    requires !a.Pointer? && !b.Pointer? && !c.Pointer?
    ensures MarshalFields([a, b, c]) == Concat(Concat(Concat(Some([]), Marshal(a)), Marshal(b)), Marshal(c))
  {
    assert [a, b, c][..2] == [a, b] && [a, b][..1] == [a] && [a][..0] == [];
    assert MarshalFields([a]) == Concat(Some([]), Marshal(a));
    assert MarshalFields([a, b]) == Concat(MarshalFields([a]), Marshal(b));
  }

  // ----- Bytes -----

  /** Integers of one, two, four and eight bytes, and a bare VarInt of each: two bytes go most significant first, the
      other widths least significant first. */
  lemma IntegerBytes(a: uint8, b: uint16, c: uint32, d: uint64)
    ensures Marshal(Uint8(a)) == Marshal(VarIntValue(V8(a))) == Some([a])
    ensures Marshal(Uint16(b)) == Marshal(VarIntValue(V16(b))) == Some([b / 256, b % 256])
    ensures Marshal(Uint32(c)) == Marshal(VarIntValue(V32(c)))
         == Some([c % 256, c / 256 % 256, c / 0x1_0000 % 256, c / 0x100_0000 % 256])
    ensures Marshal(Uint64(d)) == Marshal(VarIntValue(V64(d)))
    ensures Marshal(Uint64(d)).Some? && EightBytes(Marshal(Uint64(d)).value, d)
  {
    LEBytes(c);
    forall j | 0 <= j < 8
      ensures LE(d, 8)[j] == d / Pow256(j) % 256
    {
      LEByte(d, 8, j);
    }
  }

  /** A nonce of a ping is recovered from the eight bytes that it is marshalled to. */
  lemma NonceRoundTrip(nonce: uint64)
    ensures Marshal(Uint64(nonce)).Some? && |Marshal(Uint64(nonce)).value| == 8
    ensures FromLE(Marshal(Uint64(nonce)).value) == nonce
  {
    Pow256Values();
    LERoundTrip(nonce, 8);
  }

  /** The i-th hash of a locator is written at 32 * i. */
  lemma {:induction false} HashAt(hashes: seq<Hash>, i: nat)
    requires i < |hashes|
    ensures Hashes(hashes)[32 * i..32 * i + 32] == hashes[i]
  {
    var init, last := hashes[..|hashes| - 1], hashes[|hashes| - 1];
    if i < |init| {
      HashAt(init, i);
      assert Hashes(hashes)[32 * i..32 * i + 32] == Hashes(init)[32 * i..32 * i + 32];
    } else {
      assert Hashes(hashes) == Hashes(init) + last;
    }
  }

  /** The i-th vector of an inventory is written at 36 * i: its type in four bytes, then its hash. */
  lemma {:induction false} VectorAt(inventory: seq<InvVector>, i: nat)
    requires i < |inventory|
    ensures Vectors(inventory)[36 * i..36 * i + 4] == LE(inventory[i].kind, 4)
    ensures Vectors(inventory)[36 * i + 4..36 * i + 36] == inventory[i].hash
  {
    var init, last := inventory[..|inventory| - 1], inventory[|inventory| - 1];
    var all, before := Vectors(inventory), Vectors(init);
    if i < |init| {
      VectorAt(init, i);
      assert all[36 * i..36 * i + 4] == before[36 * i..36 * i + 4];
      assert all[36 * i + 4..36 * i + 36] == before[36 * i + 4..36 * i + 36];
    } else {
      assert all == before + (LE(last.kind, 4) + last.hash);
    }
  }
}
