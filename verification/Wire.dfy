/** Fixed-width integers on the wire, and the reader that decoders consume. */
module Wire {
  import opened Basics

  function Pow256(k: nat): (p: nat)
    ensures p > 0
  {
    if k == 0 then 1 else 256 * Pow256(k - 1)
  }

  lemma Pow256Values()
    ensures Pow256(1) == 0x100 && Pow256(2) == 0x1_0000
    ensures Pow256(4) == 0x1_0000_0000 && Pow256(8) == 0x1_0000_0000_0000_0000
  {
    assert Pow256(3) == 0x100_0000;
    assert Pow256(5) == 256 * Pow256(4);
    assert Pow256(6) == 256 * Pow256(5);
    assert Pow256(7) == 256 * Pow256(6);
  }

  lemma {:induction false} Pow256Grows(a: nat, b: nat)
    requires a <= b
    ensures Pow256(a) <= Pow256(b)
    decreases b
  {
    if a < b {
      Pow256Grows(a, b - 1);
    }
  }

  // The k low bytes of n, least significant first.
  function LE(n: nat, k: nat): (b: bytes)
    ensures |b| == k
  {
    if k == 0 then [] else [n % 256] + LE(n / 256, k - 1)
  }

  function FromLE(b: bytes): nat {
    if b == [] then 0 else b[0] + 256 * FromLE(b[1..])
  }

  // Most significant first, two bytes: how a bare uint16 is written.
  function BE16(n: uint16): (b: bytes)
    ensures |b| == 2
  {
    [n / 256, n % 256]
  }

  lemma {:induction false} LERoundTrip(n: nat, k: nat)
    requires n < Pow256(k)
    ensures FromLE(LE(n, k)) == n
    decreases k
  {
    if k > 0 {
      assert n / 256 < Pow256(k - 1);
      LERoundTrip(n / 256, k - 1);
      assert LE(n, k)[1..] == LE(n / 256, k - 1);
    }
  }

  lemma DivideTwice(n: nat, a: nat)
    requires a > 0
    ensures n / (256 * a) == n / 256 / a
  {
    var q := n / 256 / a;
    var r, low := n / 256 - a * q, n % 256;
    assert n == 256 * (a * q + r) + low && 0 <= r < a;
    MultiplyOut(a, q, r, low);
  }

  lemma MultiplyOut(a: nat, q: nat, r: nat, low: nat)
    requires r < a && low < 256
    ensures (256 * (a * q + r) + low) / (256 * a) == q
  {
    var n, d := 256 * (a * q + r) + low, 256 * a;
    assert n == d * q + (256 * r + low) by {
      assert 256 * (a * q) == d * q;
    }
    assert 256 * r + low < d;
    UniqueQuotient(n, d, q, 256 * r + low);
  }

  lemma UniqueQuotient(n: nat, d: nat, q: nat, r: nat)
    requires n == d * q + r && r < d
    ensures n / d == q
  {
    var p := n / d;
    assert n == d * p + n % d;
    if p < q {
      TimesMonotone(d, p + 1, q);
    } else if p > q {
      TimesMonotone(d, q + 1, p);
    }
  }

  lemma TimesMonotone(d: nat, x: nat, y: nat)
    requires x <= y
    ensures d * x <= d * y
  {}

  /** Byte i is the one of weight 256^i: the least significant byte comes first. */
  lemma {:induction false} LEByte(n: nat, k: nat, i: nat)
    requires i < k
    ensures LE(n, k)[i] == n / Pow256(i) % 256
    decreases k
  {
    if i > 0 {
      LEByte(n / 256, k - 1, i - 1);
      DivideTwice(n, Pow256(i - 1));
    }
  }

  // Two and four bytes, spelled out.
  lemma LEBytes(n: nat)
    ensures LE(n, 2) == [n % 256, n / 256 % 256]
    ensures LE(n, 4) == [n % 256, n / 256 % 256, n / 0x1_0000 % 256, n / 0x100_0000 % 256]
  {
    Pow256Values();
    assert Pow256(0) == 1 && Pow256(3) == 0x100_0000;
    LEByte(n, 2, 0);
    LEByte(n, 2, 1);
    LEByte(n, 4, 0);
    LEByte(n, 4, 1);
    LEByte(n, 4, 2);
    LEByte(n, 4, 3);
  }

  lemma LowByte(x: uint8, y: nat)
    ensures (x + 256 * y) % 256 == x && (x + 256 * y) / 256 == y
  {}

  lemma {:induction false} FromLERoundTrip(b: bytes)
    ensures FromLE(b) < Pow256(|b|) && LE(FromLE(b), |b|) == b
    decreases |b|
  {
    if b != [] {
      FromLERoundTrip(b[1..]);
      LowByte(b[0], FromLE(b[1..]));
      assert b == [b[0]] + b[1..];
    }
  }

  // A decoding step: a value and the unread rest, or an error and what it left unread.
  datatype Parsed<+T> = Parsed(value: T, rest: bytes) | Failed(rest: bytes)

  // Exactly n bytes, as binary.Read asks for; a short input is an error that uses it up.
  function TakeFull(s: bytes, n: nat): Parsed<bytes> {
    if |s| >= n then Parsed(s[..n], s[n..]) else Failed([])
  }

  function Zeros(n: nat): (z: bytes)
    ensures |z| == n
  {
    seq(n, _ => 0)
  }

  // Up to n bytes in one read, the rest of the array left zero; only an empty input is an error.
  function TakeSome(s: bytes, n: nat): Parsed<bytes> {
    if s == [] then Failed([])
    else if |s| >= n then Parsed(s[..n], s[n..])
    else Parsed(s + Zeros(n - |s|), [])
  }

  function ParseUint32(s: bytes): Parsed<uint32> {
    match TakeFull(s, 4)
    case Failed(rest) => Failed(rest)
    case Parsed(b, rest) => ParsedUint32(b); Parsed(FromLE(b), rest)
  }

  lemma ParsedUint32(b: bytes)
    requires |b| == 4
    ensures FromLE(b) < TWO_TO_THE_32
  {
    FromLERoundTrip(b);
    Pow256Values();
  }

  // A stream that gives all the bytes it has.
  class Reader {
    var rest: bytes

    constructor (s: bytes)
      ensures rest == s
    {
      rest := s;
    }

    method ReadFull(n: nat) returns (b: Option<bytes>)
      modifies this
      ensures Parsing(TakeFull(old(rest), n), b, rest)
      ensures b.Some? <==> |old(rest)| >= n
      ensures if b.Some? then |b.value| == n && b.value + rest == old(rest) else rest == []
    {
      if |rest| < n {
        rest := [];
        return None;
      }
      b := Some(rest[..n]);
      rest := rest[n..];
    }

    method DecodeArray(n: nat) returns (b: Option<bytes>)
      modifies this
      ensures Parsing(TakeSome(old(rest), n), b, rest)
      ensures b.Some? <==> old(rest) != []
      ensures b.Some? ==> |b.value| == n
      ensures b.Some? && |old(rest)| >= n ==> b.value + rest == old(rest)
      ensures b.Some? && |old(rest)| < n ==> rest == [] && b.value == old(rest) + Zeros(n - |old(rest)|)
    {
      if |rest| == 0 {
        return None;
      }
      var m := if |rest| < n then |rest| else n;
      assert |rest| >= n ==> rest[..m] + Zeros(n - m) == rest[..n];
      assert |rest| < n ==> rest[..m] == rest && rest[m..] == [];
      b := Some(rest[..m] + Zeros(n - m));
      rest := rest[m..];
    }

    method DecodeUint32() returns (n: Option<uint32>)
      modifies this
      ensures Parsing(ParseUint32(old(rest)), n, rest)
      ensures n.Some? <==> |old(rest)| >= 4
      ensures n.Some? ==> LE(n.value, 4) + rest == old(rest)
    {
      var b := ReadFull(4);
      if b.None? {
        return None;
      }
      ParsedUint32(b.value);
      FromLERoundTrip(b.value);
      n := Some(FromLE(b.value));
    }
  }

  // What a decoding method returned and left, against its function.
  predicate Parsing<T(==)>(p: Parsed<T>, value: Option<T>, rest: bytes) {
    rest == p.rest && value == if p.Parsed? then Some(p.value) else None
  }

  // A full read of a prefix.
  lemma TakePrefix(a: bytes, b: bytes)
    ensures TakeFull(a + b, |a|) == Parsed(a, b)
    ensures a != [] ==> TakeSome(a + b, |a|) == Parsed(a, b)
  {
    assert (a + b)[..|a|] == a && (a + b)[|a|..] == b;
  }
}
