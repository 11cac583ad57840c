/** The message frame: a 24-byte header before every payload. */
module Frame {
  import opened Basics
  import opened Wire
  import opened Marshaler

  const COMMAND_LENGTH: nat := 12
  const HEADER_LENGTH: nat := 24

  type Four = b: bytes | |b| == 4 witness [0, 0, 0, 0]
  type Command = b: bytes | |b| == 12 witness seq(12, _ => 0)

  datatype MessageHeader = MessageHeader(magic: Four, command: Command, length: uint32, checksum: Four)
  datatype Message = Message(header: MessageHeader, payload: bytes)

  const MAGIC_LIQUID: Four := [0xfa, 0xbf, 0xb5, 0xda]
  const MAGIC_REGTEST: Four := [0x12, 0x34, 0x56, 0x78]
  const MAGIC_LIQUID_TESTNET: Four := [0x41, 0x0e, 0xdd, 0x62]

  // The keys of the command table.
  const COMMANDS: seq<string> := [
    "block", "getdata", "inv", "ping", "pong", "tx", "verack", "version", "addr", "notfound", "getblocks",
    "getheaders", "headers", "getaddr", "mempool", "checkorder", "submitorder", "reply", "reject", "filterload",
    "filteradd", "filterclear", "merkleblock", "alert", "sendheaders", "feefilter", "sendcmpct", "cmpctblock",
    "getblocktxn", "blocktxn", "getcfilters", "cfilter", "wtxidrelay", "sendaddrv2"]

  function Ascii(s: string): (b: bytes)
    ensures |b| == |s|
  {
    seq(|s|, i requires 0 <= i < |s| => s[i] as int % 0x100)
  }

  // A name, padded with zeros; longer names stop the program.
  function NewCommand(name: bytes): Command
    requires |name| <= COMMAND_LENGTH
  {
    name + Zeros(COMMAND_LENGTH - |name|)
  }

  function TrimLeft(b: bytes): bytes {
    if b != [] && b[0] == 0 then TrimLeft(b[1..]) else b
  }

  function TrimRight(b: bytes): bytes {
    if b != [] && b[|b| - 1] == 0 then TrimRight(b[..|b| - 1]) else b
  }

  // The command as a string, zeros removed on both sides.
  function CommandString(command: bytes): bytes { TrimRight(TrimLeft(command)) }

  // The name is a key of the table.
  predicate IsCommand(name: bytes) {
    exists i :: 0 <= i < |COMMANDS| && Ascii(COMMANDS[i]) == name
  }

  predicate HasValidCommand(h: MessageHeader) { IsCommand(CommandString(h.command)) }

  predicate HasValidMagic(h: MessageHeader) {
    h.magic == MAGIC_LIQUID || h.magic == MAGIC_LIQUID_TESTNET || h.magic == MAGIC_REGTEST
  }

  predicate Validate(h: MessageHeader) { HasValidMagic(h) && HasValidCommand(h) }

  // The length field is the payload's length modulo 2^32. The checksum of the payload is given.
  function FrameOf(command: Command, magic: Four, payload: bytes, checksum: Four): Message {
    Message(MessageHeader(magic, command, Wrap32(|payload|), checksum), payload)
  }

  // A command that is not in the table is refused.
  function NewMessage(name: bytes, magic: Four, payload: bytes, checksum: Four): Option<Message> {
    if !IsCommand(name) then None
    else
      TableNamesAreGood(name);
      Some(FrameOf(NewCommand(name), magic, payload, checksum))
  }

  function HeaderValue(h: MessageHeader): GoValue {
    Struct([Raw(h.magic), Raw(h.command), Uint32(h.length), Raw(h.checksum)])
  }

  function MessageValue(m: Message): GoValue {
    Pointer(Struct([HeaderValue(m.header), Raw(m.payload)]))
  }

  function DecodeHeader(s: bytes): Parsed<MessageHeader> {
    match TakeSome(s, 4)
    case Failed(rest) => Failed(rest)
    case Parsed(magic, s1) =>
      match TakeSome(s1, COMMAND_LENGTH)
      case Failed(rest) => Failed(rest)
      case Parsed(command, s2) =>
        match ParseUint32(s2)
        case Failed(rest) => Failed(rest)
        case Parsed(length, s3) =>
          match TakeSome(s3, 4)
          case Failed(rest) => Failed(rest)
          case Parsed(checksum, rest) => Parsed(MessageHeader(magic, command, length, checksum), rest)
  }

  method ReadHeader(r: Reader) returns (h: Option<MessageHeader>)
    modifies r
    ensures Parsing(DecodeHeader(old(r.rest)), h, r.rest)
  {
    var magic := r.DecodeArray(4);
    if magic.None? {
      return None;
    }
    var command := r.DecodeArray(COMMAND_LENGTH);
    if command.None? {
      return None;
    }
    var length := r.DecodeUint32();
    if length.None? {
      return None;
    }
    var checksum := r.DecodeArray(4);
    if checksum.None? {
      return None;
    }
    h := Some(MessageHeader(magic.value, command.value, length.value, checksum.value));
  }

  lemma {:induction false} TrimZeros(b: bytes, n: nat)
    ensures TrimRight(b + Zeros(n)) == TrimRight(b)
    decreases n
  {
    if n == 0 {
      assert b + Zeros(0) == b;
    } else {
      assert (b + Zeros(n))[..|b| + n - 1] == b + Zeros(n - 1);
      TrimZeros(b, n - 1);
    }
  }

  lemma {:induction false} TrimRightEnds(b: bytes)
    ensures TrimRight(b) <= b
    ensures TrimRight(b) == b <==> b == [] || b[|b| - 1] != 0
    decreases |b|
  {
    if b != [] && b[|b| - 1] == 0 {
      TrimRightEnds(b[..|b| - 1]);
    }
  }

  lemma {:induction false} TrimLeftDropsZeros(b: bytes)
    ensures |TrimLeft(b)| <= |b| && (TrimLeft(b) != [] ==> TrimLeft(b)[0] != 0)
    decreases |b|
  {
    if b != [] && b[0] == 0 {
      TrimLeftDropsZeros(b[1..]);
    }
  }

  lemma {:induction false} TrimLeftAllZeros(n: nat)
    ensures TrimLeft(Zeros(n)) == []
  {
    if n > 0 {
      assert Zeros(n)[1..] == Zeros(n - 1);
      TrimLeftAllZeros(n - 1);
    }
  }

  /** A command name is recovered from its padded form exactly when it neither begins nor ends with a zero byte. */
  lemma CommandRoundTripIff(name: bytes)
    requires |name| <= COMMAND_LENGTH
    ensures CommandString(NewCommand(name)) == name <==> name == [] || (name[0] != 0 && name[|name| - 1] != 0)
  {
    var packed := NewCommand(name);
    if name == [] {
      assert packed == Zeros(COMMAND_LENGTH);
      TrimLeftAllZeros(COMMAND_LENGTH);
    } else if name[0] != 0 {
      assert TrimLeft(packed) == packed;
      TrimZeros(name, COMMAND_LENGTH - |name|);
      TrimRightEnds(name);
    } else {
      TrimLeftDropsZeros(packed);
      TrimRightEnds(TrimLeft(packed));
    }
  }

  // Table names fit the command field and have no zero at either end.
  predicate GoodName(s: string) {
    0 < |s| <= COMMAND_LENGTH && 0 < s[0] as int < 0x100 && 0 < s[|s| - 1] as int < 0x100
  }

  lemma EarlyNamesAreGood(i: nat)
    requires i < 12
    ensures i < |COMMANDS| && GoodName(COMMANDS[i])
  {}

  lemma MiddleNamesAreGood(i: nat)
    requires 12 <= i < 23
    ensures i < |COMMANDS| && GoodName(COMMANDS[i])
  {}

  lemma LateNamesAreGood(i: nat)
    requires 23 <= i < 34
    ensures i < |COMMANDS| && GoodName(COMMANDS[i])
  {}

  lemma NamesAreGood(i: nat)
    requires i < |COMMANDS|
    ensures GoodName(COMMANDS[i])
  {
    assert |COMMANDS| == 34;
    if i < 12 {
      EarlyNamesAreGood(i);
    } else if i < 23 {
      MiddleNamesAreGood(i);
    } else {
      LateNamesAreGood(i);
    }
  }

  lemma GoodAscii(s: string)
    requires GoodName(s)
    ensures 0 < |Ascii(s)| <= COMMAND_LENGTH && Ascii(s)[0] != 0 && Ascii(s)[|s| - 1] != 0
  {}

  lemma TableNamesAreGood(name: bytes)
    requires IsCommand(name)
    ensures 0 < |name| <= COMMAND_LENGTH && name[0] != 0 && name[|name| - 1] != 0
  {
    var i :| 0 <= i < |COMMANDS| && Ascii(COMMANDS[i]) == name;
    NamesAreGood(i);
    GoodAscii(COMMANDS[i]);
  }

  lemma HeaderMarshals(h: MessageHeader)
    ensures MarshalFields(HeaderValue(h).fields) == Some(h.magic + h.command + LE(h.length, 4) + h.checksum)
  {
    var f := HeaderValue(h).fields;
    ThreeFields(f[0], f[1], f[2]);
    assert f[..3] == [f[0], f[1], f[2]];
    assert [] + h.magic == h.magic;
    assert MarshalFields(f) == Concat(MarshalFields(f[..3]), Marshal(f[3]));
  }

  lemma MessageMarshals(m: Message)
    ensures Marshal(MessageValue(m))
         == Some(m.header.magic + m.header.command + LE(m.header.length, 4) + m.header.checksum + m.payload)
  {
    var f := [HeaderValue(m.header), Raw(m.payload)];
    HeaderMarshals(m.header);
    var h := m.header.magic + m.header.command + LE(m.header.length, 4) + m.header.checksum;
    assert f[..1] == [HeaderValue(m.header)] && f[..1][..0] == [];
    assert MarshalFields(f[..1]) == Concat(Some([]), Marshal(HeaderValue(m.header)));
    assert [] + h == h;
    assert MarshalFields(f) == Concat(MarshalFields(f[..1]), Marshal(f[1]));
  }

  lemma HeaderDecodes(h: MessageHeader, suffix: bytes)
    ensures DecodeHeader(h.magic + h.command + LE(h.length, 4) + h.checksum + suffix) == Parsed(h, suffix)
  {
    var s3 := h.checksum + suffix;
    var s2 := LE(h.length, 4) + s3;
    var s1 := h.command + s2;
    assert h.magic + h.command + LE(h.length, 4) + h.checksum + suffix == h.magic + s1;
    TakePrefix(h.magic, s1);
    TakePrefix(h.command, s2);
    TakePrefix(LE(h.length, 4), s3);
    TakePrefix(h.checksum, suffix);
    Pow256Values();
    LERoundTrip(h.length, 4);
  }

  /** Where everything is on the wire: the magic, the command's name and then zeros up to 12 bytes, the length with its
      least significant byte first, the checksum, and the payload. */
  lemma FrameBytes(name: bytes, magic: Four, payload: bytes, checksum: Four)
    requires |name| <= COMMAND_LENGTH
    ensures var m := FrameOf(NewCommand(name), magic, payload, checksum);
            && Marshal(MessageValue(m)).Some?
            && var b := Marshal(MessageValue(m)).value;
            && |b| == 24 + |payload|
            && b[..4] == magic
            && b[4..4 + |name|] == name && b[4 + |name|..16] == Zeros(12 - |name|)
            && b[16..20] == LE(Wrap32(|payload|), 4)
            && b[20..24] == checksum && b[24..] == payload
  {
    var m := FrameOf(NewCommand(name), magic, payload, checksum);
    MessageMarshals(m);
    FiveParts(magic, NewCommand(name), LE(m.header.length, 4), checksum, payload);
    NameFirst(magic, name, LE(m.header.length, 4), checksum, payload);
  }

  lemma FiveParts(a: bytes, b: bytes, c: bytes, d: bytes, e: bytes)
    requires |a| == 4 && |b| == 12 && |c| == 4 && |d| == 4
    ensures var all := a + b + c + d + e;
            all[..4] == a && all[16..20] == c && all[20..24] == d && all[24..] == e
  {}

  lemma NameFirst(a: bytes, name: bytes, c: bytes, d: bytes, e: bytes)
    requires |a| == 4 && |name| <= COMMAND_LENGTH
    ensures var all := a + NewCommand(name) + c + d + e;
            all[4..4 + |name|] == name && all[4 + |name|..16] == Zeros(12 - |name|)
  {
    var head := a + NewCommand(name);
    assert head[4..4 + |name|] == name && head[4 + |name|..16] == Zeros(12 - |name|);
    InHead(head, c, d, e, 4, 4 + |name|);
    InHead(head, c, d, e, 4 + |name|, 16);
  }

  lemma InHead(head: bytes, c: bytes, d: bytes, e: bytes, i: nat, j: nat)
    requires i <= j <= |head|
    ensures (head + c + d + e)[i..j] == head[i..j]
  {}

  // The frame of any command that is not empty and has no zero at either end.
  lemma FrameOfName(name: bytes, magic: Four, payload: bytes, checksum: Four)
    requires 0 < |name| <= COMMAND_LENGTH && name[0] != 0 && name[|name| - 1] != 0
    ensures var m := FrameOf(NewCommand(name), magic, payload, checksum);
            var wire := Marshal(MessageValue(m));
            && wire.Some? && |wire.value| == HEADER_LENGTH + |payload|
            && DecodeHeader(wire.value[..HEADER_LENGTH]) == Parsed(m.header, [])
            && wire.value[HEADER_LENGTH..] == payload
            && CommandString(m.header.command) == name
  {
    CommandRoundTripIff(name);
    var m := FrameOf(NewCommand(name), magic, payload, checksum);
    MessageMarshals(m);
    var h := m.header;
    var head := h.magic + h.command + LE(h.length, 4) + h.checksum;
    assert (head + payload)[..HEADER_LENGTH] == head && (head + payload)[HEADER_LENGTH..] == payload;
    HeaderDecodes(h, []);
    assert head + [] == head;
  }

  lemma LengthFieldIff(n: nat)
    ensures Wrap32(n) == n <==> n < TWO_TO_THE_32
  {}

  /** Frame round trip, for every table command, supported magic, payload and checksum: the first 24 bytes of a
      marshalled message decode to its header, which validates and names the command; the rest is the payload, and
      the length field is its length if and only if that is below 2^32. */
  lemma FrameRoundTrip(name: bytes, magic: Four, payload: bytes, checksum: Four)
    requires IsCommand(name)
    requires magic == MAGIC_LIQUID || magic == MAGIC_LIQUID_TESTNET || magic == MAGIC_REGTEST
    ensures NewMessage(name, magic, payload, checksum).Some?
    ensures var m := NewMessage(name, magic, payload, checksum).value;
            var wire := Marshal(MessageValue(m));
            && wire.Some? && |wire.value| == HEADER_LENGTH + |payload|
            && DecodeHeader(wire.value[..HEADER_LENGTH]) == Parsed(m.header, [])
            && wire.value[..4] == magic
            && wire.value[4..4 + |name|] == name && wire.value[4 + |name|..16] == Zeros(12 - |name|)
            && wire.value[16..20] == LE(Wrap32(|payload|), 4) && wire.value[20..24] == checksum
            && wire.value[HEADER_LENGTH..] == payload
            && Validate(m.header) && CommandString(m.header.command) == name
            && (m.header.length == |wire.value| - HEADER_LENGTH <==> |payload| < TWO_TO_THE_32)
  {
    TableNamesAreGood(name);
    FrameOfName(name, magic, payload, checksum);
    FrameBytes(name, magic, payload, checksum);
    LengthFieldIff(|payload|);
  }

  lemma UnknownIsRefused(name: bytes, magic: Four, payload: bytes, checksum: Four)
    ensures NewMessage(name, magic, payload, checksum).None?
       <==> forall i :: 0 <= i < |COMMANDS| ==> Ascii(COMMANDS[i]) != name
  {}

  // ----- Which headers are accepted -----

  // A name with zeros before it and behind it.
  predicate IsPadded(b: bytes, j: nat, name: bytes, k: nat) {
    b == Zeros(j) + name + Zeros(k)
  }

  lemma ZeroBefore(b: bytes, i: nat, rest: bytes)
    requires b != [] && b[0] == 0 && b[1..] == Zeros(i) + rest
    ensures b == Zeros(i + 1) + rest
  {
    assert b == [0] + b[1..];
    assert Zeros(i + 1) == [0] + Zeros(i);
  }

  lemma ZeroBehind(b: bytes, rest: bytes, i: nat)
    requires b != [] && b[|b| - 1] == 0 && b[..|b| - 1] == rest + Zeros(i)
    ensures b == rest + Zeros(i + 1)
  {
    assert b == b[..|b| - 1] + [0];
    assert Zeros(i + 1) == Zeros(i) + [0];
  }

  lemma {:induction false} TrimLeftOf(b: bytes) returns (j: nat)
    ensures j + |TrimLeft(b)| == |b| && b == Zeros(j) + TrimLeft(b)
    decreases |b|
  {
    if b != [] && b[0] == 0 {
      var i := TrimLeftOf(b[1..]);
      j := i + 1;
      ZeroBefore(b, i, TrimLeft(b[1..]));
    } else {
      j := 0;
      assert b == Zeros(0) + b;
    }
  }

  lemma {:induction false} TrimRightOf(b: bytes) returns (k: nat)
    ensures |TrimRight(b)| + k == |b| && b == TrimRight(b) + Zeros(k)
    decreases |b|
  {
    if b != [] && b[|b| - 1] == 0 {
      var i := TrimRightOf(b[..|b| - 1]);
      k := i + 1;
      ZeroBehind(b, TrimRight(b[..|b| - 1]), i);
    } else {
      k := 0;
      assert b == b + Zeros(0);
    }
  }

  lemma {:induction false} TrimLeftZeros(j: nat, b: bytes)
    requires b == [] || b[0] != 0
    ensures TrimLeft(Zeros(j) + b) == if b == [] then [] else b
  {
    if j == 0 {
      assert Zeros(0) + b == b;
    } else {
      assert (Zeros(j) + b)[1..] == Zeros(j - 1) + b;
      TrimLeftZeros(j - 1, b);
    }
  }

  // Trimming leaves a name without zeros at its ends exactly when there are just zeros around it.
  lemma TrimmedIff(b: bytes, name: bytes)
    requires name != [] && name[0] != 0 && name[|name| - 1] != 0
    ensures CommandString(b) == name <==> exists j, k :: IsPadded(b, j, name, k)
  {
    if CommandString(b) == name {
      var j := TrimLeftOf(b);
      var k := TrimRightOf(TrimLeft(b));
      assert b == Zeros(j) + name + Zeros(k);
      assert IsPadded(b, j, name, k);
    }
    if j, k :| IsPadded(b, j, name, k) {
      assert b == Zeros(j) + (name + Zeros(k));
      TrimLeftZeros(j, name + Zeros(k));
      TrimZeros(name, k);
      TrimRightEnds(name);
    }
  }

  /** A header is accepted if and only if its magic is that of one of the three networks and its command is a name of
      the table with nothing but zeros around it. */
  lemma AcceptedIff(h: MessageHeader)
    ensures Validate(h)
       <==> h.magic in {[0xfa, 0xbf, 0xb5, 0xda], [0x41, 0x0e, 0xdd, 0x62], [0x12, 0x34, 0x56, 0x78]}
            && exists name, j, k :: IsCommand(name) && IsPadded(h.command, j, name, k)
  {
    if HasValidCommand(h) {
      TableNamesAreGood(CommandString(h.command));
      TrimmedIff(h.command, CommandString(h.command));
    }
    if name, j, k :| IsCommand(name) && IsPadded(h.command, j, name, k) {
      TableNamesAreGood(name);
      TrimmedIff(h.command, name);
    }
  }

  lemma TableEntry(i: nat)
    requires i < |COMMANDS|
    ensures IsCommand(Ascii(COMMANDS[i]))
  {}

  // The commands that the requests modelled here go out under are in the table.
  lemma KnownCommands()
    ensures IsCommand(Ascii("getdata")) && IsCommand(Ascii("ping")) && IsCommand(Ascii("getheaders"))
  {
    TableEntry(1);
    TableEntry(3);
    TableEntry(11);
  }

  lemma InvInBytes()
    ensures NewCommand(Ascii("inv")) == [0x69, 0x6e, 0x76] + Zeros(9)
  {}
}
