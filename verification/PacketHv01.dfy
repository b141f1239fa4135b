/**
  HV01 packets: a header of big-endian fields written into a 43-byte buffer whose last byte is padding,
  followed by the payload. Packing raises for fields out of range; unpacking raises for a short buffer, a wrong
  magic number or version, or undeclared flag bits.
 */
module PacketHv01 {
  import opened Wrappers

  type Byte = b: int | 0 <= b < 256

  const MAGIC := 0x48563031
  const PROTOCOL_VERSION := 3
  const HEADER_SIZE := 43
  const U32 := 0x1_0000_0000

  /** The six declared flags occupy the bits below 64. */
  const FLAG_LIMIT := 64

  datatype Header = Header(nodeId: int, seqId: int, flags: int, nonce: seq<Byte>, length: int)

  datatype Packet = Packet(header: Header, payload: seq<Byte>)

  datatype Error = StructError | TooShort | BadMagic | BadVersion | BadFlags

  // ----- big-endian 32-bit fields -----

  function PutU32(x: int): (r: seq<Byte>)
    requires 0 <= x < U32
    ensures |r| == 4
  {
    [x / 0x100_0000, x / 0x1_0000 % 256, x / 256 % 256, x % 256]
  }

  function GetU32(data: seq<Byte>, at: nat): (x: int)
    requires at + 4 <= |data|
    ensures 0 <= x < U32
  {
    var a: int, b: int, c: int, d: int := data[at], data[at + 1], data[at + 2], data[at + 3];
    a * 0x100_0000 + b * 0x1_0000 + c * 256 + d
  }

  lemma GetPut(front: seq<Byte>, x: int, back: seq<Byte>)
    requires 0 <= x < U32
    ensures GetU32(front + PutU32(x) + back, |front|) == x
  {
    var data := front + PutU32(x) + back;
    assert forall i :: 0 <= i < 4 ==> data[|front| + i] == PutU32(x)[i];
    assert x / 256 / 256 == x / 0x1_0000 && x / 0x1_0000 / 256 == x / 0x100_0000;
  }

  lemma PutGet(data: seq<Byte>, at: nat)
    requires at + 4 <= |data|
    ensures PutU32(GetU32(data, at)) == data[at..at + 4]
  {
    var a, b, c, d := data[at] as int, data[at + 1] as int, data[at + 2] as int, data[at + 3] as int;
    var x := GetU32(data, at);
    assert x == 256 * (256 * (256 * a + b) + c) + d;
    assert x / 256 == 256 * (256 * a + b) + c && x % 256 == d;
    assert x / 256 / 256 == 256 * a + b && x / 0x1_0000 == x / 256 / 256;
    assert x / 0x1_0000 / 256 == a && x / 0x100_0000 == x / 0x1_0000 / 256;
  }

  /** Big-endian: the first byte is the most significant, so equal numbers aside the first differing byte decides. */
  lemma BigEndian(a: Byte, b: Byte, c: Byte, d: Byte)
    ensures GetU32([a, b, c, d], 0) == ((a * 256 + b) * 256 + c) * 256 + d
    ensures PutU32(((a * 256 + b) * 256 + c) * 256 + d) == [a, b, c, d]
  {
    var data: seq<Byte> := [a, b, c, d];
    PutGet(data, 0);
    assert data[0..4] == data;
  }

  // ----- packing -----

  /** The ranges struct.pack_into demands; the buffer must still reach offset 42 after the nonce was assigned to its slice. */
  predicate Packable(h: Header) {
    0 <= h.nodeId < U32 && 0 <= h.seqId < U32 && 0 <= h.flags < 256 && 0 <= h.length < U32 && |h.nonce| >= 23
  }

  /** Everything before the length field. */
  function Prefix(h: Header): seq<Byte>
    requires Packable(h)
  {
    PutU32(MAGIC) + [PROTOCOL_VERSION] + PutU32(h.nodeId) + PutU32(h.seqId) + [h.flags] + h.nonce
  }

  /** A nonce of another length shifts the tail of the buffer, and the length field is written at offset 38 all the same. */
  function HeaderBytes(h: Header): seq<Byte>
    requires Packable(h)
  {
    var buffer := Prefix(h) + [0, 0, 0, 0, 0];
    buffer[..38] + PutU32(h.length) + buffer[42..]
  }

  function Pack(p: Packet): Result<seq<Byte>, Error> {
    if Packable(p.header) then Ok(HeaderBytes(p.header) + p.payload) else Err(StructError)
  }

  // ----- unpacking -----

  function UnpackHeader(data: seq<Byte>): Result<Header, Error> {
    if |data| < HEADER_SIZE then Err(TooShort)
    else if GetU32(data, 0) != MAGIC then Err(BadMagic)
    else if data[4] != PROTOCOL_VERSION then Err(BadVersion)
    else if data[13] >= FLAG_LIMIT then Err(BadFlags)
    else Ok(Header(GetU32(data, 5), GetU32(data, 9), data[13], data[14..38], GetU32(data, 38)))
  }

  /** A Python slice past the end is cut short. */
  function Slice(data: seq<Byte>, from: nat, to: nat): seq<Byte>
    requires from <= |data| && from <= to
  {
    if to <= |data| then data[from..to] else data[from..]
  }

  function Unpack(data: seq<Byte>): Result<Packet, Error> {
    var h := UnpackHeader(data);
    if h.Err? then Err(h.error)
    else Ok(Packet(h.value, Slice(data, HEADER_SIZE, HEADER_SIZE + h.value.length)))
  }

  // ----- round trips -----

  /** A header the class can hold and pack to its intended layout: declared flags and a 24-byte nonce. */
  predicate WellFormed(h: Header) {
    Packable(h) && h.flags < FLAG_LIMIT && |h.nonce| == 24
  }

  lemma HeaderLayout(h: Header)
    requires WellFormed(h)
    ensures HeaderBytes(h) == PutU32(MAGIC) + [PROTOCOL_VERSION] + PutU32(h.nodeId) + PutU32(h.seqId) + [h.flags] + h.nonce + PutU32(h.length) + [0]
    ensures |HeaderBytes(h)| == HEADER_SIZE
  {
  }

  /** Every packed header starts with the bytes of "HV01" and the version, and has the flags at offset 13. */
  lemma MagicBytes(h: Header)
    requires WellFormed(h)
    ensures HeaderBytes(h)[..5] == ['H' as int, 'V' as int, '0' as int, '1' as int, 3] && HeaderBytes(h)[13] == h.flags
  {
    HeaderLayout(h);
    BigEndian(0x48, 0x56, 0x30, 0x31);
  }

  lemma MagicIsHV01(data: seq<Byte>)
    requires |data| >= 4
    ensures GetU32(data, 0) == MAGIC <==> data[0..4] == ['H' as int, 'V' as int, '0' as int, '1' as int]
  {
    PutGet(data, 0);
    BigEndian(0x48, 0x56, 0x30, 0x31);
    assert data[0..4] == [data[0], data[1], data[2], data[3]];
  }

  /** What unpacks, by its bytes: at least 43 of them, "HV01", version 3, and no flag bit of 64 or above. */
  lemma UnpackSucceedsExactly(data: seq<Byte>)
    ensures Unpack(data).Ok? <==>
      |data| >= 43 && data[..5] == ['H' as int, 'V' as int, '0' as int, '1' as int, 3] && data[13] < 64
  {
    if |data| >= 43 {
      MagicIsHV01(data);
      var word: seq<int> := data[0..4];
      assert data[..5] == word + [data[4]];
      if data[..5] == ['H' as int, 'V' as int, '0' as int, '1' as int, 3] {
        assert word == data[..5][..4] && data[4] == data[..5][4];
      }
    }
  }

  lemma HeaderRoundTrip(h: Header, rest: seq<Byte>)
    requires WellFormed(h)
    ensures UnpackHeader(HeaderBytes(h) + rest) == Ok(h)
  {
    HeaderLayout(h);
    var data := HeaderBytes(h) + rest;
    assert data[..4] == PutU32(MAGIC) && data[5..9] == PutU32(h.nodeId);
    assert data[9..13] == PutU32(h.seqId) && data[38..42] == PutU32(h.length);
    FieldAt(data, 0, [], MAGIC);
    FieldAt(data, 5, data[..5], h.nodeId);
    FieldAt(data, 9, data[..9], h.seqId);
    FieldAt(data, 38, data[..38], h.length);
    assert data[14..38] == h.nonce;
  }

  lemma FieldAt(data: seq<Byte>, at: nat, front: seq<Byte>, x: int)
    requires 0 <= x < U32 && at + 4 <= |data| && front == data[..at] && data[at..at + 4] == PutU32(x)
    ensures GetU32(data, at) == x
  {
    assert data == front + PutU32(x) + data[at + 4..];
    GetPut(front, x, data[at + 4..]);
  }

  /** HV01 round trip: a well-formed packet whose length field is its payload's size survives packing, whatever bytes follow it. */
  lemma RoundTrip(p: Packet, suffix: seq<Byte>)
    requires WellFormed(p.header) && p.header.length == |p.payload|
    ensures Pack(p).Ok? && Unpack(Pack(p).value + suffix) == Ok(p)
  {
    var bytes := HeaderBytes(p.header);
    HeaderLayout(p.header);
    assert bytes + p.payload + suffix == bytes + (p.payload + suffix);
    HeaderRoundTrip(p.header, p.payload + suffix);
    assert (bytes + p.payload + suffix)[HEADER_SIZE..HEADER_SIZE + |p.payload|] == p.payload;
  }

  /** The payload read is what the length field says, as far as there are bytes. */
  lemma ReadsPayload(h: Header, rest: seq<Byte>)
    requires WellFormed(h)
    ensures Unpack(HeaderBytes(h) + rest) == Ok(Packet(h, if h.length <= |rest| then rest[..h.length] else rest))
  {
    var bytes := HeaderBytes(h);
    HeaderLayout(h);
    HeaderRoundTrip(h, rest);
    assert h.length <= |rest| ==> (bytes + rest)[HEADER_SIZE..HEADER_SIZE + h.length] == rest[..h.length];
    assert (bytes + rest)[HEADER_SIZE..] == rest;
  }

  /**
    Exactly when, suffix by suffix: a packet with declared flags that packs at all survives what follows it if
    and only if its nonce has 24 bytes and its length field is its payload's size, or too large with nothing following.
   */
  lemma SurvivesSuffixExactly(p: Packet, suffix: seq<Byte>)
    requires Packable(p.header) && p.header.flags < FLAG_LIMIT
    ensures Unpack(Pack(p).value + suffix) == Ok(p) <==>
      |p.header.nonce| == 24 && (p.header.length == |p.payload| || (p.header.length > |p.payload| && suffix == []))
  {
    var h, rest := p.header, p.payload + suffix;
    if |h.nonce| == 24 {
      assert Pack(p).value + suffix == HeaderBytes(h) + rest;
      ReadsPayload(h, rest);
      if h.length <= |rest| {
        assert |rest[..h.length]| == h.length;
        assert h.length == |p.payload| ==> rest[..h.length] == p.payload;
      } else {
        assert suffix == [] ==> rest == p.payload;
      }
    }
  }

  /** Over all suffixes: it survives every one if and only if its nonce has 24 bytes and its length field is its payload's size. */
  lemma RoundTripExactly(p: Packet)
    requires Packable(p.header) && p.header.flags < FLAG_LIMIT
    ensures (forall suffix :: Unpack(Pack(p).value + suffix) == Ok(p)) <==> |p.header.nonce| == 24 && p.header.length == |p.payload|
  {
    forall suffix
      ensures Unpack(Pack(p).value + suffix) == Ok(p) <==>
        |p.header.nonce| == 24 && (p.header.length == |p.payload| || (p.header.length > |p.payload| && suffix == []))
    {
      SurvivesSuffixExactly(p, suffix);
    }
    var zero: seq<Byte> := [0];
    assert Unpack(Pack(p).value + zero) == Ok(p) ==> |p.header.nonce| == 24 && p.header.length == |p.payload|;
  }

  /** Unpacking accepts only what packing produces: its result, packed again, is the input it read, with the padding byte cleared. */
  lemma UnpackThenPack(data: seq<Byte>)
    requires Unpack(data).Ok?
    ensures var p := Unpack(data).value;
      && WellFormed(p.header)
      && Pack(p) == Ok(data[..42] + [0] + Slice(data, HEADER_SIZE, HEADER_SIZE + p.header.length))
  {
    var h := Unpack(data).value.header;
    PutGet(data, 0);
    PutGet(data, 5);
    PutGet(data, 9);
    PutGet(data, 38);
    HeaderLayout(h);
    assert data[..42] == data[0..4] + [data[4]] + data[5..9] + data[9..13] + [data[13]] + data[14..38] + data[38..42];
  }

  // ----- the buffer -----

  /** Header.pack: writes the fields into a zeroed buffer; assigning the nonce to a slice may resize it. */
  method PackHeader(h: Header) returns (r: Result<seq<Byte>, Error>)
    ensures r == if Packable(h) then Ok(HeaderBytes(h)) else Err(StructError)
  {
    var buffer: seq<Byte> := seq(HEADER_SIZE, _ => 0);
    buffer := buffer[..0] + PutU32(MAGIC) + buffer[4..];
    assert |buffer| == HEADER_SIZE && forall i :: 14 <= i < 43 ==> buffer[i] == 0;
    buffer := buffer[4 := PROTOCOL_VERSION];
    if !(0 <= h.nodeId < U32) { return Err(StructError); }
    buffer := buffer[..5] + PutU32(h.nodeId) + buffer[9..];
    assert |buffer| == HEADER_SIZE && forall i :: 14 <= i < 43 ==> buffer[i] == 0;
    if !(0 <= h.seqId < U32) { return Err(StructError); }
    buffer := buffer[..9] + PutU32(h.seqId) + buffer[13..];
    assert |buffer| == HEADER_SIZE && forall i :: 14 <= i < 43 ==> buffer[i] == 0;
    if !(0 <= h.flags < 256) { return Err(StructError); }
    buffer := buffer[13 := h.flags];
    assert buffer[..14] == PutU32(MAGIC) + [PROTOCOL_VERSION] + PutU32(h.nodeId) + PutU32(h.seqId) + [h.flags];
    assert buffer[38..] == [0, 0, 0, 0, 0];
    buffer := buffer[..14] + h.nonce + buffer[38..];
    if |buffer| < 42 || !(0 <= h.length < U32) { return Err(StructError); }
    assert buffer == Prefix(h) + [0, 0, 0, 0, 0];
    buffer := buffer[..38] + PutU32(h.length) + buffer[42..];
    return Ok(buffer);
  }
}
