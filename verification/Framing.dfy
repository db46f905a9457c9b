/** Wire messages of the antenna forwarding protocol: the frame encoder and the frame decoder. */
module Framing {
  import opened Bytes
  import opened Identities

  const HEADER_LEN: nat := 22
  /** The protocol magic 266_244_417_876_907_680_150_892_848_205_622_258_774 as it stands on the wire. */
  const MAGIC: seq<byte> :=
    [0xc8, 0x4c, 0xcf, 0x47, 0xf1, 0x54, 0xc4, 0x53, 0x9a, 0x41, 0x20, 0x9f, 0x5f, 0x0d, 0xac, 0x56]

  const IDENTIFICATION: nat := 0
  const FORWARD: nat := 1
  const ERROR: nat := 2
  const CONNECTION_CLOSE: nat := 3
  const CONNECTION_DATA: nat := 4
  const FORWARDING_CLOSE: nat := 5
  const KEEPALIVE: nat := 6

  /** Identification frames announcing more than this are rejected while they are incomplete. */
  const MAX_PARTIAL_IDENTIFICATION: nat := 10000

  datatype Message =
    | IdentificationMessage(id: Identity)
    | ForwardMessage(ip: IpAddr, serverPort: nat, antennaPort: nat)
    | ErrorMessage(error: string)
    | ConnectionCloseMessage(streamId: u64)
    | ConnectionDataMessage(streamId: u64, payload: seq<byte>)
    | ForwardingCloseMessage
    | KeepAliveMessage

  datatype ProtocolError =
    | SliceTooSmall(expected: nat, actual: nat)
    | SerdeError(message: string)
    | BadMagic
    | InvalidLen
    | WrongPacketType
    | UnknownPacketType
    | DecryptionFailed

  /** What a decoder returns: the frame size and the message, an error, or a panic. */
  type Decoded = Outcome<(nat, Message), ProtocolError>

  /** The JSON library: any pair of functions; `Lawful` is the only thing assumed of it. */
  datatype Json = Json(encode: Message -> seq<byte>, decode: seq<byte> -> Outcome<Message, string>) {
    ghost predicate Lawful() {
      forall m: Message :: decode(encode(m)) == Ok(m)
    }
  }

  function PacketType(m: Message): nat {
    match m
    case IdentificationMessage(_) => IDENTIFICATION
    case ForwardMessage(_, _, _) => FORWARD
    case ErrorMessage(_) => ERROR
    case ConnectionCloseMessage(_) => CONNECTION_CLOSE
    case ConnectionDataMessage(_, _) => CONNECTION_DATA
    case ForwardingCloseMessage => FORWARDING_CLOSE
    case KeepAliveMessage => KEEPALIVE
  }

  /** The bytes after the header. */
  function Body(json: Json, m: Message): seq<byte> {
    match m
    case ConnectionCloseMessage(id) => ToBytes(id, 8)
    case ConnectionDataMessage(id, payload) => ToBytes(id, 8) + payload
    case _ => json.encode(m)
  }

  function Header(packetType: nat, len: nat): (h: seq<byte>)
    ensures |h| == HEADER_LEN
  {
    MAGIC + ToBytes(packetType, 2) + ToBytes(len, 4)
  }

  /** The frame of a message: the length field keeps the low 32 bits of the body length. */
  function Frame(json: Json, m: Message): seq<byte> {
    Header(PacketType(m), Low32(|Body(json, m)|)) + Body(json, m)
  }

  /** The length field holds the body length, and so does the sum with the header length. */
  predicate Fits(json: Json, m: Message) {
    HEADER_LEN + |Body(json, m)| < U32
  }

  // ------------------------------------------------------------------ encoder

  method MakeSerdePacket(json: Json, packetType: nat, m: Message) returns (message: seq<byte>)
    ensures message == Header(packetType, Low32(|json.encode(m)|)) + json.encode(m)
  {
    var payload := json.encode(m);
    message := [];
    message := message + MAGIC;
    message := message + ToBytes(packetType, 2);
    var lenBytes := Low32(|payload|);
    message := message + ToBytes(lenBytes, 4);
    message := message + payload;
  }

  lemma LengthFieldWraps(n: nat)
    ensures Low32(Low32(n) + 8) == Low32(8 + n)
  {
  }

  method MakeClosePacket(id: u64) returns (message: seq<byte>)
    ensures message == Header(CONNECTION_CLOSE, 8) + ToBytes(id, 8)
  {
    message := [];
    message := message + MAGIC;
    message := message + ToBytes(CONNECTION_CLOSE, 2);
    message := message + ToBytes(8, 4);
    message := message + ToBytes(id, 8);
  }

  method MakeDataPacket(id: u64, payload: seq<byte>) returns (message: seq<byte>)
    ensures message == Header(CONNECTION_DATA, Low32(8 + |payload|)) + (ToBytes(id, 8) + payload)
  {
    message := [];
    message := message + MAGIC;
    message := message + ToBytes(CONNECTION_DATA, 2);
    var lenBytes := Low32(Low32(|payload|) + 8);
    LengthFieldWraps(|payload|);
    message := message + ToBytes(lenBytes, 4);
    message := message + ToBytes(id, 8);
    message := message + payload;
  }

  /** `get_message`; it is unimplemented for forward messages, which must be encrypted. */
  method GetMessage(json: Json, m: Message) returns (message: seq<byte>)
    requires !m.ForwardMessage?
    ensures message == Frame(json, m)
  {
    match m
    case ConnectionCloseMessage(id) => message := MakeClosePacket(id);
    case ConnectionDataMessage(id, payload) => message := MakeDataPacket(id, payload);
    case IdentificationMessage(_) => message := MakeSerdePacket(json, IDENTIFICATION, m);
    case ErrorMessage(_) => message := MakeSerdePacket(json, ERROR, m);
    case ForwardingCloseMessage => message := MakeSerdePacket(json, FORWARDING_CLOSE, m);
    case KeepAliveMessage => message := MakeSerdePacket(json, KEEPALIVE, m);
  }

  // ------------------------------------------------------------------ decoder

  function PacketMagic(p: seq<byte>): seq<byte> requires |p| >= HEADER_LEN { p[0..16] }
  function PacketTypeField(p: seq<byte>): nat requires |p| >= HEADER_LEN { FromBytes(p[16..18]) }
  function PacketLen(p: seq<byte>): nat requires |p| >= HEADER_LEN { FromBytes(p[18..22]) }

  function ReadJson(json: Json, p: seq<byte>, len: nat): Decoded
    requires HEADER_LEN + len <= |p|
  {
    match json.decode(p[HEADER_LEN..HEADER_LEN + len])
    case Ok(m) => Ok((HEADER_LEN + len, m))
    case Err(e) => Err(SerdeError(e))
    case Panic => Panic
  }

  /** `read_message`: decodes the frame at the start of `p`. */
  function ReadMessage(json: Json, p: seq<byte>): (r: Decoded)
    ensures r.Ok? ==> HEADER_LEN <= r.value.0 <= |p|
    ensures r.Err? && r.error.SliceTooSmall? ==> r.error.actual == Low32(|p|) && |p| >= HEADER_LEN
  {
    if |p| < HEADER_LEN then Err(InvalidLen)
    else
      var t, len := PacketTypeField(p), PacketLen(p);
      if PacketMagic(p) != MAGIC then Err(BadMagic)
      else if t > 6 then Err(WrongPacketType)
      else if len + HEADER_LEN > |p| then
        if t == IDENTIFICATION && len > MAX_PARTIAL_IDENTIFICATION then Err(WrongPacketType)
        else Err(SliceTooSmall(Low32(len + HEADER_LEN), Low32(|p|)))
      else if t == FORWARD then Err(WrongPacketType)
      else if t == CONNECTION_CLOSE then
        if len != 8 then Err(InvalidLen)
        else IdRange(p); Ok((HEADER_LEN + 8, ConnectionCloseMessage(FromBytes(p[HEADER_LEN..HEADER_LEN + 8]))))
      else if t == CONNECTION_DATA then
        // the stream id slice or the payload slice is out of range
        if len < 8 then Panic
        else IdRange(p); Ok((HEADER_LEN + len,
            ConnectionDataMessage(FromBytes(p[HEADER_LEN..HEADER_LEN + 8]), p[HEADER_LEN + 8..HEADER_LEN + len])))
      else ReadJson(json, p, len)
  }

  lemma IdRange(p: seq<byte>)
    requires |p| >= HEADER_LEN + 8
    ensures FromBytes(p[HEADER_LEN..HEADER_LEN + 8]) < U64
  {
    ToFromBytes(p[HEADER_LEN..HEADER_LEN + 8]);
    Pow256Values();
  }

  // ------------------------------------------------------------------ properties

  lemma FieldsOfHeader(packetType: nat, len: nat, rest: seq<byte>)
    requires packetType < U16 && len < U32
    ensures var p := Header(packetType, len) + rest;
      PacketMagic(p) == MAGIC && PacketTypeField(p) == packetType && PacketLen(p) == len
  {
    var p := Header(packetType, len) + rest;
    Pow256Values();
    assert p[0..16] == MAGIC;
    assert p[16..18] == ToBytes(packetType, 2);
    assert p[18..22] == ToBytes(len, 4);
    FromToBytes(packetType, 2);
    FromToBytes(len, 4);
  }

  /** The fields and the body of a frame whose length field does not wrap. */
  lemma FrameShape(json: Json, m: Message, suffix: seq<byte>)
    requires |Body(json, m)| < U32
    ensures var p, n := Frame(json, m) + suffix, |Body(json, m)|;
      |Frame(json, m)| == HEADER_LEN + n && PacketMagic(p) == MAGIC && PacketTypeField(p) == PacketType(m) &&
      PacketLen(p) == n && p[HEADER_LEN..HEADER_LEN + n] == Body(json, m)
  {
    var body := Body(json, m);
    assert Frame(json, m) + suffix == Header(PacketType(m), |body|) + (body + suffix);
    FieldsOfHeader(PacketType(m), |body|, body + suffix);
  }

  /** Decoding undoes encoding, whatever bytes follow the frame. */
  lemma FrameRoundTrip(json: Json, m: Message, suffix: seq<byte>)
    requires json.Lawful() && !m.ForwardMessage? && |Body(json, m)| < U32
    ensures ReadMessage(json, Frame(json, m) + suffix) == Ok((|Frame(json, m)|, m))
  {
    FrameShape(json, m, suffix);
    if m.ConnectionCloseMessage? || m.ConnectionDataMessage? {
      var body := Body(json, m);
      var p := Frame(json, m) + suffix;
      assert body[..8] == ToBytes(m.streamId, 8);
      assert p[HEADER_LEN..HEADER_LEN + 8] == body[..8];
      assert p[HEADER_LEN + 8..HEADER_LEN + |body|] == body[8..];
      Pow256Values();
      FromToBytes(m.streamId, 8);
    }
  }

  /** A data frame survives the round trip exactly when its length field does not wrap. */
  lemma DataRoundTripIff(json: Json, id: u64, payload: seq<byte>, suffix: seq<byte>)
    requires json.Lawful()
    ensures var m := ConnectionDataMessage(id, payload);
      ReadMessage(json, Frame(json, m) + suffix) == Ok((|Frame(json, m)|, m)) <==> |payload| + 8 < U32
  {
    var m := ConnectionDataMessage(id, payload);
    if |payload| + 8 < U32 {
      FrameRoundTrip(json, m, suffix);
    } else {
      var body := Body(json, m);
      assert Frame(json, m) + suffix == Header(CONNECTION_DATA, Low32(|body|)) + (body + suffix);
      FieldsOfHeader(CONNECTION_DATA, Low32(|body|), body + suffix);
    }
  }

  lemma CutFrame(json: Json, m: Message, n: nat)
    requires Fits(json, m) && HEADER_LEN <= n <= |Frame(json, m)|
    ensures Frame(json, m)[..n] == Header(PacketType(m), |Body(json, m)|) + Body(json, m)[..n - HEADER_LEN]
  {
    hide Header, Body;
  }

  /** Every cut of a frame is refused: below the header without a size, above it with the exact size. */
  lemma TruncatedFrame(json: Json, m: Message, n: nat)
    requires Fits(json, m) && n < |Frame(json, m)|
    ensures ReadMessage(json, Frame(json, m)[..n]) ==
      Err(if n < HEADER_LEN then InvalidLen
          else if m.IdentificationMessage? && |Body(json, m)| > 10000 then WrongPacketType
          else SliceTooSmall(|Frame(json, m)|, n))
  {
    var body := Body(json, m);
    if n >= HEADER_LEN {
      CutFrame(json, m, n);
      FieldsOfHeader(PacketType(m), |body|, body[..n - HEADER_LEN]);
    }
  }

  /** No frame is a prefix of another message's frame. */
  lemma PrefixFree(json: Json, a: Message, b: Message)
    requires json.Lawful() && !a.ForwardMessage? && !b.ForwardMessage?
    requires |Body(json, a)| < U32 && |Body(json, b)| < U32
    requires Frame(json, a) <= Frame(json, b)
    ensures a == b
  {
    var rest := Frame(json, b)[|Frame(json, a)|..];
    assert Frame(json, b) == Frame(json, a) + rest;
    FrameRoundTrip(json, a, rest);
    FrameRoundTrip(json, b, []);
    assert Frame(json, b) + [] == Frame(json, b);
  }

  lemma NextByte(i: nat)
    requires i < 16
    ensures FromBytes(MAGIC[..i + 1]) == 256 * FromBytes(MAGIC[..i]) + MAGIC[i]
  {
    assert MAGIC[..i + 1][..i] == MAGIC[..i];
  }

  lemma MagicValue()
    ensures FromBytes(MAGIC) == 266_244_417_876_907_680_150_892_848_205_622_258_774
  {
    assert MAGIC[..0] == [];
    NextByte(0);
    assert FromBytes(MAGIC[..1]) == 0xc8;
    NextByte(1);
    assert FromBytes(MAGIC[..2]) == 0xc84c;
    NextByte(2);
    assert FromBytes(MAGIC[..3]) == 0xc84ccf;
    NextByte(3);
    assert FromBytes(MAGIC[..4]) == 0xc84ccf47;
    NextByte(4);
    assert FromBytes(MAGIC[..5]) == 0xc84ccf47f1;
    NextByte(5);
    assert FromBytes(MAGIC[..6]) == 0xc84ccf47f154;
    NextByte(6);
    assert FromBytes(MAGIC[..7]) == 0xc84ccf47f154c4;
    NextByte(7);
    assert FromBytes(MAGIC[..8]) == 0xc84ccf47f154c453;
    NextByte(8);
    assert FromBytes(MAGIC[..9]) == 0xc84ccf47f154c4539a;
    NextByte(9);
    assert FromBytes(MAGIC[..10]) == 0xc84ccf47f154c4539a41;
    NextByte(10);
    assert FromBytes(MAGIC[..11]) == 0xc84ccf47f154c4539a4120;
    NextByte(11);
    assert FromBytes(MAGIC[..12]) == 0xc84ccf47f154c4539a41209f;
    NextByte(12);
    assert FromBytes(MAGIC[..13]) == 0xc84ccf47f154c4539a41209f5f;
    NextByte(13);
    assert FromBytes(MAGIC[..14]) == 0xc84ccf47f154c4539a41209f5f0d;
    NextByte(14);
    assert FromBytes(MAGIC[..15]) == 0xc84ccf47f154c4539a41209f5f0dac;
    NextByte(15);
    assert FromBytes(MAGIC[..16]) == 0xc84ccf47f154c4539a41209f5f0dac56;
    assert MAGIC[..16] == MAGIC;
  }

  /** The numbers on the wire: the protocol magic, the packet type of each message and the body length. */
  lemma WireNumbers(json: Json, m: Message)
    requires |Body(json, m)| < 0x1_0000_0000
    ensures var frame := Frame(json, m);
      |frame| == 22 + |Body(json, m)| &&
      FromBytes(frame[..16]) == 266_244_417_876_907_680_150_892_848_205_622_258_774 &&
      FromBytes(frame[16..18]) ==
      (match m
       case IdentificationMessage(_) => 0
       case ForwardMessage(_, _, _) => 1
       case ErrorMessage(_) => 2
       case ConnectionCloseMessage(_) => 3
       case ConnectionDataMessage(_, _) => 4
       case ForwardingCloseMessage => 5
       case KeepAliveMessage => 6) &&
      FromBytes(frame[18..22]) == |Body(json, m)| && frame[22..] == Body(json, m) &&
      (m.ConnectionDataMessage? ==> FromBytes(frame[22..30]) == m.streamId && frame[30..] == m.payload) &&
      (m.ConnectionCloseMessage? ==> FromBytes(frame[22..]) == m.streamId)
  {
    hide FromBytes, ReadMessage;
    MagicValue();
    FrameShape(json, m, []);
    var frame := Frame(json, m);
    assert frame + [] == frame && frame[..16] == frame[0..16];
    assert frame[22..] == frame[22..22 + |Body(json, m)|];
    if m.ConnectionDataMessage? || m.ConnectionCloseMessage? {
      IdOnWire(m.streamId);
      assert Body(json, m)[..8] == ToBytes(m.streamId, 8);
      assert frame[22..30] == frame[22..][..8] && frame[30..] == frame[22..][8..];
    }
  }

  lemma IdOnWire(id: u64)
    ensures FromBytes(ToBytes(id, 8)) == id
  {
    Pow256Values();
    FromToBytes(id, 8);
  }

  /** Which bytes decode: the right magic, a known type other than forward, and a whole body of the right form. */
  lemma DecodesIff(json: Json, p: seq<byte>)
    ensures ReadMessage(json, p).Ok? <==>
      |p| >= 22 && p[..16] == MAGIC &&
      var t, len := FromBytes(p[16..18]), FromBytes(p[18..22]);
      22 + len <= |p| &&
      ((t == 3 && len == 8) || (t == 4 && len >= 8) || (t in {0, 2, 5, 6} && json.decode(p[22..22 + len]).Ok?))
  {
    hide FromBytes;
    if |p| >= 22 {
      assert p[0..16] == p[..16];
    }
  }

  /** Decoding a close or data frame is undone by encoding it; the others hold what their text decodes to. */
  lemma DecodedIsFrame(json: Json, p: seq<byte>)
    requires ReadMessage(json, p).Ok?
    ensures var (n, m) := ReadMessage(json, p).value;
      n == 22 + FromBytes(p[18..22]) &&
      if FromBytes(p[16..18]) in {3, 4} then
        (m.ConnectionCloseMessage? <==> FromBytes(p[16..18]) == 3) && p[..n] == Frame(json, m)
      else json.decode(p[22..n]) == Ok(m)
  {
    var (n, m) := ReadMessage(json, p).value;
    if PacketTypeField(p) == CONNECTION_CLOSE || PacketTypeField(p) == CONNECTION_DATA {
      IdRange(p);
      ToFromBytes(p[22..30]);
      ToFromBytes(p[16..18]);
      ToFromBytes(p[18..22]);
      FramePieces(p, n);
      hide FromBytes, ToBytes;
    }
  }

  lemma FramePieces(p: seq<byte>, n: nat)
    requires 30 <= n <= |p|
    ensures p[..n] == p[0..16] + p[16..18] + p[18..22] + (p[22..30] + p[30..n])
    ensures n == 30 ==> p[22..30] + p[30..n] == p[22..30]
  {
  }

  /** Why bytes with a whole header do not decode. */
  lemma DecodeErrors(json: Json, p: seq<byte>)
    requires |p| >= 22
    ensures p[..16] != MAGIC ==> ReadMessage(json, p) == Err(BadMagic)
    ensures p[..16] == MAGIC && FromBytes(p[16..18]) > 6 ==> ReadMessage(json, p) == Err(WrongPacketType)
    ensures p[..16] == MAGIC && 22 + FromBytes(p[18..22]) <= |p| ==>
      var t, len := FromBytes(p[16..18]), FromBytes(p[18..22]);
      (t == 1 ==> ReadMessage(json, p) == Err(WrongPacketType)) &&
      (t == 3 && len != 8 ==> ReadMessage(json, p) == Err(InvalidLen)) &&
      (t in {0, 2, 5, 6} && json.decode(p[22..22 + len]).Err? ==>
       ReadMessage(json, p) == Err(SerdeError(json.decode(p[22..22 + len]).error)))
  {
    hide FromBytes;
    assert p[0..16] == p[..16];
  }

  /** A decoded message does not depend on the bytes after its frame. */
  lemma DecodeStable(json: Json, p: seq<byte>, suffix: seq<byte>)
    requires ReadMessage(json, p).Ok?
    ensures ReadMessage(json, p + suffix) == ReadMessage(json, p)
  {
    var q := p + suffix;
    assert q[0..16] == p[0..16] && q[16..18] == p[16..18] && q[18..22] == p[18..22];
    var len := PacketLen(p);
    assert q[HEADER_LEN..HEADER_LEN + len] == p[HEADER_LEN..HEADER_LEN + len];
    if PacketTypeField(p) == CONNECTION_CLOSE || PacketTypeField(p) == CONNECTION_DATA {
      assert q[HEADER_LEN..HEADER_LEN + 8] == p[HEADER_LEN..HEADER_LEN + 8];
      assert q[HEADER_LEN + 8..HEADER_LEN + len] == p[HEADER_LEN + 8..HEADER_LEN + len];
    }
  }

  /** The decoder aborts the thread exactly on a complete data frame too short for its stream id. */
  lemma PanicsIff(json: Json, p: seq<byte>)
    requires forall b :: !json.decode(b).Panic?
    ensures ReadMessage(json, p).Panic? <==>
      |p| >= HEADER_LEN && PacketMagic(p) == MAGIC && PacketTypeField(p) == CONNECTION_DATA &&
      PacketLen(p) < 8 && HEADER_LEN + PacketLen(p) <= |p|
  {
  }

  /** A concrete frame that aborts it: a data frame with an empty body. */
  lemma PanicExample(json: Json)
    ensures ReadMessage(json, Header(CONNECTION_DATA, 0)).Panic?
  {
    FieldsOfHeader(CONNECTION_DATA, 0, []);
    assert Header(CONNECTION_DATA, 0) + [] == Header(CONNECTION_DATA, 0);
  }
}
