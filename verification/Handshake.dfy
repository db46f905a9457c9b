/** The start of a forwarding session: the encrypted forward message and the reader that expects it. */
module Handshake {
  import opened Bytes
  import opened Framing
  import opened Reader

  const NONCE_LEN: nat := 24

  /** The number of retries of the reader that waits for the forward message. */
  const START_WAIT_TIME: nat := 10

  /** The authenticated box between one server and one client key pair; `Lawful` is all that is assumed of it. */
  datatype CryptoBox = CryptoBox(seal: (seq<byte>, seq<byte>) -> seq<byte>,
                                 open: (seq<byte>, seq<byte>) -> Option<seq<byte>>) {
    ghost predicate Lawful() {
      forall plain: seq<byte>, nonce: seq<byte> :: open(seal(plain, nonce), nonce) == Some(plain)
    }
  }

  function EncryptedBody(json: Json, box: CryptoBox, nonce: seq<byte>, m: Message): seq<byte> {
    nonce + box.seal(json.encode(m), nonce)
  }

  function EncryptedFrame(json: Json, box: CryptoBox, nonce: seq<byte>, m: Message): seq<byte> {
    Header(FORWARD, Low32(|EncryptedBody(json, box, nonce, m)|)) + EncryptedBody(json, box, nonce, m)
  }

  /** `get_encrypted_forward_message`; the nonce comes from the library's generator. */
  method GetEncryptedForwardMessage(json: Json, box: CryptoBox, nonce: seq<byte>, m: Message)
    returns (r: Outcome<seq<byte>, ProtocolError>)
    requires |nonce| == NONCE_LEN
    ensures r == if m.ForwardMessage? then Ok(EncryptedFrame(json, box, nonce, m)) else Err(WrongPacketType)
  {
    if !m.ForwardMessage? {
      return Err(WrongPacketType);
    }
    var payload := [];
    payload := payload + nonce;
    payload := payload + box.seal(json.encode(m), nonce);
    assert payload == EncryptedBody(json, box, nonce, m);
    var message := [];
    message := message + MAGIC;
    message := message + ToBytes(FORWARD, 2);
    message := message + ToBytes(Low32(|payload|), 4);
    assert message == Header(FORWARD, Low32(|payload|));
    message := message + payload;
    return Ok(message);
  }

  /** `read_encrypted_forward_message`. */
  function ReadEncrypted(json: Json, box: CryptoBox, p: seq<byte>): (r: Decoded)
    ensures r.Ok? ==> HEADER_LEN <= r.value.0 <= |p|
    ensures r.Err? && r.error.SliceTooSmall? ==> r.error.actual == Low32(|p|) && |p| >= HEADER_LEN
  {
    if |p| < HEADER_LEN then Err(InvalidLen)
    else
      var len := PacketLen(p);
      if PacketMagic(p) != MAGIC then Err(BadMagic)
      else if PacketTypeField(p) != FORWARD then Err(WrongPacketType)
      else if len + HEADER_LEN > |p| then Err(SliceTooSmall(Low32(len + HEADER_LEN), Low32(|p|)))
      // the nonce slice or the ciphertext slice is out of range
      else if len < NONCE_LEN then Panic
      else
        var nonce := p[HEADER_LEN..HEADER_LEN + NONCE_LEN];
        var cipher := p[HEADER_LEN + NONCE_LEN..HEADER_LEN + len];
        match box.open(cipher, nonce)
        case None => Err(DecryptionFailed)
        case Some(plain) =>
          match json.decode(plain)
          case Ok(m) => Ok((HEADER_LEN + len, m))
          case Err(e) => Err(SerdeError(e))
          case Panic => Panic
  }

  lemma EncryptedFields(json: Json, box: CryptoBox, nonce: seq<byte>, m: Message, k: nat, suffix: seq<byte>)
    requires |EncryptedBody(json, box, nonce, m)| < U32 && k <= |EncryptedBody(json, box, nonce, m)|
    ensures var body := EncryptedBody(json, box, nonce, m);
      var p := EncryptedFrame(json, box, nonce, m)[..HEADER_LEN + k] + suffix;
      |p| >= HEADER_LEN && PacketMagic(p) == MAGIC && PacketTypeField(p) == FORWARD && PacketLen(p) == |body| &&
      p[HEADER_LEN..] == body[..k] + suffix
  {
    var body := EncryptedBody(json, box, nonce, m);
    var p := EncryptedFrame(json, box, nonce, m)[..HEADER_LEN + k] + suffix;
    assert p == Header(FORWARD, |body|) + (body[..k] + suffix);
    FieldsOfHeader(FORWARD, |body|, body[..k] + suffix);
  }

  lemma SlicesBehind<T>(p: seq<T>, head: nat, mid: nat, end: nat)
    requires mid <= end && head + end <= |p|
    ensures p[head..head + mid] == p[head..][..mid]
    ensures p[head + mid..head + end] == p[head..][mid..end]
  {
  }

  /** Decrypting undoes encrypting, whatever follows; the plain decoder refuses the same frame. */
  lemma EncryptedRoundTrip(json: Json, box: CryptoBox, nonce: seq<byte>, m: Message, suffix: seq<byte>)
    requires json.Lawful() && box.Lawful() && |nonce| == NONCE_LEN
    requires |EncryptedBody(json, box, nonce, m)| < U32
    ensures var frame := EncryptedFrame(json, box, nonce, m);
      ReadEncrypted(json, box, frame + suffix) == Ok((|frame|, m)) &&
      ReadMessage(json, frame + suffix) == Err(WrongPacketType)
  {
    var body := EncryptedBody(json, box, nonce, m);
    var frame := EncryptedFrame(json, box, nonce, m);
    EncryptedFields(json, box, nonce, m, |body|, suffix);
    assert frame[..HEADER_LEN + |body|] == frame && body[..|body|] == body;
    var p := frame + suffix;
    var q := p[HEADER_LEN..];
    assert q == body + suffix;
    SlicesBehind(p, HEADER_LEN, NONCE_LEN, |body|);
    assert q[..NONCE_LEN] == nonce;
    assert q[NONCE_LEN..|body|] == box.seal(json.encode(m), nonce);
  }

  /** An incomplete encrypted frame is waited on by both decoders as soon as its header is there. */
  lemma EncryptedTruncated(json: Json, box: CryptoBox, nonce: seq<byte>, m: Message, n: nat)
    requires HEADER_LEN + |EncryptedBody(json, box, nonce, m)| < U32
    requires n < |EncryptedFrame(json, box, nonce, m)|
    ensures var frame := EncryptedFrame(json, box, nonce, m);
      var e := if n < HEADER_LEN then InvalidLen else SliceTooSmall(|frame|, n);
      ReadEncrypted(json, box, frame[..n]) == Err(e) && ReadMessage(json, frame[..n]) == Err(e)
  {
    if n >= HEADER_LEN {
      EncryptedFields(json, box, nonce, m, n - HEADER_LEN, []);
      var cut := EncryptedFrame(json, box, nonce, m)[..n];
      assert cut + [] == cut;
    }
  }

  /** Which bytes decrypt: a whole forward frame whose nonce opens its ciphertext to the text of the message. */
  lemma EncryptedDecodesIff(json: Json, box: CryptoBox, p: seq<byte>, n: nat, m: Message)
    ensures ReadEncrypted(json, box, p) == Ok((n, m)) <==>
      |p| >= 22 && p[..16] == MAGIC && FromBytes(p[16..18]) == 1 &&
      var len := FromBytes(p[18..22]);
      24 <= len && n == 22 + len && n <= |p| &&
      var plain := box.open(p[46..n], p[22..46]);
      plain.Some? && json.decode(plain.value) == Ok(m)
  {
    hide FromBytes;
    if |p| >= 22 {
      assert p[0..16] == p[..16];
    }
  }

  /** The layout of an encrypted frame: type 1, the length of nonce and ciphertext, the nonce, the ciphertext. */
  lemma EncryptedLayout(json: Json, box: CryptoBox, nonce: seq<byte>, m: Message)
    requires |nonce| == 24 && |EncryptedBody(json, box, nonce, m)| < U32
    ensures var frame := EncryptedFrame(json, box, nonce, m);
      |frame| >= 46 && frame[..16] == MAGIC && FromBytes(frame[16..18]) == 1 &&
      FromBytes(frame[18..22]) == |frame| - 22 && frame[22..46] == nonce &&
      frame[46..] == box.seal(json.encode(m), nonce)
  {
    var body := EncryptedBody(json, box, nonce, m);
    var frame := EncryptedFrame(json, box, nonce, m);
    FieldsOfHeader(FORWARD, |body|, body);
    assert frame == Header(FORWARD, |body|) + body && frame[22..] == body && frame[..16] == frame[0..16];
    assert body[..24] == nonce && body[24..] == box.seal(json.encode(m), nonce);
    hide FromBytes, Header, EncryptedBody;
    assert frame[22..46] == frame[22..][..24] && frame[46..] == frame[22..][24..];
  }

  datatype StartError =
    | StartEndNotFound
    | StartReadFailed
    | DoubleReadFailure(a: ProtocolError, b: ProtocolError)
    | ImpossibleError
    | Later(error: ReadError)

  datatype StartRun = StartRun(outcome: Outcome<seq<Message>, StartError>, script: seq<ReadEvent>)

  /** What the start reader decides on one buffer. */
  datatype StartPass =
    | StartReturn(outcome: Outcome<seq<Message>, StartError>)
    | StartForward(size: nat, message: Message)
    | StartWait

  function StartOnePass(json: Json, box: CryptoBox, buffer: seq<byte>): (p: StartPass)
    ensures p.StartForward? ==> p.size <= |buffer|
  {
    var plain, encrypted := ReadMessage(json, buffer), ReadEncrypted(json, box, buffer);
    if plain.Panic? || encrypted.Panic? then StartReturn(Panic)
    else if plain.Ok? && plain.value.1.ForwardingCloseMessage? then StartReturn(Ok([ForwardingCloseMessage]))
    else if encrypted.Ok? then StartForward(encrypted.value.0, encrypted.value.1)
    else if plain.Err? && plain.error.SliceTooSmall? then StartWait
    else if encrypted.error.SliceTooSmall? then StartWait
    else if plain.Err? then StartReturn(Err(DoubleReadFailure(plain.error, encrypted.error)))
    else StartReturn(Err(ImpossibleError))
  }

  /** `read_messages_start_internal`. */
  function ReadStart(json: Json, box: CryptoBox, script: seq<ReadEvent>, bytes: seq<byte>, depth: nat): StartRun
    requires depth <= START_WAIT_TIME + 1
    decreases START_WAIT_TIME + 1 - depth
  {
    if depth > START_WAIT_TIME then StartRun(Err(StartEndNotFound), script)
    else
      var later := LaterReads(script);
      match NextRead(script)
      case Broken => StartRun(Err(StartReadFailed), later)
      case Chunk(chunk) =>
        var buffer := bytes + chunk;
        match StartOnePass(json, box, buffer)
        case StartReturn(outcome) => StartRun(outcome, later)
        case StartWait => ReadStart(json, box, later, buffer, depth + 1)
        case StartForward(size, m) =>
          var run := ReadInternal(json, later, buffer[size..], [m], 0, None);
          StartRun(match run.outcome case Ok(ms) => Ok(ms) case Err(e) => Err(Later(e)) case Panic => Panic, run.script)
  }

  method ReadMessagesStartInternal(json: Json, box: CryptoBox, input: Socket, bytes: seq<byte>, depth: nat)
    returns (r: Outcome<seq<Message>, StartError>)
    requires depth <= START_WAIT_TIME + 1
    modifies input
    ensures StartRun(r, input.script) == ReadStart(json, box, old(input.script), bytes, depth)
    decreases START_WAIT_TIME + 1 - depth
  {
    hide ReadMessage, ReadEncrypted, ReadInternal;
    if depth > START_WAIT_TIME {
      return Err(StartEndNotFound);
    }
    var read := input.ReadTillBlock();
    if read.Broken? {
      return Err(StartReadFailed);
    }
    var buffer := bytes + read.bytes;
    var plain, encrypted := ReadMessage(json, buffer), ReadEncrypted(json, box, buffer);
    if plain.Panic? || encrypted.Panic? {
      return Panic;
    }
    if plain.Ok? && plain.value.1.ForwardingCloseMessage? {
      r := Ok([ForwardingCloseMessage]);
    } else if encrypted.Ok? {
      var rest := ReadMessagesInternal(json, input, buffer[encrypted.value.0..], [encrypted.value.1], 0, None);
      r := match rest case Ok(ms) => Ok(ms) case Err(e) => Err(Later(e)) case Panic => Panic;
    } else if (plain.Err? && plain.error.SliceTooSmall?) || encrypted.error.SliceTooSmall? {
      r := ReadMessagesStartInternal(json, box, input, buffer, depth + 1);
    } else if plain.Err? {
      r := Err(DoubleReadFailure(plain.error, encrypted.error));
    } else {
      r := Err(ImpossibleError);
    }
  }

  /**
   * The arm the source calls impossible is taken exactly when the first frame is a complete plain
   * message other than a close.
   */
  lemma ImpossibleIff(json: Json, box: CryptoBox, buffer: seq<byte>)
    ensures StartOnePass(json, box, buffer) == StartReturn(Err(ImpossibleError)) <==>
      ReadMessage(json, buffer).Ok? && !ReadMessage(json, buffer).value.1.ForwardingCloseMessage?
  {
  }

  /** Both failures are reported, the plain one first, exactly when neither decoder asks for more bytes. */
  lemma DoubleFailureIff(json: Json, box: CryptoBox, buffer: seq<byte>, a: ProtocolError, b: ProtocolError)
    ensures StartOnePass(json, box, buffer) == StartReturn(Err(DoubleReadFailure(a, b))) <==>
      ReadMessage(json, buffer) == Err(a) && ReadEncrypted(json, box, buffer) == Err(b) &&
      !a.SliceTooSmall? && !b.SliceTooSmall?
  {
    hide ReadMessage, ReadEncrypted;
  }

  /** A concrete first frame that reaches it: a keepalive. */
  lemma ImpossibleExample(json: Json, box: CryptoBox)
    requires json.Lawful() && Fits(json, KeepAliveMessage)
    ensures !ReadEncrypted(json, box, Frame(json, KeepAliveMessage)).Panic?
    ensures StartOnePass(json, box, Frame(json, KeepAliveMessage)) == StartReturn(Err(ImpossibleError))
  {
    var frame := Frame(json, KeepAliveMessage);
    FrameRoundTrip(json, KeepAliveMessage, []);
    assert frame + [] == frame;
    FrameShape(json, KeepAliveMessage, []);
  }

  /** Each read until the first `size` bytes are in leaves at least a header in the buffer. */
  ghost predicate GoodStart(size: nat, c: nat, script: seq<ReadEvent>)
    decreases |script|
  {
    script != [] && script[0].Chunk? &&
    var n := c + |script[0].bytes|;
    n >= size || (n >= HEADER_LEN && GoodStart(size, n, script[1..]))
  }

  /** The reads that bring in the first `size` bytes, and the bytes they leave after them. */
  ghost function AfterStart(size: nat, c: nat, script: seq<ReadEvent>): (nat, seq<ReadEvent>)
    requires GoodStart(size, c, script)
    decreases |script|
  {
    var n := c + |script[0].bytes|;
    if n >= size then (n - size, script[1..]) else AfterStart(size, n, script[1..])
  }

  /** The start reader gets the first `size` bytes within its tries; it never gets tries back. */
  ghost predicate InTime(size: nat, c: nat, script: seq<ReadEvent>, depth: nat)
    requires GoodStart(size, c, script)
    decreases |script|
  {
    depth <= START_WAIT_TIME &&
    var n := c + |script[0].bytes|;
    n >= size || InTime(size, n, script[1..], depth + 1)
  }

  /** How many reads bring in the first `size` bytes. */
  ghost function ReadsNeeded(size: nat, c: nat, script: seq<ReadEvent>): nat
    requires GoodStart(size, c, script)
    decreases |script|
  {
    var n := c + |script[0].bytes|;
    if n >= size then 1 else 1 + ReadsNeeded(size, n, script[1..])
  }

  /** The start reader makes eleven reads. */
  lemma {:induction false} InTimeIff(size: nat, c: nat, script: seq<ReadEvent>, depth: nat)
    requires GoodStart(size, c, script)
    ensures InTime(size, c, script, depth) <==> depth + ReadsNeeded(size, c, script) <= 11
    decreases |script|
  {
    var n := c + |script[0].bytes|;
    if n < size {
      InTimeIff(size, n, script[1..], depth + 1);
    }
  }

  /** The call that takes over behind the first message, on `c` bytes of the wire of `ms`. */
  ghost predicate StartSpec(json: Json, m: Message, ms: seq<Message>, c: nat, later: seq<ReadEvent>, j: nat,
                            run: StartRun)
  {
    (run.outcome == Err(Later(EndNotFound)) && !Enough(json, ms, c, later, 0, false)) ||
    (run.outcome.Err? && !GoodReads(json, ms, c, later)) ||
    (j <= |ms| && run.outcome == Ok([m] + ms[..j]) && Delivered(run.script) == Wire(json, ms[j..]) &&
     (GoodReads(json, ms, c, later) <==> GoodReads(json, ms[j..], 0, run.script)) &&
     (Enough(json, ms, c, later, 0, false) <==> Enough(json, ms[j..], 0, run.script, 0, false)))
  }

  /**
   * A session that starts with an encrypted forward message followed by the wire of `ms`: the reader
   * returns the forward message and then messages of `ms` in order, leaving exactly the wire of the
   * others, or it fails exactly because the first message came too late or some read was bad, or gives
   * up later.
   */
  lemma {:induction false} StartDelivers(json: Json, box: CryptoBox, nonce: seq<byte>, m: Message, ms: seq<Message>,
                                         script: seq<ReadEvent>, bytes: seq<byte>, depth: nat) returns (j: nat)
    requires json.Lawful() && box.Lawful() && |nonce| == NONCE_LEN && Sendable(json, ms)
    requires HEADER_LEN + |EncryptedBody(json, box, nonce, m)| < U32
    requires depth <= START_WAIT_TIME + 1
    requires bytes + Delivered(script) == EncryptedFrame(json, box, nonce, m) + Wire(json, ms)
    requires |bytes| < |EncryptedFrame(json, box, nonce, m)|
    ensures var run := ReadStart(json, box, script, bytes, depth);
      var size := |EncryptedFrame(json, box, nonce, m)|;
      if !GoodStart(size, |bytes|, script) then run.outcome.Err?
      else if !InTime(size, |bytes|, script, depth) then run.outcome == Err(StartEndNotFound)
      else
        var (c, later) := AfterStart(size, |bytes|, script);
        StartSpec(json, m, ms, c, later, j, run)
    decreases START_WAIT_TIME + 1 - depth
  {
    hide ReadMessage, ReadEncrypted, ReadInternal, GoodReads, Enough, EncryptedFrame, EncryptedBody, Wire, Sendable,
      Delivered;
    j := 0;
    var frame := EncryptedFrame(json, box, nonce, m);
    if depth <= START_WAIT_TIME && NextRead(script).Chunk? {
      ReadFacts(script);
      var later := LaterReads(script);
      var buffer := bytes + NextRead(script).bytes;
      var w := frame + Wire(json, ms);
      assert buffer + Delivered(later) == w;
      assert buffer == w[..|buffer|];
      if |buffer| < |frame| {
        assert buffer == frame[..|buffer|];
        EncryptedTruncated(json, box, nonce, m, |buffer|);
        if |buffer| >= HEADER_LEN {
          j := StartDelivers(json, box, nonce, m, ms, later, buffer, depth + 1);
        }
      } else {
        var rest := buffer[|frame|..];
        assert buffer == frame + rest;
        EncryptedRoundTrip(json, box, nonce, m, rest);
        assert (buffer + Delivered(later))[|frame|..] == rest + Delivered(later);
        assert w[|frame|..] == Wire(json, ms);
        j := Delivers(json, later, rest, [m], 0, None, ms);
        NothingMissing(script, bytes, w);
      }
    }
  }

  lemma NothingMissing(script: seq<ReadEvent>, bytes: seq<byte>, w: seq<byte>)
    requires bytes + Delivered(script) == w
    ensures |bytes| < |w| ==> script != []
  {
  }

  /**
   * Whatever the reads do, also when they break off: a start reader that returns returns the forward
   * message and the next ones of the wire, and what is left are first bytes of the wire of the others.
   */
  lemma {:induction false} StartPrefix(json: Json, box: CryptoBox, nonce: seq<byte>, m: Message, ms: seq<Message>,
                                       script: seq<ReadEvent>, bytes: seq<byte>, depth: nat) returns (j: nat)
    requires json.Lawful() && box.Lawful() && |nonce| == NONCE_LEN && Sendable(json, ms)
    requires HEADER_LEN + |EncryptedBody(json, box, nonce, m)| < U32
    requires depth <= START_WAIT_TIME + 1
    requires bytes + Delivered(script) <= EncryptedFrame(json, box, nonce, m) + Wire(json, ms)
    requires |bytes| < |EncryptedFrame(json, box, nonce, m)|
    ensures var run := ReadStart(json, box, script, bytes, depth);
      run.outcome.Ok? ==>
      j <= |ms| && run.outcome.value == [m] + ms[..j] && Delivered(run.script) <= Wire(json, ms[j..])
    decreases START_WAIT_TIME + 1 - depth
  {
    hide ReadMessage, ReadEncrypted, ReadInternal, EncryptedFrame, EncryptedBody, Wire, Sendable, Delivered;
    j := 0;
    var frame := EncryptedFrame(json, box, nonce, m);
    if depth <= START_WAIT_TIME && NextRead(script).Chunk? {
      ReadFacts(script);
      var later := LaterReads(script);
      var buffer := bytes + NextRead(script).bytes;
      var w := frame + Wire(json, ms);
      assert buffer + Delivered(later) == bytes + Delivered(script);
      assert buffer == w[..|buffer|];
      if |buffer| < |frame| {
        assert buffer == frame[..|buffer|];
        EncryptedTruncated(json, box, nonce, m, |buffer|);
        if |buffer| >= HEADER_LEN {
          j := StartPrefix(json, box, nonce, m, ms, later, buffer, depth + 1);
        }
      } else {
        var rest := buffer[|frame|..];
        assert buffer == frame + rest;
        EncryptedRoundTrip(json, box, nonce, m, rest);
        Associate(frame, rest, Delivered(later));
        PrefixBehind(frame, rest + Delivered(later), Wire(json, ms));
        j := CallPrefix(json, later, rest, [m], ms);
      }
    }
  }

  /** An incomplete frame of a plain message is waited on from its header on, within the reader's tries. */
  lemma CutClose(json: Json, box: CryptoBox, n: nat)
    requires json.Lawful() && Fits(json, ForwardingCloseMessage) && n < |Frame(json, ForwardingCloseMessage)|
    ensures var cut := Frame(json, ForwardingCloseMessage)[..n];
      if n >= HEADER_LEN then StartOnePass(json, box, cut) == StartWait
      else StartOnePass(json, box, cut).StartReturn? && StartOnePass(json, box, cut).outcome.Err?
  {
    var m := ForwardingCloseMessage;
    var body := Body(json, m);
    TruncatedFrame(json, m, n);
    if n >= HEADER_LEN {
      CutFrame(json, m, n);
      FieldsOfHeader(PacketType(m), |body|, body[..n - HEADER_LEN]);
    }
  }

  lemma WholeClose(json: Json, box: CryptoBox, rest: seq<byte>)
    requires json.Lawful() && Fits(json, ForwardingCloseMessage)
    ensures StartOnePass(json, box, Frame(json, ForwardingCloseMessage) + rest) ==
      StartReturn(Ok([ForwardingCloseMessage]))
  {
    FrameRoundTrip(json, ForwardingCloseMessage, rest);
    FrameShape(json, ForwardingCloseMessage, rest);
  }

  /**
   * A wire that starts with a close makes the start reader return just the close, whatever follows,
   * exactly when it comes in time and no read leaves a piece of its header.
   */
  lemma {:induction false} CloseDelivers(json: Json, box: CryptoBox, suffix: seq<byte>, script: seq<ReadEvent>,
                                         bytes: seq<byte>, depth: nat)
    requires json.Lawful() && Fits(json, ForwardingCloseMessage) && depth <= START_WAIT_TIME + 1
    requires bytes + Delivered(script) == Frame(json, ForwardingCloseMessage) + suffix
    requires |bytes| < |Frame(json, ForwardingCloseMessage)|
    ensures var outcome := ReadStart(json, box, script, bytes, depth).outcome;
      var size := |Frame(json, ForwardingCloseMessage)|;
      if !GoodStart(size, |bytes|, script) then outcome.Err?
      else if !InTime(size, |bytes|, script, depth) then outcome == Err(StartEndNotFound)
      else outcome == Ok([ForwardingCloseMessage])
    decreases START_WAIT_TIME + 1 - depth
  {
    hide StartOnePass, ReadInternal, Frame, Delivered;
    var frame := Frame(json, ForwardingCloseMessage);
    if depth <= START_WAIT_TIME && NextRead(script).Chunk? {
      ReadFacts(script);
      var later := LaterReads(script);
      var buffer := bytes + NextRead(script).bytes;
      var w := frame + suffix;
      assert buffer + Delivered(later) == w;
      assert buffer == w[..|buffer|];
      if |buffer| < |frame| {
        assert buffer == frame[..|buffer|];
        CutClose(json, box, |buffer|);
        if |buffer| >= HEADER_LEN {
          CloseDelivers(json, box, suffix, later, buffer, depth + 1);
        }
      } else {
        assert buffer == frame + buffer[|frame|..];
        WholeClose(json, box, buffer[|frame|..]);
        NothingMissing(script, bytes, w);
      }
    }
  }

  /** The start reader, and then calls of `read_messages` until the script is used up. */
  function StartSession(json: Json, box: CryptoBox, script: seq<ReadEvent>): Outcome<seq<Message>, StartError> {
    var run := ReadStart(json, box, script, [], 0);
    match run.outcome
    case Ok(first) =>
      (match Session(json, run.script)
       case Ok(rest) => Ok(first + rest)
       case Err(e) => Err(Later(e))
       case Panic => Panic)
    case failed => failed
  }

  /** The chunkings of a first message of `size` bytes and the wire of `ms` that are read completely. */
  ghost predicate GoodSession(json: Json, size: nat, ms: seq<Message>, script: seq<ReadEvent>) {
    GoodStart(size, 0, script) && InTime(size, 0, script, 0) &&
    var (c, later) := AfterStart(size, 0, script);
    GoodReads(json, ms, c, later) && Enough(json, ms, c, later, 0, false)
  }

  /** A session returns the forward message and then everything that was sent exactly for those chunkings. */
  lemma StartSessionIff(json: Json, box: CryptoBox, nonce: seq<byte>, m: Message, ms: seq<Message>,
                        script: seq<ReadEvent>)
    requires json.Lawful() && box.Lawful() && |nonce| == NONCE_LEN && Sendable(json, ms)
    requires HEADER_LEN + |EncryptedBody(json, box, nonce, m)| < U32
    requires Delivered(script) == EncryptedFrame(json, box, nonce, m) + Wire(json, ms)
    ensures if GoodSession(json, |EncryptedFrame(json, box, nonce, m)|, ms, script)
      then StartSession(json, box, script) == Ok([m] + ms)
      else StartSession(json, box, script).Err?
  {
    hide ReadStart, Session, GoodStart, InTime, AfterStart, GoodReads, Enough, EncryptedFrame, EncryptedBody, Wire,
      Sendable, Delivered;
    var frame := EncryptedFrame(json, box, nonce, m);
    EncryptedNonEmpty(json, box, nonce, m);
    assert [] + Delivered(script) == frame + Wire(json, ms);
    var j := StartDelivers(json, box, nonce, m, ms, script, [], 0);
    var run := ReadStart(json, box, script, [], 0);
    if run.outcome.Ok? {
      SendableFrom(json, ms, j);
      SessionIff(json, run.script, ms[j..]);
      assert [m] + ms[..j] + ms[j..] == [m] + ms;
    }
  }

  lemma EncryptedNonEmpty(json: Json, box: CryptoBox, nonce: seq<byte>, m: Message)
    ensures EncryptedFrame(json, box, nonce, m) != []
  {
  }
}
