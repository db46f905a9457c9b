/** Reassembly of messages from a socket that delivers the wire in arbitrary pieces. */
module Reader {
  import opened Bytes
  import opened Framing

  /** What one `read_till_block` returns: the bytes available now, or an io error. */
  datatype ReadEvent = Chunk(bytes: seq<byte>) | Broken

  datatype ReadError =
    | EndNotFound
    | UnparsedBytes(messages: seq<Message>, remaining: seq<byte>)
    | ReadFailed

  type ReadOutcome = Outcome<seq<Message>, ReadError>

  /** The number of waits after which a reader gives up. */
  const WAIT_TIME: nat := 600

  /** The result of a call and the reads it left for later calls. */
  datatype Run = Run(outcome: ReadOutcome, script: seq<ReadEvent>)

  /** A socket delivers a finite script of reads and then nothing, for ever. */
  function NextRead(script: seq<ReadEvent>): ReadEvent {
    if script == [] then Chunk([]) else script[0]
  }

  function LaterReads(script: seq<ReadEvent>): seq<ReadEvent> {
    if script == [] then [] else script[1..]
  }

  /** All bytes a script delivers. */
  ghost function Delivered(script: seq<ReadEvent>): seq<byte> {
    if script == [] then []
    else (if script[0].Chunk? then script[0].bytes else []) + Delivered(script[1..])
  }

  /** What one pass over the buffer decides: return, or try again with this state. */
  datatype Pass =
    | Return(outcome: ReadOutcome)
    | Again(remaining: seq<byte>, messages: seq<Message>, depth: nat, last: Option<nat>)

  function OnePass(json: Json, buffer: seq<byte>, messages: seq<Message>, depth: nat, last: Option<nat>): (p: Pass)
    ensures p.Again? ==> p.remaining != []
    ensures p.Again? ==> p.last == None || p.last == Some(Low32(|p.remaining|))
    ensures p.Again? ==> p.depth == depth + 1 || (p.depth == 0 && last.Some? && Low32(|buffer|) > last.value)
  {
    match ReadMessage(json, buffer)
    case Ok((size, m)) =>
      if |buffer| - size != 0 then Again(buffer[size..], messages + [m], depth + 1, None)
      else Return(Ok(messages + [m]))
    case Err(e) =>
      if e.SliceTooSmall? then
        if last.Some? && e.actual > last.value then Again(buffer, messages, 0, Some(e.actual))
        else Again(buffer, messages, depth + 1, Some(e.actual))
      else if buffer != [] then Return(Err(UnparsedBytes(messages, buffer)))
      else Return(Ok(messages))
    case Panic => Return(Panic)
  }

  lemma ReadFacts(script: seq<ReadEvent>)
    requires NextRead(script).Chunk?
    ensures Delivered(script) == NextRead(script).bytes + Delivered(LaterReads(script))
    ensures script == [] ==> Delivered(LaterReads(script)) == []
    ensures script != [] ==> NextRead(script) == script[0] && LaterReads(script) == script[1..]
  {
  }

  /**
   * `read_messages_internal`. The measure is the pair (bytes not yet received, tries left): the
   * counter goes back to zero only when the buffer has grown since the last try.
   */
  function ReadInternal(json: Json, script: seq<ReadEvent>, remaining: seq<byte>, messages: seq<Message>,
                        depth: nat, last: Option<nat>): (run: Run)
    requires depth <= WAIT_TIME + 1
    requires last.Some? ==> last.value == Low32(|remaining|)
    ensures |run.script| <= |script|
    ensures script != [] && depth <= WAIT_TIME ==> |run.script| < |script|
    decreases |Delivered(script)|, WAIT_TIME + 1 - depth
  {
    if depth > WAIT_TIME then Run(Err(EndNotFound), script)
    else
      var later := LaterReads(script);
      match NextRead(script)
      case Broken => Run(Err(ReadFailed), later)
      case Chunk(bytes) =>
        match OnePass(json, remaining + bytes, messages, depth, last)
        case Return(outcome) => Run(outcome, later)
        case Again(r, ms, d, l) => ReadInternal(json, later, r, ms, d, l)
  }

  lemma Unroll(json: Json, script: seq<ReadEvent>, remaining: seq<byte>, messages: seq<Message>,
               depth: nat, last: Option<nat>)
    requires depth <= WAIT_TIME && NextRead(script).Chunk?
    requires last.Some? ==> last.value == Low32(|remaining|)
    ensures ReadInternal(json, script, remaining, messages, depth, last) ==
      match OnePass(json, remaining + NextRead(script).bytes, messages, depth, last)
      case Return(outcome) => Run(outcome, LaterReads(script))
      case Again(r, ms, d, l) => ReadInternal(json, LaterReads(script), r, ms, d, l)
    ensures |ReadInternal(json, script, remaining, messages, depth, last).script| <= |LaterReads(script)|
  {
  }

  lemma GivesUp(json: Json, script: seq<ReadEvent>, remaining: seq<byte>, messages: seq<Message>,
                depth: nat, last: Option<nat>)
    requires depth == WAIT_TIME + 1
    requires last.Some? ==> last.value == Low32(|remaining|)
    ensures ReadInternal(json, script, remaining, messages, depth, last) == Run(Err(EndNotFound), script)
  {
  }

  lemma Breaks(json: Json, script: seq<ReadEvent>, remaining: seq<byte>, messages: seq<Message>,
               depth: nat, last: Option<nat>)
    requires depth <= WAIT_TIME && NextRead(script).Broken?
    requires last.Some? ==> last.value == Low32(|remaining|)
    ensures ReadInternal(json, script, remaining, messages, depth, last) == Run(Err(ReadFailed), LaterReads(script))
  {
  }

  /** `read_messages`. */
  function ReadMessages(json: Json, script: seq<ReadEvent>): Run {
    ReadInternal(json, script, [], [], 0, None)
  }

  // ------------------------------------------------------------------ the imperative reader

  class Socket {
    var script: seq<ReadEvent>

    method ReadTillBlock() returns (r: ReadEvent)
      modifies this
      ensures r == NextRead(old(script)) && script == LaterReads(old(script))
    {
      r, script := NextRead(script), LaterReads(script);
    }
  }

  method ReadMessagesInternal(json: Json, input: Socket, remainingBytes: seq<byte>, messages: seq<Message>,
                              depth: nat, lastReadBytes: Option<nat>) returns (r: ReadOutcome)
    requires depth <= WAIT_TIME + 1
    requires lastReadBytes.Some? ==> lastReadBytes.value == Low32(|remainingBytes|)
    modifies input
    ensures Run(r, input.script) ==
            ReadInternal(json, old(input.script), remainingBytes, messages, depth, lastReadBytes)
    decreases |Delivered(input.script)|, WAIT_TIME + 1 - depth
  {
    hide ReadMessage, ReadInternal;
    if depth > WAIT_TIME {
      GivesUp(json, input.script, remainingBytes, messages, depth, lastReadBytes);
      return Err(EndNotFound);
    }
    var read := input.ReadTillBlock();
    if read.Broken? {
      Breaks(json, old(input.script), remainingBytes, messages, depth, lastReadBytes);
      return Err(ReadFailed);
    }
    ReadFacts(old(input.script));
    Unroll(json, old(input.script), remainingBytes, messages, depth, lastReadBytes);
    var buffer := remainingBytes + read.bytes;
    match ReadMessage(json, buffer)
    case Ok((size, m)) =>
      if |buffer| - size != 0 {
        r := ReadMessagesInternal(json, input, buffer[size..], messages + [m], depth + 1, None);
      } else {
        r := Ok(messages + [m]);
      }
    case Err(e) =>
      if e.SliceTooSmall? {
        var restart := lastReadBytes.Some? && e.actual > lastReadBytes.value;
        r := ReadMessagesInternal(json, input, buffer, messages, if restart then 0 else depth + 1, Some(e.actual));
      } else if buffer != [] {
        r := Err(UnparsedBytes(messages, buffer));
      } else {
        r := Ok(messages);
      }
    case Panic => r := Panic;
  }

  // ------------------------------------------------------------------ conservation

  /** The one-shot parse of a whole buffer: the messages at its front and the bytes left over. */
  function ParseAll(json: Json, p: seq<byte>): (r: (seq<Message>, seq<byte>))
    decreases |p|
  {
    match ReadMessage(json, p)
    case Ok((size, m)) =>
      var (ms, rest) := ParseAll(json, p[size..]);
      ([m] + ms, rest)
    case _ => ([], p)
  }

  /** Parsing the first frame early does not change the parse of the whole. */
  lemma ParseStep(json: Json, p: seq<byte>, tail: seq<byte>)
    requires ReadMessage(json, p).Ok?
    ensures var (size, m) := ReadMessage(json, p).value; var later := ParseAll(json, p[size..] + tail);
      ParseAll(json, p + tail) == ([m] + later.0, later.1)
  {
    DecodeStable(json, p, tail);
    var (size, m) := ReadMessage(json, p).value;
    assert (p + tail)[size..] == p[size..] + tail;
  }

  /** A call takes reads from the front of its script and leaves the others as they are. */
  lemma {:induction false} LeavesSuffix(json: Json, script: seq<ReadEvent>, remaining: seq<byte>,
                                        messages: seq<Message>, depth: nat, last: Option<nat>)
    requires depth <= WAIT_TIME + 1
    requires last.Some? ==> last.value == Low32(|remaining|)
    ensures var rest := ReadInternal(json, script, remaining, messages, depth, last).script;
      rest == script[|script| - |rest|..]
    decreases |Delivered(script)|, WAIT_TIME + 1 - depth
  {
    if depth <= WAIT_TIME && NextRead(script).Chunk? {
      match OnePass(json, remaining + NextRead(script).bytes, messages, depth, last)
      case Return(_) =>
      case Again(r, ms, d, l) => LeavesSuffix(json, LaterReads(script), r, ms, d, l);
    }
  }

  /** The bytes a call took from its script. */
  ghost function Consumed(script: seq<ReadEvent>, run: Run): seq<byte>
    requires |run.script| <= |script|
  {
    Delivered(script[..|script| - |run.script|])
  }

  /** The outcome is the one-shot parse of `all`, after `messages`, when it carries messages. */
  ghost predicate Accounts(json: Json, messages: seq<Message>, all: seq<byte>, outcome: ReadOutcome) {
    var (ms, rest) := ParseAll(json, all);
    (outcome.Ok? ==> outcome.value == messages + ms && rest == []) &&
    (outcome.Err? && outcome.error.UnparsedBytes? ==> outcome.error == UnparsedBytes(messages + ms, rest) && rest != [])
  }

  lemma PassAccounts(json: Json, buffer: seq<byte>, messages: seq<Message>, depth: nat, last: Option<nat>,
                     tail: seq<byte>, outcome: ReadOutcome)
    ensures match OnePass(json, buffer, messages, depth, last)
      case Return(o) => Accounts(json, messages, buffer, o)
      case Again(r, ms, _, _) =>
        Accounts(json, ms, r + tail, outcome) ==> Accounts(json, messages, buffer + tail, outcome)
  {
    if ReadMessage(json, buffer).Ok? {
      var (size, m) := ReadMessage(json, buffer).value;
      ParseStep(json, buffer, tail);
      ParseStep(json, buffer, []);
      assert buffer + [] == buffer && buffer[size..] + [] == buffer[size..];
      var ms := ParseAll(json, buffer[size..] + tail).0;
      assert messages + [m] + ms == messages + ([m] + ms);
      if |buffer| == size {
        ParseEmpty(json);
      }
    }
  }

  lemma ParseEmpty(json: Json)
    ensures ParseAll(json, []) == ([], [])
  {
  }

  /**
   * Whatever the chunking, a call that returns messages returns the one-shot parse of exactly the
   * bytes it consumed; one that reports unparsed bytes hands over that parse and every other byte.
   */
  lemma {:induction false} Conservation(json: Json, script: seq<ReadEvent>, remaining: seq<byte>,
                                        messages: seq<Message>, depth: nat, last: Option<nat>)
    requires depth <= WAIT_TIME + 1
    requires last.Some? ==> last.value == Low32(|remaining|)
    ensures var run := ReadInternal(json, script, remaining, messages, depth, last);
      Accounts(json, messages, remaining + Consumed(script, run), run.outcome)
    decreases |Delivered(script)|, WAIT_TIME + 1 - depth
  {
    hide *;
    var run := ReadInternal(json, script, remaining, messages, depth, last);
    if depth > WAIT_TIME {
      GivesUp(json, script, remaining, messages, depth, last);
      NothingToAccount(json, messages, remaining + Consumed(script, run), run.outcome);
    } else if NextRead(script).Broken? {
      Breaks(json, script, remaining, messages, depth, last);
      NothingToAccount(json, messages, remaining + Consumed(script, run), run.outcome);
    } else {
      var later := LaterReads(script);
      var buffer := remaining + NextRead(script).bytes;
      Unroll(json, script, remaining, messages, depth, last);
      var tail := Consumed(later, run);
      ConsumedStep(script, later, run);
      assert remaining + Consumed(script, run) == buffer + tail;
      PassAccounts(json, buffer, messages, depth, last, tail, run.outcome);
      match OnePass(json, buffer, messages, depth, last)
      case Return(o) => assert buffer + tail == buffer;
      case Again(r, ms, d, l) => ReadFacts(script); Conservation(json, later, r, ms, d, l);
    }
  }

  lemma ConsumedStep(script: seq<ReadEvent>, later: seq<ReadEvent>, run: Run)
    requires NextRead(script).Chunk? && later == LaterReads(script) && |run.script| <= |later|
    ensures Consumed(script, run) == NextRead(script).bytes + Consumed(later, run)
    ensures run.script == later ==> Consumed(later, run) == []
  {
    if script != [] {
      assert script[..|script| - |run.script|][1..] == later[..|later| - |run.script|];
    }
  }

  lemma NothingToAccount(json: Json, messages: seq<Message>, all: seq<byte>, outcome: ReadOutcome)
    requires outcome == Err(EndNotFound) || outcome == Err(ReadFailed)
    ensures Accounts(json, messages, all, outcome)
  {
  }

  // ------------------------------------------------------------------ delivery of a sent sequence

  ghost function Wire(json: Json, ms: seq<Message>): seq<byte> {
    if ms == [] then [] else Frame(json, ms[0]) + Wire(json, ms[1..])
  }

  /** Messages that `get_message` can frame with a length field that does not wrap. */
  ghost predicate Sendable(json: Json, ms: seq<Message>) {
    forall i :: 0 <= i < |ms| ==> !ms[i].ForwardMessage? && Fits(json, ms[i])
  }

  lemma SendableTail(json: Json, ms: seq<Message>)
    requires ms != [] && Sendable(json, ms)
    ensures Sendable(json, ms[1..])
  {
  }

  /** Buffers of `c` bytes that start a frame of `m` and are waited on: a header or more, or nothing. */
  ghost predicate Waitable(json: Json, m: Message, c: nat) {
    c == 0 || (HEADER_LEN <= c && !(m.IdentificationMessage? && |Body(json, m)| > MAX_PARTIAL_IDENTIFICATION))
  }

  /**
   * Every read succeeds, and after each one the buffer, which starts with the first `c` bytes of the
   * wire of `ms`, holds a whole frame or is waited on. Only sizes matter: each read is followed by
   * the removal of at most one frame.
   */
  ghost predicate GoodReads(json: Json, ms: seq<Message>, c: nat, script: seq<ReadEvent>)
    decreases |script|
  {
    script == [] ||
    (script[0].Chunk? &&
     var n := c + |script[0].bytes|;
     if ms == [] then GoodReads(json, ms, n, script[1..])
     else if n >= |Frame(json, ms[0])| then GoodReads(json, ms[1..], n - |Frame(json, ms[0])|, script[1..])
     else Waitable(json, ms[0], n) && GoodReads(json, ms, n, script[1..]))
  }

  /**
   * No call runs out of tries: `depth` have been used since the call began or last got them all back,
   * and `waited` says that the last try ended in a wait. A try that leaves bytes behind a frame uses one
   * up; so does a wait, unless bytes came in since the wait before it, which gives all of them back.
   * Reads that leave nothing end the call, and the next one starts afresh. Only sizes matter.
   */
  ghost predicate Enough(json: Json, ms: seq<Message>, c: nat, script: seq<ReadEvent>, depth: nat, waited: bool)
    decreases |script|
  {
    if script == [] || script[0].Broken? then depth + |ms| <= WAIT_TIME + 1
    else
      depth <= WAIT_TIME &&
      var n := c + |script[0].bytes|;
      if ms == [] || n == 0 then Enough(json, ms, 0, script[1..], 0, false)
      else if n == |Frame(json, ms[0])| then Enough(json, ms[1..], 0, script[1..], 0, false)
      else if n > |Frame(json, ms[0])| then
        Enough(json, ms[1..], n - |Frame(json, ms[0])|, script[1..], depth + 1, false)
      else Enough(json, ms, n, script[1..], if waited && n > c then 0 else depth + 1, true)
  }

  lemma WireTail(json: Json, ms: seq<Message>)
    requires ms != []
    ensures var w, n := Wire(json, ms), |Frame(json, ms[0])|;
      HEADER_LEN <= n <= |w| && w[..n] == Frame(json, ms[0]) && w[n..] == Wire(json, ms[1..]) &&
      (w[n..] == [] <==> ms == [ms[0]])
  {
    FrameNonEmpty(json, ms[0]);
    if |ms| > 1 {
      FrameNonEmpty(json, ms[1]);
    }
  }

  /** One pass over the first bytes of the wire of `ms`. */
  lemma PassOnWire(json: Json, buffer: seq<byte>, messages: seq<Message>, depth: nat, last: Option<nat>,
                   ms: seq<Message>, unread: seq<byte>)
    requires json.Lawful() && Sendable(json, ms)
    requires buffer + unread == Wire(json, ms)
    ensures OnePass(json, buffer, messages, depth, last) ==
      if ms == [] || buffer == [] then Return(Ok(messages))
      else if |buffer| > |Frame(json, ms[0])| then
        Again(buffer[|Frame(json, ms[0])|..], messages + [ms[0]], depth + 1, None)
      else if |buffer| == |Frame(json, ms[0])| then Return(Ok(messages + [ms[0]]))
      else if !Waitable(json, ms[0], |buffer|) then Return(Err(UnparsedBytes(messages, buffer)))
      else if last.Some? && |buffer| > last.value then Again(buffer, messages, 0, Some(|buffer|))
      else Again(buffer, messages, depth + 1, Some(|buffer|))
  {
    if ms == [] || buffer == [] {
      assert buffer == [];
      EmptyBuffer(json);
    } else {
      var frame := Frame(json, ms[0]);
      var w := Wire(json, ms);
      assert buffer == w[..|buffer|];
      if |buffer| >= |frame| {
        assert buffer == frame + buffer[|frame|..];
        FrameRoundTrip(json, ms[0], buffer[|frame|..]);
      } else {
        assert buffer == frame[..|buffer|];
        TruncatedFrame(json, ms[0], |buffer|);
      }
    }
  }

  lemma EmptyBuffer(json: Json)
    ensures ReadMessage(json, []) == Err(InvalidLen)
  {
  }

  /**
   * What a call does on a wire that carries `ms` when it starts with `c` bytes of it: it gives up for
   * lack of tries, or fails because of a bad read, or returns `j` more messages and leaves exactly the
   * wire of the others. What it leaves has good reads and enough tries exactly when the whole has.
   */
  ghost predicate CallSpec(json: Json, script: seq<ReadEvent>, c: nat, messages: seq<Message>, depth: nat,
                           waited: bool, ms: seq<Message>, j: nat, run: Run)
  {
    (run.outcome == Err(EndNotFound) && !Enough(json, ms, c, script, depth, waited)) ||
    (run.outcome.Err? && !GoodReads(json, ms, c, script)) ||
    (j <= |ms| && run.outcome == Ok(messages + ms[..j]) && Delivered(run.script) == Wire(json, ms[j..]) &&
     (GoodReads(json, ms, c, script) <==> GoodReads(json, ms[j..], 0, run.script)) &&
     (Enough(json, ms, c, script, depth, waited) <==> Enough(json, ms[j..], 0, run.script, 0, false)))
  }

  /** Removing a frame keeps both conditions. */
  lemma AfterFrame(json: Json, script: seq<ReadEvent>, c: nat, depth: nat, waited: bool, ms: seq<Message>)
    requires NextRead(script).Chunk? && ms != [] && depth <= WAIT_TIME
    requires script == [] ==> c == |Wire(json, ms)|
    requires c + |NextRead(script).bytes| >= |Frame(json, ms[0])|
    ensures var rest, later := c + |NextRead(script).bytes| - |Frame(json, ms[0])|, LaterReads(script);
      (GoodReads(json, ms, c, script) <==> GoodReads(json, ms[1..], rest, later)) &&
      (Enough(json, ms, c, script, depth, waited) <==>
       Enough(json, ms[1..], rest, later, if rest == 0 then 0 else depth + 1, false))
  {
    hide Wire, Frame, Delivered;
    FrameNonEmpty(json, ms[0]);
    if script == [] {
      WireTail(json, ms);
    }
  }

  /** A frame was removed and the call went on, or returned. */
  lemma SpecAfterFrame(json: Json, script: seq<ReadEvent>, c: nat, messages: seq<Message>, depth: nat,
                       waited: bool, ms: seq<Message>, k: nat, run: Run)
    requires NextRead(script).Chunk? && ms != [] && depth <= WAIT_TIME
    requires script == [] ==> c == |Wire(json, ms)|
    requires var rest := c + |NextRead(script).bytes| - |Frame(json, ms[0])|;
      rest >= 0 &&
      CallSpec(json, LaterReads(script), rest, messages + [ms[0]], if rest == 0 then 0 else depth + 1, false,
               ms[1..], k, run)
    ensures CallSpec(json, script, c, messages, depth, waited, ms, k + 1, run)
  {
    hide Wire, Frame, Delivered, Enough, GoodReads;
    AfterFrame(json, script, c, depth, waited, ms);
    if k < |ms| {
      Regroup(messages, ms, k);
    }
  }

  /** The call waited for more bytes. */
  lemma SpecAfterWait(json: Json, script: seq<ReadEvent>, c: nat, messages: seq<Message>, depth: nat, waited: bool,
                      ms: seq<Message>, j: nat, run: Run)
    requires script != [] && script[0].Chunk? && ms != [] && depth <= WAIT_TIME
    requires var n := c + |script[0].bytes|;
      0 < n < |Frame(json, ms[0])| && Waitable(json, ms[0], n) &&
      CallSpec(json, script[1..], n, messages, if waited && n > c then 0 else depth + 1, true, ms, j, run)
    ensures CallSpec(json, script, c, messages, depth, waited, ms, j, run)
  {
    hide Wire, Frame, Delivered, Waitable;
  }

  /** The call returned without another message: nothing is buffered. */
  lemma SpecReturns(json: Json, script: seq<ReadEvent>, messages: seq<Message>, depth: nat, waited: bool,
                    ms: seq<Message>)
    requires NextRead(script) == Chunk([]) && Delivered(script) == Wire(json, ms) && depth <= WAIT_TIME
    ensures CallSpec(json, script, 0, messages, depth, waited, ms, 0, Run(Ok(messages), LaterReads(script)))
  {
    assert ms[..0] == [] && messages + [] == messages && ms[0..] == ms;
    if ms != [] {
      FrameNonEmpty(json, ms[0]);
    }
  }

  /** One call on a wire that carries `ms`, `remaining` being its first bytes. */
  lemma {:induction false} Delivers(json: Json, script: seq<ReadEvent>, remaining: seq<byte>, messages: seq<Message>,
                                    depth: nat, last: Option<nat>, ms: seq<Message>) returns (j: nat)
    requires json.Lawful() && Sendable(json, ms)
    requires depth <= WAIT_TIME + 1
    requires last.Some? ==> last.value == Low32(|remaining|)
    requires remaining + Delivered(script) == Wire(json, ms)
    requires remaining != [] || depth <= WAIT_TIME
    ensures CallSpec(json, script, |remaining|, messages, depth, last.Some?, ms, j,
                     ReadInternal(json, script, remaining, messages, depth, last))
    decreases |Delivered(script)|, WAIT_TIME + 1 - depth
  {
    j := 0;
    if depth > WAIT_TIME {
      GivesUp(json, script, remaining, messages, depth, last);
      assert ms != [];
      NotEnough(json, script, |remaining|, depth, last.Some?, ms);
    } else if NextRead(script).Chunk? {
      j := DeliversAfterRead(json, script, remaining, messages, depth, last, ms);
    }
  }

  lemma NotEnough(json: Json, script: seq<ReadEvent>, c: nat, depth: nat, waited: bool, ms: seq<Message>)
    requires depth > WAIT_TIME && ms != []
    ensures !Enough(json, ms, c, script, depth, waited)
  {
  }

  lemma {:induction false} DeliversAfterRead(json: Json, script: seq<ReadEvent>, remaining: seq<byte>,
    messages: seq<Message>, depth: nat, last: Option<nat>, ms: seq<Message>) returns (j: nat)
    requires json.Lawful() && Sendable(json, ms)
    requires depth <= WAIT_TIME && NextRead(script).Chunk?
    requires last.Some? ==> last.value == Low32(|remaining|)
    requires remaining + Delivered(script) == Wire(json, ms)
    ensures CallSpec(json, script, |remaining|, messages, depth, last.Some?, ms, j,
                     ReadInternal(json, script, remaining, messages, depth, last))
    decreases |Delivered(script)|, WAIT_TIME + 1 - depth, 0
  {
    hide *;
    ReadFacts(script);
    Unroll(json, script, remaining, messages, depth, last);
    var run := ReadInternal(json, script, remaining, messages, depth, last);
    var later, bytes := LaterReads(script), NextRead(script).bytes;
    var buffer := remaining + bytes;
    assert buffer + Delivered(later) == remaining + Delivered(script);
    PassOnWire(json, buffer, messages, depth, last, ms, Delivered(later));
    if ms == [] || buffer == [] {
      j := 0;
      if ms == [] {
        EmptyWire(json);
      }
      assert remaining == [] && bytes == [] && Delivered(script) == Wire(json, ms);
      SpecReturns(json, script, messages, depth, last.Some?, ms);
    } else {
      var frame := Frame(json, ms[0]);
      WireTail(json, ms);
      AllRead(script, remaining, Wire(json, ms));
      if |buffer| >= |frame| {
        var rest := buffer[|frame|..];
        assert (buffer + Delivered(later))[|frame|..] == rest + Delivered(later);
        if rest != [] {
          SendableTail(json, ms);
          j := Delivers(json, later, rest, messages + [ms[0]], depth + 1, None, ms[1..]);
        } else {
          j := 0;
          assert [] + Delivered(later) == Delivered(later);
          Returned(json, later, messages + [ms[0]], ms[1..]);
        }
        SpecAfterFrame(json, script, |remaining|, messages, depth, last.Some?, ms, j, run);
        j := j + 1;
      } else {
        assert script != [];
        if Waitable(json, ms[0], |buffer|) {
          HeldSize(json, ms, remaining, |buffer|);
          var next := if last.Some? && |buffer| > |remaining| then 0 else depth + 1;
          j := Delivers(json, later, buffer, messages, next, Some(|buffer|), ms);
          SpecAfterWait(json, script, |remaining|, messages, depth, last.Some?, ms, j, run);
        } else {
          j := 0;
          Rejected(json, script, |remaining|, messages, depth, last.Some?, ms, run);
        }
      }
    }
  }

  lemma AllRead(script: seq<ReadEvent>, remaining: seq<byte>, wire: seq<byte>)
    requires remaining + Delivered(script) == wire
    ensures script == [] ==> remaining == wire
  {
    if script == [] {
      assert remaining + [] == remaining;
    }
  }

  /** What is held of a frame is below 2^32 bytes. */
  lemma HeldSize(json: Json, ms: seq<Message>, remaining: seq<byte>, n: nat)
    requires ms != [] && Sendable(json, ms) && |remaining| <= n < |Frame(json, ms[0])|
    ensures n < U32 && Low32(|remaining|) == |remaining| && Low32(n) == n
  {
  }

  lemma Returned(json: Json, script: seq<ReadEvent>, messages: seq<Message>, ms: seq<Message>)
    requires Delivered(script) == Wire(json, ms)
    ensures CallSpec(json, script, 0, messages, 0, false, ms, 0, Run(Ok(messages), script))
  {
    assert ms[..0] == [] && messages + [] == messages && ms[0..] == ms;
  }

  lemma Rejected(json: Json, script: seq<ReadEvent>, c: nat, messages: seq<Message>, depth: nat, waited: bool,
                 ms: seq<Message>, run: Run)
    requires script != [] && script[0].Chunk? && ms != [] && run.outcome.Err?
    requires c + |script[0].bytes| < |Frame(json, ms[0])| && !Waitable(json, ms[0], c + |script[0].bytes|)
    ensures CallSpec(json, script, c, messages, depth, waited, ms, 0, run)
  {
  }

  /** Calls of `read_messages` repeated until the script is used up, as the forwarding loop makes them. */
  function Session(json: Json, script: seq<ReadEvent>): ReadOutcome
    decreases |script|
  {
    if script == [] then Ok([])
    else
      var run := ReadMessages(json, script);
      if !run.outcome.Ok? then run.outcome
      else match Session(json, run.script)
        case Ok(ms) => Ok(run.outcome.value + ms)
        case failed => failed
  }

  /**
   * Repeated calls return exactly the sent sequence exactly for the chunkings whose reads are good and
   * leave enough tries; otherwise the session ends with an error, by giving up when the reads are good.
   */
  lemma {:induction false} SessionIff(json: Json, script: seq<ReadEvent>, ms: seq<Message>)
    requires json.Lawful() && Sendable(json, ms) && Delivered(script) == Wire(json, ms)
    ensures var good, enough := GoodReads(json, ms, 0, script), Enough(json, ms, 0, script, 0, false);
      if good && enough then Session(json, script) == Ok(ms)
      else if good then Session(json, script) == Err(EndNotFound)
      else Session(json, script).Err?
    decreases |script|
  {
    if script == [] {
      NothingSent(json, ms);
    } else {
      hide Enough, GoodReads, ReadInternal, Wire, Delivered, Sendable, Session;
      SessionStep(json, script);
      assert [] + Delivered(script) == Wire(json, ms);
      var j := Delivers(json, script, [], [], 0, None, ms);
      var run := ReadMessages(json, script);
      if run.outcome.Ok? {
        assert [] + ms[..j] == ms[..j];
        SendableFrom(json, ms, j);
        SessionIff(json, run.script, ms[j..]);
        assert ms[..j] + ms[j..] == ms;
      }
    }
  }

  lemma SessionStep(json: Json, script: seq<ReadEvent>)
    requires script != []
    ensures var run := ReadInternal(json, script, [], [], 0, None);
      |run.script| < |script| &&
      Session(json, script) ==
      if !run.outcome.Ok? then run.outcome
      else match Session(json, run.script)
        case Ok(ms) => Ok(run.outcome.value + ms)
        case failed => failed
  {
  }

  lemma NothingSent(json: Json, ms: seq<Message>)
    ensures Wire(json, ms) == [] ==> ms == []
  {
    if ms != [] {
      FrameNonEmpty(json, ms[0]);
    }
  }

  lemma SendableFrom(json: Json, ms: seq<Message>, j: nat)
    requires Sendable(json, ms) && j <= |ms|
    ensures Sendable(json, ms[j..])
  {
  }

  /** In particular a session of at most 601 reads and messages together has enough tries. */
  lemma {:induction false} ShortIsEnough(json: Json, ms: seq<Message>, c: nat, script: seq<ReadEvent>, depth: nat,
                                         waited: bool)
    requires depth + |script| + |ms| <= WAIT_TIME + 1
    ensures Enough(json, ms, c, script, depth, waited)
    decreases |script|
  {
    hide Frame;
    if script != [] && script[0].Chunk? {
      var n := c + |script[0].bytes|;
      if ms == [] || n == 0 {
        ShortIsEnough(json, ms, 0, script[1..], 0, false);
      } else if n == |Frame(json, ms[0])| {
        ShortIsEnough(json, ms[1..], 0, script[1..], 0, false);
      } else if n > |Frame(json, ms[0])| {
        ShortIsEnough(json, ms[1..], n - |Frame(json, ms[0])|, script[1..], depth + 1, false);
      } else {
        ShortIsEnough(json, ms, n, script[1..], if waited && n > c then 0 else depth + 1, true);
      }
    }
  }

  lemma FrameNonEmpty(json: Json, m: Message)
    ensures |Frame(json, m)| >= HEADER_LEN
  {
  }

  /**
   * The reads bring in the missing bytes before 601 tries in a row bring nothing; `depth` tries have
   * already brought nothing.
   */
  ghost predicate KeepsComing(script: seq<ReadEvent>, depth: nat, missing: nat)
    decreases |script|
  {
    depth <= WAIT_TIME && script != [] && script[0].Chunk? &&
    var n := |script[0].bytes|;
    n >= missing || KeepsComing(script[1..], if n > 0 then 0 else depth + 1, missing - n)
  }

  /**
   * A reader that waits for the rest of a frame returns it exactly when bytes keep coming, however many
   * reads that takes: every arrival gives it all its tries back.
   */
  lemma {:induction false} PatienceIff(json: Json, script: seq<ReadEvent>, remaining: seq<byte>,
                                       messages: seq<Message>, depth: nat, m: Message)
    requires json.Lawful() && !m.ForwardMessage? && Fits(json, m) && depth <= WAIT_TIME + 1
    requires remaining + Delivered(script) == Frame(json, m) && HEADER_LEN <= |remaining| < |Frame(json, m)|
    requires Waitable(json, m, |remaining|) && forall i :: 0 <= i < |script| ==> script[i].Chunk?
    ensures |remaining| < U32
    ensures ReadInternal(json, script, remaining, messages, depth, Some(|remaining|)).outcome ==
      if KeepsComing(script, depth, |Frame(json, m)| - |remaining|) then Ok(messages + [m]) else Err(EndNotFound)
    decreases |script|
  {
    hide ReadMessage, OnePass, Frame, ReadInternal;
    FrameSize(json, m);
    if depth > WAIT_TIME {
      GivesUp(json, script, remaining, messages, depth, Some(|remaining|));
    } else {
      var later, bytes := script[1..], script[0].bytes;
      var buffer := remaining + bytes;
      assert buffer + Delivered(later) == remaining + Delivered(script);
      OneWire(json, m);
      PassOnWire(json, buffer, messages, depth, Some(|remaining|), [m], Delivered(later));
      Unroll(json, script, remaining, messages, depth, Some(|remaining|));
      if |buffer| < |Frame(json, m)| {
        PatienceIff(json, later, buffer, messages, if bytes == [] then depth + 1 else 0, m);
      }
    }
  }

  lemma FrameSize(json: Json, m: Message)
    requires Fits(json, m)
    ensures HEADER_LEN <= |Frame(json, m)| < U32
  {
  }

  lemma OneWire(json: Json, m: Message)
    ensures Wire(json, [m]) == Frame(json, m)
  {
    assert Wire(json, [m]) == Frame(json, m) + [];
  }

  // ------------------------------------------------------------------ any script at all

  lemma {:induction false} DeliveredSplit(script: seq<ReadEvent>, k: nat)
    requires k <= |script|
    ensures Delivered(script) == Delivered(script[..k]) + Delivered(script[k..])
  {
    if k > 0 {
      DeliveredSplit(script[1..], k - 1);
      assert script[1..][..k - 1] == script[..k][1..] && script[1..][k - 1..] == script[k..];
    }
  }

  lemma {:induction false} WireSplit(json: Json, ms: seq<Message>, j: nat)
    requires j <= |ms|
    ensures Wire(json, ms) == Wire(json, ms[..j]) + Wire(json, ms[j..])
  {
    hide Frame;
    if j > 0 {
      WireSplit(json, ms[1..], j - 1);
      assert ms[1..][..j - 1] == ms[..j][1..] && ms[1..][j - 1..] == ms[j..];
      Associate(Frame(json, ms[0]), Wire(json, ms[..j][1..]), Wire(json, ms[j..]));
    }
  }

  /** Parsing the first bytes of a wire gives its first messages and leaves the rest of these bytes. */
  lemma {:induction false} ParsePrefix(json: Json, ms: seq<Message>, w: seq<byte>) returns (j: nat)
    requires json.Lawful() && Sendable(json, ms) && w <= Wire(json, ms)
    ensures j <= |ms| && ParseAll(json, w).0 == ms[..j] && w == Wire(json, ms[..j]) + ParseAll(json, w).1
    decreases |ms|
  {
    hide ReadMessage, Frame, Sendable;
    j := 0;
    EmptyBuffer(json);
    if ms != [] {
      WireTail(json, ms);
      var frame := Frame(json, ms[0]);
      if |w| >= |frame| {
        var rest := w[|frame|..];
        assert w == frame + rest;
        FrameReads(json, ms, rest);
        SendableTail(json, ms);
        assert rest <= Wire(json, ms[1..]);
        j := ParsePrefix(json, ms[1..], rest);
        j := j + 1;
        assert ms[..j] == [ms[0]] + ms[1..][..j - 1] && ms[..j][1..] == ms[1..][..j - 1];
        Associate(frame, Wire(json, ms[1..][..j - 1]), ParseAll(json, rest).1);
      } else {
        assert w == frame[..|w|];
        CutFails(json, ms, |w|);
      }
    }
  }

  lemma FrameReads(json: Json, ms: seq<Message>, rest: seq<byte>)
    requires json.Lawful() && ms != [] && Sendable(json, ms)
    ensures ReadMessage(json, Frame(json, ms[0]) + rest) == Ok((|Frame(json, ms[0])|, ms[0]))
  {
    FrameRoundTrip(json, ms[0], rest);
  }

  lemma CutFails(json: Json, ms: seq<Message>, n: nat)
    requires ms != [] && Sendable(json, ms) && n < |Frame(json, ms[0])|
    ensures ReadMessage(json, Frame(json, ms[0])[..n]).Err?
  {
    TruncatedFrame(json, ms[0], n);
  }

  /**
   * Whatever the reads do, also when they break off: a call that returns messages returns the next ones
   * of the wire, and what is left to read are again first bytes of the wire of the others.
   */
  lemma CallPrefix(json: Json, script: seq<ReadEvent>, remaining: seq<byte>, messages: seq<Message>,
                   ms: seq<Message>) returns (j: nat)
    requires json.Lawful() && Sendable(json, ms) && remaining + Delivered(script) <= Wire(json, ms)
    ensures var run := ReadInternal(json, script, remaining, messages, 0, None);
      run.outcome.Ok? ==>
      j <= |ms| && run.outcome.value == messages + ms[..j] && Delivered(run.script) <= Wire(json, ms[j..])
  {
    hide ReadInternal, Wire, Delivered, Sendable, ParseAll;
    var run := ReadInternal(json, script, remaining, messages, 0, None);
    Conservation(json, script, remaining, messages, 0, None);
    LeavesSuffix(json, script, remaining, messages, 0, None);
    var n := |script| - |run.script|;
    DeliveredSplit(script, n);
    var all := remaining + Consumed(script, run);
    Associate(remaining, Delivered(script[..n]), Delivered(script[n..]));
    assert all <= Wire(json, ms);
    j := ParsePrefix(json, ms, all);
    if run.outcome.Ok? {
      WireSplit(json, ms, j);
      assert all == Wire(json, ms[..j]) by {
        assert Wire(json, ms[..j]) + [] == Wire(json, ms[..j]);
      }
      PrefixBehind(all, Delivered(run.script), Wire(json, ms[j..]));
    }
  }

  /** Frames that arrive whole in one read are all returned exactly when there are at most 601 of them. */
  lemma OneReadIff(json: Json, ms: seq<Message>)
    requires json.Lawful() && Sendable(json, ms)
    ensures ReadMessages(json, [Chunk(Wire(json, ms))]).outcome ==
      if |ms| <= 601 then Ok(ms) else Err(EndNotFound)
  {
    hide ReadMessage, OnePass, Frame, Wire, ReadInternal, Sendable;
    var w := Wire(json, ms);
    assert [] + w == w && w + [] == w;
    PassOnWire(json, w, [], 0, None, ms, []);
    Unroll(json, [Chunk(w)], [], [], 0, None);
    if ms == [] {
      EmptyWire(json);
    } else {
      WireTail(json, ms);
      assert [] + [ms[0]] == [ms[0]];
      if |ms| > 1 {
        SendableTail(json, ms);
        Drain(json, [ms[0]], 1, ms[1..]);
        assert [ms[0]] + ms[1..] == ms;
      }
    }
  }

  lemma EmptyWire(json: Json)
    ensures Wire(json, []) == []
  {
  }

  /** A buffer of whole frames with nothing more to read: one try per frame. */
  lemma {:induction false} Drain(json: Json, messages: seq<Message>, depth: nat, ms: seq<Message>)
    requires json.Lawful() && Sendable(json, ms) && ms != [] && depth <= WAIT_TIME + 1
    ensures ReadInternal(json, [], Wire(json, ms), messages, depth, None).outcome ==
      if depth + |ms| <= WAIT_TIME + 1 then Ok(messages + ms) else Err(EndNotFound)
    decreases |ms|
  {
    if depth > WAIT_TIME {
      GivesUp(json, [], Wire(json, ms), messages, depth, None);
    } else {
      var w := Wire(json, ms);
      assert w + [] == w;
      PassOnWire(json, w, messages, depth, None, ms, []);
      Unroll(json, [], w, messages, depth, None);
      WireTail(json, ms);
      Regroup(messages, ms, 0);
      if |ms| > 1 {
        SendableTail(json, ms);
        Drain(json, messages + [ms[0]], depth + 1, ms[1..]);
      } else {
        assert ms == [ms[0]];
      }
    }
  }
}
