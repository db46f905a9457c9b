/** The two ends of a forwarding session: framing what local sockets read, and dispatching what arrives. */
module Streams {
  import opened Bytes
  import opened Framing
  import opened Reader

  // ------------------------------------------------------------------ writing a buffer out

  datatype WriteEvent = Wrote(count: nat) | WouldBlock | TimedOut | WriteBroken

  datatype WriteError = SpaceAllocation | ConnectionDown | SocketError

  /** The result of a write, the bytes the socket accepted and the write outcomes left for later. */
  datatype Written = Written(result: Outcome<(), WriteError>, accepted: seq<byte>, script: seq<WriteEvent>)

  /**
   * `write_all_spinlock`: the script lists what each `write` does and when the timeout strikes; it also
   * strikes when the script is used up. Writing nothing trips the assertion of the source.
   */
  function SpinWrite(script: seq<WriteEvent>, buffer: seq<byte>): (w: Written)
    ensures w.accepted <= buffer
    ensures w.result.Panic? <==> buffer == []
    ensures w.result.Ok? <==> buffer != [] && w.accepted == buffer
    decreases |script|
  {
    if buffer == [] then Written(Panic, [], script)
    else if script == [] then Written(Err(SpaceAllocation), [], [])
    else match script[0]
      case WouldBlock => SpinWrite(script[1..], buffer)
      case TimedOut => Written(Err(SpaceAllocation), [], script[1..])
      case WriteBroken => Written(Err(SocketError), [], script[1..])
      case Wrote(count) =>
        var n := Min(count, |buffer|);
        if n == |buffer| then Written(Ok(()), buffer, script[1..])
        else if n == 0 then Written(Err(ConnectionDown), [], script[1..])
        else
          var w := SpinWrite(script[1..], buffer[n..]);
          assert buffer[..n] + buffer[n..] == buffer;
          w.(accepted := buffer[..n] + w.accepted)
  }

  /** The bytes that these writes accept when there is enough to write. */
  function Sum(events: seq<WriteEvent>): nat {
    if events == [] then 0 else (if events[0].Wrote? then events[0].count else 0) + Sum(events[1..])
  }

  /** The loop goes on after this write if bytes are left. */
  predicate Passes(e: WriteEvent) {
    e.WouldBlock? || (e.Wrote? && e.count > 0)
  }

  /** `k` is the event with which writing `size` bytes ends: the first to complete or to stop it. */
  ghost predicate EndsAt(script: seq<WriteEvent>, size: nat, k: nat) {
    k <= |script| && (forall i :: 0 <= i < k ==> Passes(script[i])) && Sum(script[..k]) < size &&
    (k < |script| && Passes(script[k]) ==> script[k].Wrote? && Sum(script[..k]) + script[k].count >= size)
  }

  function EndAt(script: seq<WriteEvent>, size: nat): (k: nat)
    requires size > 0
    ensures EndsAt(script, size, k)
    decreases |script|
  {
    if script == [] || !Passes(script[0]) || (script[0].Wrote? && script[0].count >= size) then 0
    else
      var n := if script[0].Wrote? then script[0].count else 0;
      var k := EndAt(script[1..], size - n);
      EndsLater(script, size, n, k);
      k + 1
  }

  lemma EndsLater(script: seq<WriteEvent>, size: nat, n: nat, k: nat)
    requires script != [] && Passes(script[0]) && n == (if script[0].Wrote? then script[0].count else 0) && n < size
    requires EndsAt(script[1..], size - n, k)
    ensures EndsAt(script, size, k + 1) && Sum(script[..k + 1]) == n + Sum(script[1..][..k])
  {
    assert script[..k + 1][1..] == script[1..][..k];
  }

  lemma {:induction false} SumMonotone(events: seq<WriteEvent>, j: nat, k: nat)
    requires j <= k <= |events|
    ensures Sum(events[..j]) <= Sum(events[..k])
    ensures j < k && events[j].Wrote? ==> Sum(events[..j]) + events[j].count <= Sum(events[..k])
    decreases j
  {
    if j == 0 {
      assert k > 0 ==> events[..k][0] == events[0];
    } else {
      SumMonotone(events[1..], j - 1, k - 1);
      assert events[..j][1..] == events[1..][..j - 1] && events[..k][1..] == events[1..][..k - 1];
    }
  }

  /** There is only one such event. */
  lemma EndIsUnique(script: seq<WriteEvent>, size: nat, j: nat, k: nat)
    requires EndsAt(script, size, j) && EndsAt(script, size, k)
    ensures j == k
  {
    SumMonotone(script, if j < k then j else k, if j < k then k else j);
  }

  /** All `size` bytes are accepted. */
  predicate Takes(script: seq<WriteEvent>, size: nat)
    requires size > 0
  {
    var k := EndAt(script, size);
    k < |script| && Passes(script[k])
  }

  /** The events after the one that ends the write. */
  function Left(script: seq<WriteEvent>, size: nat): seq<WriteEvent>
    requires size > 0
  {
    script[Min(EndAt(script, size) + 1, |script|)..]
  }

  /** Why a write that ends with event `k` fails. */
  function Failure(script: seq<WriteEvent>, k: nat): WriteError {
    if k >= |script| || script[k].TimedOut? then SpaceAllocation
    else if script[k].WriteBroken? then SocketError
    else ConnectionDown
  }

  /**
   * What a write does, read off the counts: it goes on over blocked and partial writes until the bytes
   * are all accepted, and otherwise has written what came before the first event that stops it.
   */
  lemma {:induction false} WriteOutcome(script: seq<WriteEvent>, buffer: seq<byte>)
    requires buffer != []
    ensures var k := EndAt(script, |buffer|);
      SpinWrite(script, buffer) ==
      if Takes(script, |buffer|) then Written(Ok(()), buffer, Left(script, |buffer|))
      else Written(Err(Failure(script, k)), buffer[..Sum(script[..k])], Left(script, |buffer|))
    decreases |script|
  {
    if Continues(script, |buffer|) {
      hide SpinWrite, EndAt, Takes, Left, Failure, Sum;
      var n := if script[0].Wrote? then script[0].count else 0;
      ContinuesWith(script, |buffer|, n);
      WriteContinues(script, buffer, n);
      var rest := buffer[n..];
      WriteOutcome(script[1..], rest);
      var k := EndAt(script[1..], |rest|);
      JoinPrefix(buffer, n, Sum(script[1..][..k]));
    } else {
      assert script[..0] == [] && buffer[..0] == [];
    }
  }

  /** The first event leaves bytes to write. */
  predicate Continues(script: seq<WriteEvent>, size: nat) {
    script != [] && Passes(script[0]) && (script[0].Wrote? ==> script[0].count < size)
  }

  lemma ContinuesWith(script: seq<WriteEvent>, size: nat, n: nat)
    requires size > 0 && Continues(script, size) && n == if script[0].Wrote? then script[0].count else 0
    ensures var k, rest := EndAt(script[1..], size - n), script[1..];
      EndAt(script, size) == k + 1 && Sum(script[..k + 1]) == n + Sum(rest[..k]) && Sum(rest[..k]) < size - n &&
      (Takes(script, size) <==> Takes(rest, size - n)) && Left(script, size) == Left(rest, size - n) &&
      Failure(script, k + 1) == Failure(rest, k)
  {
    EndsLater(script, size, n, EndAt(script[1..], size - n));
  }

  lemma WriteContinues(script: seq<WriteEvent>, buffer: seq<byte>, n: nat)
    requires buffer != [] && Continues(script, |buffer|) && n == if script[0].Wrote? then script[0].count else 0
    ensures var w := SpinWrite(script[1..], buffer[n..]);
      SpinWrite(script, buffer) == w.(accepted := buffer[..n] + w.accepted)
  {
    if n == 0 {
      assert buffer[0..] == buffer && buffer[..0] + SpinWrite(script[1..], buffer).accepted ==
             SpinWrite(script[1..], buffer).accepted;
    }
  }

  lemma JoinPrefix<T>(s: seq<T>, n: nat, m: nat)
    requires n + m <= |s|
    ensures s[..n] + s[n..][..m] == s[..n + m] && s[..n] + s[n..] == s
  {
  }

  /** A partial write is followed by the rest. */
  lemma PartialWriteExample()
    ensures SpinWrite([Wrote(3), Wrote(100)], [1, 2, 3, 4, 5]) == Written(Ok(()), [1, 2, 3, 4, 5], [])
  {
    var script: seq<WriteEvent>, rest: seq<byte> := [Wrote(3), Wrote(100)], [4, 5];
    assert script[1..] == [Wrote(100)] && [1, 2, 3, 4, 5][3..] == rest;
    assert SpinWrite([Wrote(100)], rest) == Written(Ok(()), rest, []);
  }

  class Sink {
    var script: seq<WriteEvent>
    var written: seq<byte>

    ghost function State(): SinkState
      reads this
    {
      SinkState(script, written)
    }

    method WriteAllSpinlock(bytes: seq<byte>) returns (r: Outcome<(), WriteError>)
      modifies this
      ensures var w := SpinWrite(old(script), bytes);
        r == w.result && script == w.script && written == old(written) + w.accepted
    {
      if bytes == [] {
        return Panic;
      }
      var buffer := bytes;
      ghost var goal := SpinWrite(script, bytes);
      ghost var before := written;
      while script != []
        invariant buffer != []
        invariant SpinWrite(script, buffer).result == goal.result && SpinWrite(script, buffer).script == goal.script
        invariant written + SpinWrite(script, buffer).accepted == before + goal.accepted
        decreases |script|
      {
        var event := script[0];
        script := script[1..];
        if event.TimedOut? {
          return Err(SpaceAllocation);
        } else if event.WriteBroken? {
          return Err(SocketError);
        } else if event.Wrote? {
          var n := Min(event.count, |buffer|);
          written := written + buffer[..n];
          if |buffer| == n {
            assert buffer[..n] == buffer;
            return Ok(());
          } else if n == 0 {
            return Err(ConnectionDown);
          }
          buffer := buffer[n..];
        }
      }
      return Err(SpaceAllocation);
    }
  }

  // ------------------------------------------------------------------ the sending end

  /** A local socket: what its successive reads return, and whether it counts as idle at each round. */
  datatype Source = Source(input: seq<ReadEvent>, idle: seq<bool>)

  function IdleNow(s: Source): bool { s.idle != [] && s.idle[0] }

  function NextSource(s: Source): Source {
    Source(LaterReads(s.input), if s.idle == [] then [] else s.idle[1..])
  }

  /** The bytes one round reads from a socket. */
  function BytesNow(s: Source): seq<byte> {
    match NextRead(s.input) case Chunk(b) => b case Broken => []
  }

  /** A socket that just delivered bytes is never idle. */
  predicate TimesOut(s: Source) {
    IdleNow(s) && BytesNow(s) == []
  }

  predicate Drops(s: Source) {
    NextRead(s.input).Broken? || TimesOut(s)
  }

  /** The messages one round sends for one socket. A broken socket that is also idle is closed twice. */
  function Reports(id: u64, s: Source): seq<Message> {
    (match NextRead(s.input)
     case Chunk(b) => if b == [] then [] else [ConnectionDataMessage(id, b)]
     case Broken => [ConnectionCloseMessage(id)])
    + (if TimesOut(s) then [ConnectionCloseMessage(id)] else [])
  }

  /** The messages of a round that visits the sockets in this order. */
  function RoundMessages(streams: map<u64, Source>, order: seq<u64>): seq<Message> {
    if order == [] then []
    else
      (if order[0] in streams then Reports(order[0], streams[order[0]]) else []) + RoundMessages(streams, order[1..])
  }

  function Survivors(streams: map<u64, Source>): map<u64, Source> {
    map id | id in streams && !Drops(streams[id]) :: NextSource(streams[id])
  }

  /** An iteration order of a hash map: every key once. */
  predicate Visits(order: seq<u64>, streams: map<u64, Source>) {
    (forall i :: 0 <= i < |order| ==> order[i] in streams) &&
    (forall id :: id in streams ==> id in order) &&
    (forall i, j :: 0 <= i < j < |order| ==> order[i] != order[j])
  }

  /** Frames pushed one after the other into a socket, every write error being only logged. */
  function PushAll(json: Json, script: seq<WriteEvent>, ms: seq<Message>): (seq<byte>, seq<WriteEvent>)
    decreases |ms|
  {
    if ms == [] then ([], script)
    else
      var w := SpinWrite(script, Frame(json, ms[0]));
      var (rest, left) := PushAll(json, w.script, ms[1..]);
      (w.accepted + rest, left)
  }

  /** Every frame is accepted whole. */
  predicate AllPushed(json: Json, script: seq<WriteEvent>, ms: seq<Message>)
    decreases |ms|
  {
    ms == [] ||
    var n := |Frame(json, ms[0])|; Takes(script, n) && AllPushed(json, Left(script, n), ms[1..])
  }

  /** With no failed write the socket holds exactly the wire of the messages. */
  lemma {:induction false} PushedWire(json: Json, script: seq<WriteEvent>, ms: seq<Message>)
    requires AllPushed(json, script, ms)
    ensures PushAll(json, script, ms).0 == Wire(json, ms)
    decreases |ms|
  {
    if ms != [] {
      hide Frame, SpinWrite;
      FrameNonEmpty(json, ms[0]);
      WriteOutcome(script, Frame(json, ms[0]));
      PushedWire(json, Left(script, |Frame(json, ms[0])|), ms[1..]);
    }
  }

  /** No frame is accepted in part only. */
  predicate NoneCut(json: Json, script: seq<WriteEvent>, ms: seq<Message>)
    decreases |ms|
  {
    ms == [] ||
    var n := |Frame(json, ms[0])|;
    (Takes(script, n) || Sum(script[..EndAt(script, n)]) == 0) && NoneCut(json, Left(script, n), ms[1..])
  }

  /** The messages whose frames are accepted whole. */
  function PushedWhole(json: Json, script: seq<WriteEvent>, ms: seq<Message>): seq<Message>
    decreases |ms|
  {
    if ms == [] then []
    else
      var n := |Frame(json, ms[0])|;
      (if Takes(script, n) then [ms[0]] else []) + PushedWhole(json, Left(script, n), ms[1..])
  }

  /** Failed writes leave the wire of the messages that got through exactly when no frame was cut. */
  lemma {:induction false} PushedIff(json: Json, script: seq<WriteEvent>, ms: seq<Message>)
    ensures PushAll(json, script, ms).0 == Wire(json, PushedWhole(json, script, ms)) <==> NoneCut(json, script, ms)
    ensures |PushAll(json, script, ms).0| >= |Wire(json, PushedWhole(json, script, ms))|
    decreases |ms|
  {
    if ms != [] {
      var w := SpinWrite(script, Frame(json, ms[0]));
      FrameNonEmpty(json, ms[0]);
      WriteOutcome(script, Frame(json, ms[0]));
      PushedIff(json, w.script, ms[1..]);
      var rest, wire := PushAll(json, w.script, ms[1..]).0, Wire(json, PushedWhole(json, w.script, ms[1..]));
      hide SpinWrite, Frame, EndAt;
      if Takes(script, |Frame(json, ms[0])|) {
        var whole := PushedWhole(json, script, ms);
        assert whole == [ms[0]] + PushedWhole(json, w.script, ms[1..]);
        assert whole[1..] == PushedWhole(json, w.script, ms[1..]);
        SameBehind(w.accepted, rest, wire);
      } else {
        assert PushedWhole(json, script, ms) == [] + PushedWhole(json, w.script, ms[1..]) ==
               PushedWhole(json, w.script, ms[1..]);
        if w.accepted == [] {
          assert [] + rest == rest;
        }
      }
    }
  }

  lemma SameBehind<T>(a: seq<T>, x: seq<T>, y: seq<T>)
    ensures a + x == a + y <==> x == y
  {
    assert (a + x)[|a|..] == x && (a + y)[|a|..] == y;
  }

  lemma DataFrame(json: Json, id: u64, a: seq<byte>, b: seq<byte>)
    requires |a| + |b| + 8 < U32
    ensures Frame(json, ConnectionDataMessage(id, a + b)) ==
      Header(CONNECTION_DATA, |a| + |b| + 8) + ToBytes(id, 8) + a + b
  {
    hide Header, ToBytes;
  }

  /**
   * A cut frame really does mix streams: when the last bytes of a data frame are lost and the next frame
   * fills their place, the receiver takes that whole frame for payload of the first stream.
   */
  lemma CutFrameMixes(json: Json, id: u64, kept: seq<byte>, lost: seq<byte>, next: Message)
    requires json.Lawful() && |kept| + |lost| + 8 < U32 && |lost| == |Frame(json, next)|
    ensures var frame := Frame(json, ConnectionDataMessage(id, kept + lost));
      var cut := frame[..|frame| - |lost|] + Frame(json, next);
      ReadMessage(json, cut) == Ok((|frame|, ConnectionDataMessage(id, kept + Frame(json, next))))
  {
    hide Frame, Header, ReadMessage, ToBytes;
    var mixed := ConnectionDataMessage(id, kept + Frame(json, next));
    var head := Header(CONNECTION_DATA, |kept| + |lost| + 8) + ToBytes(id, 8) + kept;
    DataFrame(json, id, kept, lost);
    DataFrame(json, id, kept, Frame(json, next));
    TakeFront(head, lost);
    DataReads(json, mixed);
  }

  lemma TakeFront<T>(a: seq<T>, b: seq<T>)
    ensures |a + b| - |b| == |a| && (a + b)[..|a|] == a
  {
  }

  lemma DataReads(json: Json, m: Message)
    requires json.Lawful() && m.ConnectionDataMessage? && |m.payload| + 8 < U32
    ensures ReadMessage(json, Frame(json, m)) == Ok((|Frame(json, m)|, m))
  {
    FrameRoundTrip(json, m, []);
    assert Frame(json, m) + [] == Frame(json, m);
  }

  /** A socket's state: what it will do, and what it holds. */
  datatype SinkState = SinkState(script: seq<WriteEvent>, written: seq<byte>)

  function Push(json: Json, s: SinkState, ms: seq<Message>): SinkState {
    var (bytes, left) := PushAll(json, s.script, ms);
    SinkState(left, s.written + bytes)
  }

  lemma {:induction false} PushAppend(json: Json, s: SinkState, a: seq<Message>, b: seq<Message>)
    ensures Push(json, Push(json, s, a), b) == Push(json, s, a + b)
    decreases |a|
  {
    hide SpinWrite, Frame;
    if a == [] {
      assert a + b == b && s.written + [] == s.written;
    } else {
      assert (a + b)[1..] == a[1..] + b;
      var w := SpinWrite(s.script, Frame(json, a[0]));
      var t := SinkState(w.script, s.written + w.accepted);
      PushFirst(json, s, a);
      PushFirst(json, s, a + b);
      PushAppend(json, t, a[1..], b);
    }
  }

  lemma PushFirst(json: Json, s: SinkState, ms: seq<Message>)
    requires ms != []
    ensures var w := SpinWrite(s.script, Frame(json, ms[0]));
      Push(json, s, ms) == Push(json, SinkState(w.script, s.written + w.accepted), ms[1..])
  {
    var w := SpinWrite(s.script, Frame(json, ms[0]));
    var rest := PushAll(json, w.script, ms[1..]).0;
    assert s.written + (w.accepted + rest) == s.written + w.accepted + rest;
  }

  lemma PushNothing(json: Json, s: SinkState)
    ensures Push(json, s, []) == s
  {
    assert s.written + [] == s.written;
  }

  /** Frames a message and writes it; a failed write is logged and otherwise ignored. */
  method Report(json: Json, server: Sink, m: Message)
    requires !m.ForwardMessage?
    modifies server
    ensures server.State() == Push(json, old(server.State()), [m])
  {
    var frame := GetMessage(json, m);
    var r := server.WriteAllSpinlock(frame);
    PushFirst(json, old(server.State()), [m]);
    PushNothing(json, server.State());
  }

  class StreamTable {
    var streams: map<u64, Source>

    /** Reads one socket and reports it; returns whether it has to be removed. */
    method ProcessOne(json: Json, id: u64, server: Sink) returns (remove: bool)
      requires id in streams
      modifies this, server
      ensures streams == old(streams)[id := NextSource(old(streams)[id])]
      ensures remove == Drops(old(streams)[id])
      ensures server.State() == Push(json, old(server.State()), Reports(id, old(streams)[id]))
    {
      hide Push;
      var source := streams[id];
      streams := streams[id := NextSource(source)];
      remove := false;
      PushNothing(json, server.State());
      ghost var sent: seq<Message> := [];
      match NextRead(source.input) {
        case Chunk(bytes) =>
          if bytes != [] {
            Report(json, server, ConnectionDataMessage(id, bytes));
            sent := [ConnectionDataMessage(id, bytes)];
          }
        case Broken =>
          Report(json, server, ConnectionCloseMessage(id));
          sent := [ConnectionCloseMessage(id)];
          remove := true;
      }
      assert sent + [] == sent;
      if TimesOut(source) {
        PushAppend(json, old(server.State()), sent, [ConnectionCloseMessage(id)]);
        Report(json, server, ConnectionCloseMessage(id));
        remove := true;
      }
    }

    /** The loop of `process_streams` over all sockets, in any iteration order of the hash map. */
    method PollAll(json: Json, server: Sink, order: seq<u64>) returns (toRemove: set<u64>)
      requires Visits(order, streams)
      modifies this, server
      ensures streams == Visited(old(streams), old(streams).Keys)
      ensures toRemove == set id | id in old(streams) && Drops(old(streams)[id])
      ensures server.State() == Push(json, old(server.State()), RoundMessages(old(streams), order))
    {
      hide Push, Reports, Drops, NextSource, RoundMessages, Visits;
      ghost var start, sink, done := streams, server.State(), {};
      toRemove := {};
      PushNothing(json, sink);
      RoundStart(start, order);
      var i := 0;
      while i < |order|
        invariant 0 <= i <= |order|
        invariant done == Prefix(order, i)
        invariant streams == Visited(start, done)
        invariant toRemove == set id | id in done && id in start && Drops(start[id])
        invariant server.State() == Push(json, sink, RoundMessages(start, order[..i]))
      {
        VisitStep(order, start, i);
        RoundStep(start, order, i);
        PushAppend(json, sink, RoundMessages(start, order[..i]), Reports(order[i], start[order[i]]));
        var remove := ProcessOne(json, order[i], server);
        if remove {
          toRemove := toRemove + {order[i]};
        }
        done := done + {order[i]};
        i := i + 1;
      }
      assert order[..i] == order;
      VisitEnd(order, start);
    }

    /** `process_streams`. */
    method ProcessStreams(json: Json, server: Sink, order: seq<u64>)
      requires Visits(order, streams)
      modifies this, server
      ensures streams == Survivors(old(streams))
      ensures server.State() == Push(json, old(server.State()), RoundMessages(old(streams), order))
    {
      hide Push, RoundMessages, Visits, NextSource, Drops;
      var toRemove := PollAll(json, server, order);
      streams := streams - toRemove;
    }
  }

  lemma RoundStart(streams: map<u64, Source>, order: seq<u64>)
    ensures RoundMessages(streams, order[..0]) == []
  {
  }

  ghost function Prefix(order: seq<u64>, i: nat): set<u64>
    requires i <= |order|
  {
    set k | 0 <= k < i :: order[k]
  }

  lemma VisitStep(order: seq<u64>, streams: map<u64, Source>, i: nat)
    requires Visits(order, streams) && i < |order|
    ensures order[i] in streams && order[i] !in Prefix(order, i)
    ensures Prefix(order, i + 1) == Prefix(order, i) + {order[i]}
  {
  }

  lemma VisitEnd(order: seq<u64>, streams: map<u64, Source>)
    requires Visits(order, streams)
    ensures Prefix(order, |order|) == streams.Keys
  {
  }

  /** The table when the sockets in `done` have been read and the others not. */
  ghost function Visited(start: map<u64, Source>, done: set<u64>): map<u64, Source> {
    map id | id in start :: if id in done then NextSource(start[id]) else start[id]
  }

  lemma RoundStep(streams: map<u64, Source>, order: seq<u64>, i: nat)
    requires i < |order| && order[i] in streams
    ensures RoundMessages(streams, order[..i + 1]) ==
      RoundMessages(streams, order[..i]) + Reports(order[i], streams[order[i]])
  {
    RoundAppend(streams, order[..i], [order[i]]);
    assert order[..i] + [order[i]] == order[..i + 1];
    var last := [order[i]];
    assert last[1..] == [] && RoundMessages(streams, last) == Reports(order[i], streams[order[i]]) + [];
  }

  lemma {:induction false} RoundAppend(streams: map<u64, Source>, a: seq<u64>, b: seq<u64>)
    ensures RoundMessages(streams, a + b) == RoundMessages(streams, a) + RoundMessages(streams, b)
  {
    if a == [] {
      assert a + b == b;
    } else {
      assert (a + b)[1..] == a[1..] + b;
      RoundAppend(streams, a[1..], b);
    }
  }
}
