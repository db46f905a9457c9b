/** The receiving end, the forwarding loop, and the end-to-end theorem over whole sessions. */
module Transparency {
  import opened Bytes
  import opened Framing
  import opened Reader
  import opened Handshake
  import opened Streams

  // ------------------------------------------------------------------ the receiving end

  /** What the network does when a message is handled: whether a dial-out works, and how writes go. */
  datatype Delivery = Delivery(connects: bool, writes: seq<WriteEvent>)

  type Network = nat -> Delivery

  /**
   * The bytes written to each open socket, and to each socket of an id that has been closed. The sockets
   * in `down` are open but have been shut down, and so has the server connection when `serverDown` holds.
   */
  datatype Table = Table(open: map<u64, seq<byte>>, closed: map<u64, seq<seq<byte>>>, down: set<u64>,
                         serverDown: bool) {
    function Closed(id: u64): seq<seq<byte>> {
      if id in closed then closed[id] else []
    }

    function Current(id: u64): seq<byte> {
      if id in open then open[id] else []
    }

    /** The bytes written for an id, one entry for each socket that was opened for it. */
    function Log(id: u64): seq<seq<byte>> {
      Closed(id) + (if id in open then [open[id]] else [])
    }

    /** A socket of `id` that received `bytes` is gone. */
    function Retire(id: u64, bytes: seq<byte>): Table {
      Table(open - {id}, closed[id := Closed(id) + [bytes]], down - {id}, serverDown)
    }

    /** Every socket and the server connection are shut down, but stay where they are. */
    function ShutDown(): Table {
      this.(down := open.Keys, serverDown := true)
    }

    /** A write to a socket of `id`; one that is shut down accepts nothing. */
    function Write(id: u64, payload: seq<byte>, d: Delivery): Written {
      if id in down && payload != [] then Written(Err(SocketError), [], d.writes) else SpinWrite(d.writes, payload)
    }
  }

  const EMPTY: Table := Table(map[], map[], {}, false)

  /**
   * The state after a batch or a session: still forwarding, told to stop, aborted by the non-empty
   * assertion, or ended by a failed read or a timeout.
   */
  datatype Dispatched = Going(table: Table) | Stopped(table: Table) | Crashed(table: Table) | Ended(table: Table)

  function Handle(t: Table, m: Message, d: Delivery): Dispatched {
    match m
    case ConnectionCloseMessage(id) => Going(if id in t.open then t.Retire(id, t.open[id]) else t)
    case ConnectionDataMessage(id, payload) =>
      var w := t.Write(id, payload, d);
      if id in t.open then
        if w.result.Panic? then Crashed(t) else Going(t.(open := t.open[id := t.open[id] + w.accepted]))
      else if !d.connects then Going(t)
      else if w.result.Panic? then Crashed(t)
      else if w.result.Ok? then Going(t.(open := t.open[id := w.accepted]))
      else Going(t.Retire(id, w.accepted))
    case ForwardingCloseMessage => Stopped(t.ShutDown())
    case _ => Going(t)
  }

  /** `process_messages`: message `i` of the batch meets network event `at + i`. */
  function Dispatch(t: Table, ms: seq<Message>, net: Network, at: nat): (d: Dispatched)
    ensures !d.Ended?
    decreases |ms|
  {
    if ms == [] then Going(t)
    else match Handle(t, ms[0], net(at))
      case Going(next) => Dispatch(next, ms[1..], net, at + 1)
      case over => over
  }

  class Forwarder {
    var table: Table

    constructor ()
      ensures table == EMPTY
    {
      table := EMPTY;
    }

    method ProcessMessages(input: seq<Message>, net: Network, at: nat) returns (r: Outcome<bool, ()>)
      modifies this
      ensures var d := Dispatch(old(table), input, net, at);
        table == d.table && r == if d.Crashed? then Panic else Ok(d.Stopped?)
    {
      ghost var goal := Dispatch(table, input, net, at);
      var i := 0;
      while i < |input|
        invariant 0 <= i <= |input|
        invariant Dispatch(table, input[i..], net, at + i) == goal
      {
        var m, d := input[i], net(at + i);
        assert input[i..][0] == m && input[i..][1..] == input[i + 1..];
        match m {
          case IdentificationMessage(_) =>
          case ForwardMessage(_, _, _) =>
          case ErrorMessage(_) =>
          case ConnectionCloseMessage(id) =>
            if id in table.open {
              table := table.Retire(id, table.open[id]);
            }
          case ConnectionDataMessage(id, payload) =>
            var crashed := HandleData(id, payload, d);
            if crashed {
              return Panic;
            }
          case ForwardingCloseMessage =>
            table := table.ShutDown();
            return Ok(true);
          case KeepAliveMessage =>
        }
        i := i + 1;
      }
      return Ok(false);
    }

    method HandleData(id: u64, payload: seq<byte>, d: Delivery) returns (crashed: bool)
      modifies this
      ensures Handle(old(table), ConnectionDataMessage(id, payload), d) ==
        if crashed then Crashed(table) else Going(table)
    {
      var w := table.Write(id, payload, d);
      if id in table.open {
        if w.result.Panic? {
          return true;
        }
        table := table.(open := table.open[id := table.open[id] + w.accepted]);
      } else if d.connects {
        if w.result.Panic? {
          return true;
        }
        if w.result.Ok? {
          table := table.(open := table.open[id := w.accepted]);
        } else {
          table := table.Retire(id, w.accepted);
        }
      }
      return false;
    }
  }

  lemma {:induction false} DispatchAppend(t: Table, a: seq<Message>, b: seq<Message>, net: Network, at: nat)
    ensures Dispatch(t, a + b, net, at) ==
      match Dispatch(t, a, net, at)
      case Going(next) => Dispatch(next, b, net, at + |a|)
      case over => over
    decreases |a|
  {
    if a == [] {
      assert a + b == b;
    } else {
      assert (a + b)[1..] == a[1..] + b;
      if Handle(t, a[0], net(at)).Going? {
        DispatchAppend(Handle(t, a[0], net(at)).table, a[1..], b, net, at + 1);
      }
    }
  }

  // ------------------------------------------------------------------ isolation of streams

  predicate Addressed(m: Message, id: u64) {
    (m.ConnectionDataMessage? || m.ConnectionCloseMessage?) && m.streamId == id
  }

  /** The messages of one stream, each with the network event it met. */
  function Only(ms: seq<Message>, net: Network, at: nat, id: u64): seq<(Message, Delivery)> {
    if ms == [] then []
    else (if Addressed(ms[0], id) then [(ms[0], net(at))] else []) + Only(ms[1..], net, at + 1, id)
  }

  function DispatchPairs(t: Table, items: seq<(Message, Delivery)>): Dispatched
    decreases |items|
  {
    if items == [] then Going(t)
    else match Handle(t, items[0].0, items[0].1)
      case Going(next) => DispatchPairs(next, items[1..])
      case over => over
  }

  /** Two tables that agree on one stream. */
  predicate Agree(s: Table, t: Table, id: u64) {
    s.Closed(id) == t.Closed(id) && (id in s.open <==> id in t.open) && s.Current(id) == t.Current(id) &&
    (id in s.down <==> id in t.down)
  }

  /** What data does to its own stream, in terms of that stream alone. */
  lemma DataEffect(t: Table, m: Message, d: Delivery, id: u64)
    requires Addressed(m, id) && m.ConnectionDataMessage?
    ensures var u, w := Handle(t, m, d), t.Write(id, m.payload, d);
      (u.Going? <==> !w.result.Panic? || (id !in t.open && !d.connects)) &&
      (u.Going? && id in t.open ==>
       u.table.Closed(id) == t.Closed(id) && id in u.table.open && u.table.open[id] == t.open[id] + w.accepted) &&
      (u.Going? && id !in t.open && d.connects && w.result.Ok? ==>
       u.table.Closed(id) == t.Closed(id) && id in u.table.open && u.table.open[id] == w.accepted) &&
      (u.Going? && id !in t.open && d.connects && !w.result.Ok? ==>
       u.table.Closed(id) == t.Closed(id) + [w.accepted] && id !in u.table.open && id !in u.table.down) &&
      ((!u.Going? || (id !in t.open && !d.connects)) ==> u.table == t) &&
      (id in u.table.open ==> (id in u.table.down <==> id in t.down))
  {
    hide SpinWrite, Table.Write;
  }

  lemma DataAgree(s: Table, t: Table, m: Message, d: Delivery, id: u64)
    requires Agree(s, t, id) && Addressed(m, id) && m.ConnectionDataMessage?
    ensures Agree(Handle(s, m, d).table, Handle(t, m, d).table, id)
    ensures Handle(s, m, d).Going? <==> Handle(t, m, d).Going?
  {
    DataEffect(s, m, d, id);
    DataEffect(t, m, d, id);
    hide Handle, SpinWrite;
  }

  lemma HandleAgree(s: Table, t: Table, m: Message, d: Delivery, id: u64)
    requires Agree(s, t, id) && Addressed(m, id)
    ensures Agree(Handle(s, m, d).table, Handle(t, m, d).table, id)
    ensures Handle(s, m, d).Going? <==> Handle(t, m, d).Going?
  {
    hide SpinWrite;
    if m.ConnectionDataMessage? {
      DataAgree(s, t, m, d, id);
    }
  }

  lemma HandleOther(s: Table, t: Table, m: Message, d: Delivery, id: u64)
    requires Agree(s, t, id) && !Addressed(m, id)
    ensures Handle(s, m, d).Going? ==> Agree(Handle(s, m, d).table, t, id)
  {
    hide SpinWrite;
  }

  /**
   * Streams do not interfere, whatever the network does: the sockets of an id receive what they would
   * receive if the messages of that id were the only ones.
   */
  lemma {:induction false} NoMixing(s: Table, t: Table, ms: seq<Message>, net: Network, at: nat, id: u64)
    requires Agree(s, t, id) && Dispatch(s, ms, net, at).Going?
    ensures DispatchPairs(t, Only(ms, net, at, id)).Going?
    ensures Agree(Dispatch(s, ms, net, at).table, DispatchPairs(t, Only(ms, net, at, id)).table, id)
    decreases |ms|
  {
    hide Handle;
    if ms != [] {
      var m, d := ms[0], net(at);
      var rest := Only(ms[1..], net, at + 1, id);
      if Addressed(m, id) {
        HandleAgree(s, t, m, d, id);
        assert ([(m, d)] + rest)[1..] == rest;
        NoMixing(Handle(s, m, d).table, Handle(t, m, d).table, ms[1..], net, at + 1, id);
      } else {
        assert [] + rest == rest;
        HandleOther(s, t, m, d, id);
        NoMixing(Handle(s, m, d).table, t, ms[1..], net, at + 1, id);
      }
    }
  }

  // ------------------------------------------------------------------ what was sent on a stream

  function Flush(current: seq<byte>): seq<seq<byte>> {
    if current == [] then [] else [current]
  }

  /** The payload of one stream, cut at its close messages; `current` is what came before. */
  function Sent(id: u64, ms: seq<Message>, current: seq<byte>): seq<seq<byte>>
    decreases |ms|
  {
    if ms == [] then Flush(current)
    else if !Addressed(ms[0], id) then Sent(id, ms[1..], current)
    else match ms[0]
      case ConnectionDataMessage(_, payload) => Sent(id, ms[1..], current + payload)
      case _ => Flush(current) + Sent(id, ms[1..], [])
  }

  /** Messages that keep the session going: no stop and no empty payload. */
  ghost predicate Ordinary(ms: seq<Message>) {
    forall i :: 0 <= i < |ms| ==>
      !ms[i].ForwardingCloseMessage? && (ms[i].ConnectionDataMessage? ==> ms[i].payload != [])
  }

  /** Every dial-out works and every payload is accepted whole. */
  ghost predicate Perfect(ms: seq<Message>, net: Network, at: nat) {
    forall i :: 0 <= i < |ms| ==> Accepts(ms[i], net(at + i))
  }

  predicate Accepts(m: Message, d: Delivery) {
    d.connects && (m.ConnectionDataMessage? && m.payload != [] ==> Takes(d.writes, |m.payload|))
  }

  /** Every open socket has received something, and none is shut down. */
  ghost predicate Started(t: Table) {
    t.down == {} && forall id :: id in t.open ==> t.open[id] != []
  }

  lemma HandlePerfect(t: Table, m: Message, d: Delivery, id: u64)
    requires Started(t) && Accepts(m, d) && !m.ForwardingCloseMessage?
    requires m.ConnectionDataMessage? ==> m.payload != []
    ensures Handle(t, m, d).Going?
    ensures Started(Handle(t, m, d).table)
    ensures var u := Handle(t, m, d).table;
      if !Addressed(m, id) then Agree(u, t, id)
      else if m.ConnectionDataMessage? then u.Closed(id) == t.Closed(id) && u.Current(id) == t.Current(id) + m.payload
      else u.Closed(id) == t.Closed(id) + Flush(t.Current(id)) && u.Current(id) == []
  {
    hide SpinWrite, Takes, Left, Failure, Sum;
    if m.ConnectionDataMessage? {
      WriteOutcome(d.writes, m.payload);
      assert t.Write(m.streamId, m.payload, d) == SpinWrite(d.writes, m.payload);
      hide Table.Write;
    }
  }

  /** A batch that meets a perfect network: each socket receives exactly one session of its stream. */
  lemma {:induction false} ReceivesSessions(t: Table, ms: seq<Message>, net: Network, at: nat, id: u64)
    requires Started(t) && Ordinary(ms) && Perfect(ms, net, at)
    ensures Dispatch(t, ms, net, at).Going? && Started(Dispatch(t, ms, net, at).table)
    ensures Dispatch(t, ms, net, at).table.Log(id) == t.Closed(id) + Sent(id, ms, t.Current(id))
    decreases |ms|
  {
    hide Handle, Accepts;
    if ms != [] {
      var m := ms[0];
      assert Accepts(ms[0], net(at + 0));
      HandlePerfect(t, m, net(at), id);
      var u := Handle(t, m, net(at)).table;
      TailOrdinary(ms, net, at);
      ReceivesSessions(u, ms[1..], net, at + 1, id);
      if Addressed(m, id) && m.ConnectionCloseMessage? {
        var rest := Sent(id, ms[1..], []);
        assert t.Closed(id) + Flush(t.Current(id)) + rest == t.Closed(id) + (Flush(t.Current(id)) + rest);
      }
    }
  }

  lemma TailOrdinary(ms: seq<Message>, net: Network, at: nat)
    requires ms != [] && Ordinary(ms) && Perfect(ms, net, at)
    ensures Ordinary(ms[1..]) && Perfect(ms[1..], net, at + 1)
  {
    forall i | 0 <= i < |ms[1..]| ensures Accepts(ms[1..][i], net(at + 1 + i)) {
      assert Accepts(ms[i + 1], net(at + (i + 1)));
    }
  }

  // ------------------------------------------------------------------ runs of the sending end

  /** One turn of the sending loop: sockets accepted since the last turn, and a hash-map iteration order. */
  datatype Round = Round(accepted: map<u64, Source>, order: seq<u64>)

  ghost predicate ValidRun(streams: map<u64, Source>, rounds: seq<Round>)
    decreases |rounds|
  {
    rounds == [] ||
    (Visits(rounds[0].order, streams + rounds[0].accepted) &&
     ValidRun(Survivors(streams + rounds[0].accepted), rounds[1..]))
  }

  function RunMessages(streams: map<u64, Source>, rounds: seq<Round>): seq<Message>
    decreases |rounds|
  {
    if rounds == [] then []
    else
      var now := streams + rounds[0].accepted;
      RoundMessages(now, rounds[0].order) + RunMessages(Survivors(now), rounds[1..])
  }

  // ------------------------------------------------------------------ when a local socket is closed

  /** The read of this turn fails, or brings nothing while the socket has been idle for too long. */
  predicate ClosesNow(s: Source) {
    (s.input != [] && s.input[0].Broken?) ||
    ((s.input == [] || s.input[0] == Chunk([])) && s.idle != [] && s.idle[0])
  }

  /** The sockets that turn `n` of a run serves. */
  function Serves(streams: map<u64, Source>, rounds: seq<Round>, n: nat): map<u64, Source>
    requires n < |rounds|
    decreases n
  {
    (if n == 0 then streams else Survivors(Serves(streams, rounds, n - 1))) + rounds[n].accepted
  }

  lemma {:induction false} ServesVisited(streams: map<u64, Source>, rounds: seq<Round>, n: nat)
    requires ValidRun(streams, rounds) && n < |rounds|
    ensures Visits(rounds[n].order, Serves(streams, rounds, n))
    decreases |rounds|
  {
    hide Survivors, Visits;
    if n > 0 {
      ServesLater(streams, rounds, n);
      ServesVisited(Survivors(streams + rounds[0].accepted), rounds[1..], n - 1);
    }
  }

  lemma {:induction false} ServesLater(streams: map<u64, Source>, rounds: seq<Round>, n: nat)
    requires 0 < n < |rounds|
    ensures Serves(streams, rounds, n) == Serves(Survivors(streams + rounds[0].accepted), rounds[1..], n - 1)
    decreases n
  {
    hide Survivors;
    if n > 1 {
      ServesLater(streams, rounds, n - 1);
    }
  }

  lemma {:induction false} ClosesIn(streams: map<u64, Source>, order: seq<u64>, id: u64)
    ensures ConnectionCloseMessage(id) in RoundMessages(streams, order) <==>
      id in order && id in streams && ClosesNow(streams[id])
    decreases |order|
  {
    if order != [] {
      ClosesIn(streams, order[1..], id);
      if order[0] in streams {
        ReportsClose(order[0], streams[order[0]], id);
      }
    }
  }

  lemma ReportsClose(other: u64, s: Source, id: u64)
    ensures ConnectionCloseMessage(id) in Reports(other, s) <==> other == id && ClosesNow(s)
  {
  }

  /** What a turn sends for one socket, read off its fields; a broken socket that is also idle is closed twice. */
  lemma ReportsAre(id: u64, s: Source)
    ensures var idle := s.idle != [] && s.idle[0];
      Reports(id, s) ==
      if s.input == [] || s.input[0] == Chunk([]) then (if idle then [ConnectionCloseMessage(id)] else [])
      else if s.input[0].Chunk? then [ConnectionDataMessage(id, s.input[0].bytes)]
      else if idle then [ConnectionCloseMessage(id), ConnectionCloseMessage(id)]
      else [ConnectionCloseMessage(id)]
  {
  }

  /**
   * Over every run, a socket leaves the table at a turn, and a close for it is sent in that turn, exactly
   * when its read fails or brings nothing while it is idle; a read with bytes never closes it. A socket
   * that stays has had one read and one look at its clock.
   */
  lemma ClosesIff(streams: map<u64, Source>, rounds: seq<Round>, n: nat, id: u64)
    requires ValidRun(streams, rounds) && n < |rounds|
    ensures var now := Serves(streams, rounds, n);
      (ConnectionCloseMessage(id) in RoundMessages(now, rounds[n].order) <==> id in now && ClosesNow(now[id])) &&
      (id in now ==>
       (id in Survivors(now) <==> !ClosesNow(now[id])) &&
       (id in Survivors(now) ==>
        Survivors(now)[id] == Source(if now[id].input == [] then [] else now[id].input[1..],
                                     if now[id].idle == [] then [] else now[id].idle[1..])))
  {
    ServesVisited(streams, rounds, n);
    ClosesIn(Serves(streams, rounds, n), rounds[n].order, id);
  }

  /** The sending loop: each turn takes in the new sockets and serves all of them. */
  method SendRounds(json: Json, table: StreamTable, server: Sink, rounds: seq<Round>)
    requires ValidRun(table.streams, rounds)
    modifies table, server
    ensures server.State() == Push(json, old(server.State()), RunMessages(old(table.streams), rounds))
  {
    hide Push, RoundMessages, Survivors, Visits;
    ghost var goal := Push(json, server.State(), RunMessages(table.streams, rounds));
    var i := 0;
    assert rounds[0..] == rounds;
    while i < |rounds|
      invariant 0 <= i <= |rounds| && ValidRun(table.streams, rounds[i..])
      invariant Push(json, server.State(), RunMessages(table.streams, rounds[i..])) == goal
    {
      assert rounds[i..][0] == rounds[i] && rounds[i..][1..] == rounds[i + 1..];
      ghost var now := table.streams + rounds[i].accepted;
      PushAppend(json, server.State(), RoundMessages(now, rounds[i].order),
                 RunMessages(Survivors(now), rounds[i + 1..]));
      table.streams := table.streams + rounds[i].accepted;
      table.ProcessStreams(json, server, rounds[i].order);
      i := i + 1;
    }
    PushNothing(json, server.State());
  }

  /** The bytes read from the sockets of `id`, one entry per socket that gave any; no order is involved. */
  function ReadSessions(id: u64, streams: map<u64, Source>, rounds: seq<Round>, current: seq<byte>): seq<seq<byte>>
    decreases |rounds|
  {
    if rounds == [] then Flush(current)
    else
      var now := streams + rounds[0].accepted;
      if id !in now then ReadSessions(id, Survivors(now), rounds[1..], current)
      else if Drops(now[id]) then
        Flush(current + BytesNow(now[id])) + ReadSessions(id, Survivors(now), rounds[1..], [])
      else ReadSessions(id, Survivors(now), rounds[1..], current + BytesNow(now[id]))
  }

  /** Reports of other streams are invisible to this one. */
  lemma {:induction false} SkipReports(id: u64, other: u64, s: Source, rest: seq<Message>, current: seq<byte>)
    requires other != id
    ensures Sent(id, Reports(other, s) + rest, current) == Sent(id, rest, current)
  {
    var r := Reports(other, s);
    if |r| == 0 {
      assert r + rest == rest;
    } else if |r| == 1 {
      assert (r + rest)[1..] == rest;
    } else {
      assert (r + rest)[1..][1..] == rest;
    }
  }

  lemma {:induction false} SkipRound(id: u64, streams: map<u64, Source>, order: seq<u64>, rest: seq<Message>,
                                     current: seq<byte>)
    requires forall i :: 0 <= i < |order| ==> order[i] != id
    ensures Sent(id, RoundMessages(streams, order) + rest, current) == Sent(id, rest, current)
    decreases |order|
  {
    if order == [] {
      assert RoundMessages(streams, order) + rest == rest;
    } else {
      var later := RoundMessages(streams, order[1..]) + rest;
      var head := if order[0] in streams then Reports(order[0], streams[order[0]]) else [];
      assert RoundMessages(streams, order) + rest == head + later;
      if order[0] in streams {
        SkipReports(id, order[0], streams[order[0]], later, current);
      } else {
        assert head + later == later;
      }
      SkipRound(id, streams, order[1..], rest, current);
    }
  }

  /** The reports of a stream about itself. */
  lemma OwnReports(id: u64, s: Source, rest: seq<Message>, current: seq<byte>)
    ensures Sent(id, Reports(id, s) + rest, current) ==
      if Drops(s) then Flush(current + BytesNow(s)) + Sent(id, rest, [])
      else Sent(id, rest, current + BytesNow(s))
  {
    var r := Reports(id, s);
    assert current + [] == current;
    if |r| == 0 {
      assert r + rest == rest;
    } else if |r| == 1 {
      assert (r + rest)[1..] == rest;
    } else {
      assert (r + rest)[1..][1..] == rest;
      assert Flush(current) + ([] + Sent(id, rest, [])) == Flush(current) + Sent(id, rest, []);
    }
  }

  /** A round shows a stream its own reports and nothing else, wherever the iteration puts it. */
  lemma {:induction false} RoundSent(id: u64, streams: map<u64, Source>, order: seq<u64>, rest: seq<Message>,
                                     current: seq<byte>)
    requires forall i, j :: 0 <= i < j < |order| ==> order[i] != order[j]
    requires id in order && id in streams
    ensures Sent(id, RoundMessages(streams, order) + rest, current) ==
      Sent(id, Reports(id, streams[id]) + rest, current)
    decreases |order|
  {
    var later := RoundMessages(streams, order[1..]) + rest;
    var head := if order[0] in streams then Reports(order[0], streams[order[0]]) else [];
    assert RoundMessages(streams, order) + rest == head + later;
    if order[0] == id {
      OwnReports(id, streams[id], later, current);
      OwnReports(id, streams[id], rest, current);
      SkipRound(id, streams, order[1..], rest, []);
      SkipRound(id, streams, order[1..], rest, current + BytesNow(streams[id]));
    } else {
      if order[0] in streams {
        SkipReports(id, order[0], streams[order[0]], later, current);
      } else {
        assert head + later == later;
      }
      RoundSent(id, streams, order[1..], rest, current);
    }
  }

  /** What a run sends for a stream is what its sockets gave, for every iteration order of every round. */
  lemma {:induction false} SendsSessions(id: u64, streams: map<u64, Source>, rounds: seq<Round>, current: seq<byte>)
    requires ValidRun(streams, rounds)
    ensures Sent(id, RunMessages(streams, rounds), current) == ReadSessions(id, streams, rounds, current)
    decreases |rounds|
  {
    if rounds != [] {
      var now, order := streams + rounds[0].accepted, rounds[0].order;
      var rest := RunMessages(Survivors(now), rounds[1..]);
      if id in now {
        RoundSent(id, now, order, rest, current);
        OwnReports(id, now[id], rest, current);
        SendsSessions(id, Survivors(now), rounds[1..], []);
        SendsSessions(id, Survivors(now), rounds[1..], current + BytesNow(now[id]));
      } else {
        SkipRound(id, now, order, rest, current);
        SendsSessions(id, Survivors(now), rounds[1..], current);
      }
    }
  }

  /** No run ever sends an empty payload, a stop or a forward message. */
  lemma {:induction false} RunOrdinary(streams: map<u64, Source>, rounds: seq<Round>)
    ensures Ordinary(RunMessages(streams, rounds))
    ensures forall m :: m in RunMessages(streams, rounds) ==> m.ConnectionDataMessage? || m.ConnectionCloseMessage?
    decreases |rounds|
  {
    if rounds != [] {
      var now := streams + rounds[0].accepted;
      RoundOrdinary(now, rounds[0].order);
      RunOrdinary(Survivors(now), rounds[1..]);
    }
  }

  lemma {:induction false} RoundOrdinary(streams: map<u64, Source>, order: seq<u64>)
    ensures Ordinary(RoundMessages(streams, order))
    ensures forall m :: m in RoundMessages(streams, order) ==> m.ConnectionDataMessage? || m.ConnectionCloseMessage?
    decreases |order|
  {
    if order != [] {
      RoundOrdinary(streams, order[1..]);
    }
  }

  // ------------------------------------------------------------------ the forwarding loop

  /** Sockets that `process_streams` removes because they broke or were idle. */
  function DropLocal(t: Table, gone: set<u64>): Table {
    Table(t.open - gone,
          map id | id in t.closed.Keys + t.open.Keys * gone ::
            t.Closed(id) + (if id in t.open && id in gone then [t.open[id]] else []),
          t.down - gone, t.serverDown)
  }

  /** What happens besides in a turn: which local sockets are lost, and whether the last message is too old. */
  datatype Turn = Turn(lost: set<u64>, expired: bool)

  ghost predicate LosesNothing(local: nat -> Turn) { forall n :: local(n).lost == {} }

  ghost predicate NeverExpires(local: nat -> Turn) { forall n :: !local(n).expired }

  /** A batch with a message for a stream restarts the session's clock. */
  predicate Active(ms: seq<Message>) {
    exists i :: 0 <= i < |ms| && (ms[i].ConnectionDataMessage? || ms[i].ConnectionCloseMessage?)
  }

  /**
   * The loop of `forward_connections` until the script of reads is used up: read a batch, service the
   * local sockets, of which those in `local(turn).lost` are lost, dispatch the batch, look at the clock.
   */
  function ForwardLoop(json: Json, script: seq<ReadEvent>, t: Table, net: Network, at: nat,
                       local: nat -> Turn, turn: nat): Dispatched
    decreases |script|
  {
    if script == [] then Going(t)
    else
      var run := ReadMessages(json, script);
      match run.outcome
      case Err(_) => Ended(t)
      case Panic => Crashed(t)
      case Ok(ms) =>
        match Dispatch(DropLocal(t, local(turn).lost), ms, net, at)
        case Going(next) =>
          if local(turn).expired && !Active(ms) then Ended(next)
          else ForwardLoop(json, run.script, next, net, at + |ms|, local, turn + 1)
        case over => over
  }

  /**
   * `forward_connections`: first the messages that came in the same batch as the forward message. The
   * verdict of that batch is ignored, so a stop among them cuts it short but does not end the session.
   */
  function ForwardSession(json: Json, script: seq<ReadEvent>, first: seq<Message>, net: Network,
                          local: nat -> Turn): Dispatched
  {
    var d := Dispatch(EMPTY, first, net, 0);
    if d.Crashed? then d else ForwardLoop(json, script, d.table, net, |first|, local, 0)
  }

  method ForwardConnections(json: Json, input: Socket, firstRound: seq<Message>, net: Network,
                            local: nat -> Turn) returns (forwarder: Forwarder)
    modifies input
    ensures fresh(forwarder)
    ensures forwarder.table == ForwardSession(json, old(input.script), firstRound, net, local).table
  {
    hide Dispatch, ReadInternal, DropLocal, Active;
    forwarder := new Forwarder();
    var first := forwarder.ProcessMessages(firstRound, net, 0);
    if first.Panic? {
      return;
    }
    ghost var goal := ForwardLoop(json, input.script, forwarder.table, net, |firstRound|, local, 0);
    var turn: nat, at: nat := 0, |firstRound|;
    while input.script != []
      invariant ForwardLoop(json, input.script, forwarder.table, net, at, local, turn) == goal
      decreases |input.script|
    {
      var batch := ReadMessagesInternal(json, input, [], [], 0, None);
      if !batch.Ok? {
        break;
      }
      forwarder.table := DropLocal(forwarder.table, local(turn).lost);
      var shutdown := forwarder.ProcessMessages(batch.value, net, at);
      if shutdown != Ok(false) || (local(turn).expired && !Active(batch.value)) {
        break;
      }
      turn, at := turn + 1, at + |batch.value|;
    }
  }

  /** All bytes written for a stream, in order. */
  ghost function Total(t: Table, id: u64): seq<byte> {
    Concat(t.Closed(id)) + t.Current(id)
  }

  ghost function Payload(id: u64, ms: seq<Message>): seq<byte> {
    if ms == [] then []
    else (if Addressed(ms[0], id) && ms[0].ConnectionDataMessage? then ms[0].payload else []) + Payload(id, ms[1..])
  }

  lemma FlushConcat(a: seq<seq<byte>>, current: seq<byte>)
    ensures Concat(a + Flush(current)) == Concat(a) + current
    ensures Concat(a + [current]) == Concat(a) + current
  {
    ConcatAppend(a, Flush(current));
    ConcatAppend(a, [current]);
    assert Concat([current]) == current + Concat([]);
  }

  lemma FlushAlone(current: seq<byte>)
    ensures Concat(Flush(current)) == current
  {
    FlushConcat([], current);
    assert [] + Flush(current) == Flush(current);
  }

  lemma {:induction false} SentPayload(id: u64, ms: seq<Message>, current: seq<byte>)
    ensures Concat(Sent(id, ms, current)) == current + Payload(id, ms)
    decreases |ms|
  {
    hide Concat, Flush;
    if ms == [] {
      FlushAlone(current);
    } else if !Addressed(ms[0], id) {
      SentPayload(id, ms[1..], current);
    } else if ms[0].ConnectionDataMessage? {
      SentPayload(id, ms[1..], current + ms[0].payload);
      Associate(current, ms[0].payload, Payload(id, ms[1..]));
    } else {
      SentPayload(id, ms[1..], []);
      ConcatAppend(Flush(current), Sent(id, ms[1..], []));
      FlushAlone(current);
    }
  }

  lemma {:induction false} PayloadAppend(id: u64, a: seq<Message>, b: seq<Message>)
    ensures Payload(id, a + b) == Payload(id, a) + Payload(id, b)
    decreases |a|
  {
    if a == [] {
      assert a + b == b;
    } else {
      assert (a + b)[1..] == a[1..] + b;
      PayloadAppend(id, a[1..], b);
    }
  }

  lemma LogTotal(t: Table, id: u64)
    ensures Concat(t.Log(id)) == Total(t, id)
  {
    FlushConcat(t.Closed(id), t.Current(id));
  }

  lemma DropKeepsTotal(t: Table, gone: set<u64>, id: u64)
    ensures Total(DropLocal(t, gone), id) == Total(t, id)
    ensures Started(t) ==> Started(DropLocal(t, gone))
  {
    FlushConcat(t.Closed(id), t.Current(id));
    assert t.Closed(id) + [] == t.Closed(id);
    var all := Concat(t.Closed(id)) + t.Current(id);
    assert all + [] == all;
  }

  lemma DropNothing(t: Table)
    ensures DropLocal(t, {}) == t
  {
    forall id | id in t.closed ensures DropLocal(t, {}).closed[id] == t.closed[id] {
      assert t.closed[id] + [] == t.closed[id];
    }
    assert DropLocal(t, {}).closed == t.closed;
  }

  /** However the wire is cut into batches and whichever local sockets are lost, no byte is lost or moved. */
  lemma {:induction false} LoopTotal(json: Json, script: seq<ReadEvent>, t: Table, net: Network, at: nat,
                                     local: nat -> Turn, turn: nat, ms: seq<Message>, id: u64)
    requires Session(json, script) == Ok(ms) && NeverExpires(local)
    requires Started(t) && Ordinary(ms) && Perfect(ms, net, at)
    ensures var d := ForwardLoop(json, script, t, net, at, local, turn);
      d.Going? && Total(d.table, id) == Total(t, id) + Payload(id, ms)
    decreases |script|
  {
    hide Dispatch, ReadInternal, DropLocal, Total, Started;
    if script == [] {
      assert Total(t, id) + [] == Total(t, id);
    } else {
      var run := ReadMessages(json, script);
      var batch := run.outcome.value;
      var rest := Session(json, run.script).value;
      SplitOrdinary(batch, rest, net, at);
      var u := DropLocal(t, local(turn).lost);
      DropKeepsTotal(t, local(turn).lost, id);
      BatchTotal(u, batch, net, at, id);
      LoopTotal(json, run.script, Dispatch(u, batch, net, at).table, net, at + |batch|, local, turn + 1, rest, id);
      PayloadAppend(id, batch, rest);
      assert Total(t, id) + (Payload(id, batch) + Payload(id, rest)) ==
             Total(t, id) + Payload(id, batch) + Payload(id, rest);
    }
  }

  lemma BatchTotal(t: Table, ms: seq<Message>, net: Network, at: nat, id: u64)
    requires Started(t) && Ordinary(ms) && Perfect(ms, net, at)
    ensures Dispatch(t, ms, net, at).Going? && Started(Dispatch(t, ms, net, at).table)
    ensures Total(Dispatch(t, ms, net, at).table, id) == Total(t, id) + Payload(id, ms)
  {
    ReceivesSessions(t, ms, net, at, id);
    LogTotal(Dispatch(t, ms, net, at).table, id);
    ConcatAppend(t.Closed(id), Sent(id, ms, t.Current(id)));
    SentPayload(id, ms, t.Current(id));
    assert Concat(t.Closed(id)) + (t.Current(id) + Payload(id, ms)) ==
           Concat(t.Closed(id)) + t.Current(id) + Payload(id, ms);
  }

  lemma SplitOrdinary(a: seq<Message>, b: seq<Message>, net: Network, at: nat)
    requires Ordinary(a + b) && Perfect(a + b, net, at)
    ensures Ordinary(a) && Ordinary(b) && Perfect(a, net, at) && Perfect(b, net, at + |a|)
  {
    forall i | 0 <= i < |a| ensures Accepts(a[i], net(at + i))
      ensures !a[i].ForwardingCloseMessage? && (a[i].ConnectionDataMessage? ==> a[i].payload != [])
    {
      assert (a + b)[i] == a[i];
    }
    forall i | 0 <= i < |b| ensures Accepts(b[i], net(at + |a| + i))
      ensures !b[i].ForwardingCloseMessage? && (b[i].ConnectionDataMessage? ==> b[i].payload != [])
    {
      assert (a + b)[|a| + i] == b[i];
      assert Accepts((a + b)[|a| + i], net(at + (|a| + i)));
    }
  }

  /** With no local loss the loop does what one dispatch of everything would do. */
  lemma {:induction false} LoopIsDispatch(json: Json, script: seq<ReadEvent>, t: Table, net: Network, at: nat,
                                          local: nat -> Turn, turn: nat, ms: seq<Message>)
    requires Session(json, script) == Ok(ms) && NeverExpires(local) && LosesNothing(local)
    ensures ForwardLoop(json, script, t, net, at, local, turn) == Dispatch(t, ms, net, at)
    decreases |script|
  {
    hide Dispatch, ReadInternal, DropLocal;
    if script == [] {
      DispatchNothing(t, net, at);
    } else {
      var run := ReadMessages(json, script);
      var batch := run.outcome.value;
      var rest := Session(json, run.script).value;
      DropNothing(t);
      DispatchAppend(t, batch, rest, net, at);
      if Dispatch(t, batch, net, at).Going? {
        LoopIsDispatch(json, run.script, Dispatch(t, batch, net, at).table, net, at + |batch|, local, turn + 1, rest);
      }
    }
  }

  lemma DispatchNothing(t: Table, net: Network, at: nat)
    ensures Dispatch(t, [], net, at) == Going(t)
  {
  }

  // ------------------------------------------------------------------ end to end

  /** What the sockets of a stream received is what was read for it, session by session if none was lost. */
  ghost predicate Transparent(d: Dispatched, id: u64, read: seq<seq<byte>>, local: nat -> Turn) {
    d.Going? && Concat(d.table.Log(id)) == Concat(read) && (LosesNothing(local) ==> d.table.Log(id) == read)
  }

  lemma NothingYet(id: u64)
    ensures Started(EMPTY) && Total(EMPTY, id) == [] && EMPTY.Closed(id) == [] && EMPTY.Current(id) == []
  {
  }

  /** A session whose first messages came with the forward message and whose others are read by the loop. */
  lemma LoopTransparent(json: Json, ms: seq<Message>, j: nat, script: seq<ReadEvent>, net: Network,
                        local: nat -> Turn, id: u64)
    requires j <= |ms| && Ordinary(ms) && Perfect(ms, net, 0) && Session(json, script) == Ok(ms[j..])
    requires NeverExpires(local)
    ensures Transparent(ForwardSession(json, script, ms[..j], net, local), id, Sent(id, ms, []), local)
  {
    hide Dispatch, ReadInternal, DropLocal, ForwardLoop, Session, Ordinary, Perfect, Sent, Payload, Total, Started;
    var first, rest := ms[..j], ms[j..];
    assert first + rest == ms;
    NothingYet(id);
    SplitOrdinary(first, rest, net, 0);
    BatchTotal(EMPTY, first, net, 0, id);
    var t := Dispatch(EMPTY, first, net, 0).table;
    LoopTotal(json, script, t, net, j, local, 0, rest, id);
    PayloadAppend(id, first, rest);
    SentPayload(id, ms, []);
    LogTotal(ForwardLoop(json, script, t, net, j, local, 0).table, id);
    if LosesNothing(local) {
      LoopIsDispatch(json, script, t, net, j, local, 0, rest);
      DispatchAppend(EMPTY, first, rest, net, 0);
      ReceivesSessions(EMPTY, ms, net, 0, id);
    }
  }

  /** A session whose reads fail does not go on. */
  lemma {:induction false} LoopFails(json: Json, script: seq<ReadEvent>, t: Table, net: Network, at: nat,
                                     local: nat -> Turn, turn: nat)
    requires Session(json, script).Err?
    ensures !ForwardLoop(json, script, t, net, at, local, turn).Going?
    decreases |script|
  {
    hide Dispatch, ReadInternal, DropLocal, Active;
    var run := ReadMessages(json, script);
    if run.outcome.Ok? {
      var batch := run.outcome.value;
      var d := Dispatch(DropLocal(t, local(turn).lost), batch, net, at);
      if d.Going? {
        LoopFails(json, run.script, d.table, net, at + |batch|, local, turn + 1);
      }
    }
  }

  /** The start reader returned the forward message first, and the session that took over was transparent. */
  ghost predicate Arrives(json: Json, box: CryptoBox, m: Message, script: seq<ReadEvent>, net: Network,
                            local: nat -> Turn, id: u64, read: seq<seq<byte>>)
  {
    var start := ReadStart(json, box, script, [], 0);
    start.outcome.Ok? && start.outcome.value != [] && start.outcome.value[0] == m &&
    Transparent(ForwardSession(json, start.script, start.outcome.value[1..], net, local), id, read, local)
  }

  /**
   * End-to-end transparency. One end sends the encrypted forward message and then, in any run of its
   * sending loop with any iteration orders, the frames of its sockets; the reads of the other end cut
   * these bytes anywhere. When dial-outs, writes and the session's clock do not fail, the start reader
   * returns the forward message first and the forwarding session that takes over from it writes to the
   * sockets of every stream exactly the bytes that were read for it, in order, and, when no local socket
   * is lost, session by session: all this exactly when the cuts leave good reads and enough tries.
   */
  lemma EndToEnd(json: Json, box: CryptoBox, nonce: seq<byte>, m: Message, rounds: seq<Round>, wire: seq<WriteEvent>,
                 script: seq<ReadEvent>, net: Network, local: nat -> Turn, id: u64)
    requires json.Lawful() && box.Lawful() && |nonce| == NONCE_LEN && ValidRun(map[], rounds) && NeverExpires(local)
    requires m.ForwardMessage?
    requires HEADER_LEN + |EncryptedBody(json, box, nonce, m)| < U32
    requires var ms, frame := RunMessages(map[], rounds), EncryptedFrame(json, box, nonce, m);
      Sendable(json, ms) && AllPushed(json, wire, ms) && Perfect(ms, net, 0) &&
      Delivered(script) == frame + PushAll(json, wire, ms).0
    ensures
      Arrives(json, box, m, script, net, local, id, ReadSessions(id, map[], rounds, [])) <==>
      GoodSession(json, |EncryptedFrame(json, box, nonce, m)|, RunMessages(map[], rounds), script)
  {
    hide *;
    var ms, frame := RunMessages(map[], rounds), EncryptedFrame(json, box, nonce, m);
    PushedWire(json, wire, ms);
    RunOrdinary(map[], rounds);
    SendsSessions(id, map[], rounds, []);
    SessionTransparent(json, box, nonce, m, ms, script, net, local, id);
  }

  lemma SessionTransparent(json: Json, box: CryptoBox, nonce: seq<byte>, m: Message, ms: seq<Message>,
                           script: seq<ReadEvent>, net: Network, local: nat -> Turn, id: u64)
    requires json.Lawful() && box.Lawful() && |nonce| == NONCE_LEN && NeverExpires(local)
    requires HEADER_LEN + |EncryptedBody(json, box, nonce, m)| < U32
    requires Sendable(json, ms) && Ordinary(ms) && Perfect(ms, net, 0)
    requires Delivered(script) == EncryptedFrame(json, box, nonce, m) + Wire(json, ms)
    ensures
      Arrives(json, box, m, script, net, local, id, Sent(id, ms, [])) <==>
      GoodSession(json, |EncryptedFrame(json, box, nonce, m)|, ms, script)
  {
    hide Ordinary, Perfect, Sendable, Wire, Delivered, EncryptedFrame, EncryptedBody, ReadStart, Session,
      GoodStart, InTime, AfterStart, GoodReads, Enough, ForwardSession, Transparent, Sent, NeverExpires;
    var frame := EncryptedFrame(json, box, nonce, m);
    EncryptedNonEmpty(json, box, nonce, m);
    assert [] + Delivered(script) == frame + Wire(json, ms);
    var j := StartDelivers(json, box, nonce, m, ms, script, [], 0);
    var start := ReadStart(json, box, script, [], 0);
    if start.outcome.Ok? {
      assert ([m] + ms[..j])[1..] == ms[..j];
      SendableFrom(json, ms, j);
      SessionIff(json, start.script, ms[j..]);
      if Session(json, start.script) == Ok(ms[j..]) {
        LoopTransparent(json, ms, j, start.script, net, local, id);
      } else {
        SessionFails(json, start.script, ms[..j], net, local, id, Sent(id, ms, []));
      }
    }
  }

  lemma SessionFails(json: Json, script: seq<ReadEvent>, first: seq<Message>, net: Network, local: nat -> Turn,
                     id: u64, read: seq<seq<byte>>)
    requires Session(json, script).Err?
    ensures !Transparent(ForwardSession(json, script, first, net, local), id, read, local)
  {
    hide Dispatch, ForwardLoop, Session;
    LoopFails(json, script, Dispatch(EMPTY, first, net, 0).table, net, |first|, local, 0);
  }

  // ------------------------------------------------------------------ any connection at all

  lemma PerfectFrom(ms: seq<Message>, net: Network, at: nat, j: nat)
    requires j <= |ms| && Ordinary(ms) && Perfect(ms, net, at)
    ensures Ordinary(ms[..j]) && Perfect(ms[..j], net, at) && Ordinary(ms[j..]) && Perfect(ms[j..], net, at + j)
  {
    hide Ordinary, Perfect;
    assert ms == ms[..j] + ms[j..];
    SplitOrdinary(ms[..j], ms[j..], net, at);
  }

  /** The table holds, on top of `t`, exactly the data of these messages. */
  ghost predicate Holds(t: Table, u: Table, ms: seq<Message>) {
    forall id: u64 :: Total(u, id) == Total(t, id) + Payload(id, ms)
  }

  lemma HoldsNothing(t: Table)
    ensures Holds(t, t, [])
  {
    forall id: u64 ensures Total(t, id) == Total(t, id) + Payload(id, []) {
      assert Total(t, id) + [] == Total(t, id);
    }
  }

  lemma HoldsMore(t: Table, u: Table, v: Table, a: seq<Message>, b: seq<Message>)
    requires Holds(t, u, a) && Holds(u, v, b)
    ensures Holds(t, v, a + b)
  {
    hide Total, Payload;
    forall id: u64 ensures Total(v, id) == Total(t, id) + Payload(id, a + b) {
      PayloadAppend(id, a, b);
      Associate(Total(t, id), Payload(id, a), Payload(id, b));
    }
  }

  lemma BatchHolds(t: Table, lost: set<u64>, batch: seq<Message>, net: Network, at: nat)
    requires Started(t) && Ordinary(batch) && Perfect(batch, net, at)
    ensures var d := Dispatch(DropLocal(t, lost), batch, net, at);
      d.Going? && Started(d.table) && Holds(t, d.table, batch)
  {
    hide Dispatch, DropLocal, Total, Payload, Ordinary, Perfect, Started;
    var u := DropLocal(t, lost);
    DropKeepsTotal(t, lost, 0);
    BatchTotal(u, batch, net, at, 0);
    forall id: u64 ensures Total(Dispatch(u, batch, net, at).table, id) == Total(t, id) + Payload(id, batch) {
      DropKeepsTotal(t, lost, id);
      BatchTotal(u, batch, net, at, id);
    }
  }

  /**
   * Whatever the reads and the clock do, and whichever local sockets are lost: what the loop has written
   * when it ends is the data of the first `k` messages of the wire, for all streams the same `k`.
   */
  lemma {:induction false} LoopPrefix(json: Json, script: seq<ReadEvent>, t: Table, net: Network, at: nat,
                                      local: nat -> Turn, turn: nat, ms: seq<Message>) returns (k: nat)
    requires json.Lawful() && Sendable(json, ms) && Delivered(script) <= Wire(json, ms)
    requires Started(t) && Ordinary(ms) && Perfect(ms, net, at)
    ensures var d := ForwardLoop(json, script, t, net, at, local, turn);
      k <= |ms| && Holds(t, d.table, ms[..k]) &&
      (LosesNothing(local) ==> d.table == Dispatch(t, ms[..k], net, at).table)
    decreases |script|
  {
    hide Dispatch, ReadInternal, DropLocal, Holds, Started, Ordinary, Perfect, Sendable, Delivered, Wire, Active;
    k := 0;
    HoldsNothing(t);
    DispatchNothing(t, net, at);
    assert ms[..0] == [];
    if script != [] {
      assert [] + Delivered(script) == Delivered(script);
      var j := CallPrefix(json, script, [], [], ms);
      var run := ReadMessages(json, script);
      if run.outcome.Ok? {
        var batch, rest := ms[..j], ms[j..];
        assert [] + batch == batch;
        PerfectFrom(ms, net, at, j);
        SendableFrom(json, ms, j);
        BatchHolds(t, local(turn).lost, batch, net, at);
        DropNothing(t);
        var u := Dispatch(DropLocal(t, local(turn).lost), batch, net, at).table;
        k := j;
        if !(local(turn).expired && !Active(batch)) {
          var i := LoopPrefix(json, run.script, u, net, at + j, local, turn + 1, rest);
          k := j + i;
          assert ms[..k] == batch + rest[..i];
          HoldsMore(t, u, ForwardLoop(json, run.script, u, net, at + j, local, turn + 1).table, batch, rest[..i]);
          DispatchAppend(t, batch, rest[..i], net, at);
        }
      }
    }
  }

  /** The sockets hold exactly the data of these messages, session by session if none was lost locally. */
  ghost predicate Arrived(u: Table, ms: seq<Message>, local: nat -> Turn) {
    forall id: u64 ::
      Concat(u.Log(id)) == Payload(id, ms) && (LosesNothing(local) ==> u.Log(id) == Sent(id, ms, []))
  }

  lemma ArrivedWhen(u: Table, ms: seq<Message>, net: Network, local: nat -> Turn)
    requires Ordinary(ms) && Perfect(ms, net, 0) && Holds(EMPTY, u, ms)
    requires LosesNothing(local) ==> u == Dispatch(EMPTY, ms, net, 0).table
    ensures Arrived(u, ms, local)
  {
    hide Dispatch, Ordinary, Perfect, Total, Payload, Sent, Started, LosesNothing;
    forall id: u64
      ensures Concat(u.Log(id)) == Payload(id, ms) && (LosesNothing(local) ==> u.Log(id) == Sent(id, ms, []))
    {
      NothingYet(id);
      LogTotal(u, id);
      assert [] + Payload(id, ms) == Payload(id, ms);
      ReceivesSessions(EMPTY, ms, net, 0, id);
      assert [] + Sent(id, ms, []) == Sent(id, ms, []);
    }
  }

  lemma SessionPrefix(json: Json, script: seq<ReadEvent>, ms: seq<Message>, j: nat, net: Network, local: nat -> Turn)
    returns (k: nat)
    requires json.Lawful() && Sendable(json, ms) && j <= |ms| && Delivered(script) <= Wire(json, ms[j..])
    requires Ordinary(ms) && Perfect(ms, net, 0)
    ensures k <= |ms| && Arrived(ForwardSession(json, script, ms[..j], net, local).table, ms[..k], local)
  {
    hide Dispatch, ForwardLoop, Ordinary, Perfect, Sendable, Delivered, Wire, Holds, Started, Arrived, DropLocal;
    var first, rest := ms[..j], ms[j..];
    PerfectFrom(ms, net, 0, j);
    SendableFrom(json, ms, j);
    NothingYet(0);
    BatchHolds(EMPTY, {}, first, net, 0);
    DropNothing(EMPTY);
    var t := Dispatch(EMPTY, first, net, 0).table;
    var i := LoopPrefix(json, script, t, net, j, local, 0, rest);
    k := j + i;
    assert ms[..k] == first + rest[..i];
    var u := ForwardLoop(json, script, t, net, j, local, 0).table;
    HoldsMore(EMPTY, t, u, first, rest[..i]);
    DispatchAppend(EMPTY, first, rest[..i], net, 0);
    PerfectFrom(ms, net, 0, k);
    ArrivedWhen(u, ms[..k], net, local);
  }

  /**
   * Whatever becomes of the connection: the reads may cut, stall or break anywhere and end anywhere in
   * what was sent, the clock may run out, and local sockets may be lost. Then a session that starts has
   * written the data of the first `k` messages and nothing else; so every stream's sockets hold first
   * bytes of what was read for it, and all of it exactly when no data of the stream is behind these.
   */
  lemma AnyConnection(json: Json, box: CryptoBox, nonce: seq<byte>, m: Message, rounds: seq<Round>,
                      wire: seq<WriteEvent>, script: seq<ReadEvent>, net: Network, local: nat -> Turn) returns (k: nat)
    requires json.Lawful() && box.Lawful() && |nonce| == NONCE_LEN && ValidRun(map[], rounds)
    requires HEADER_LEN + |EncryptedBody(json, box, nonce, m)| < U32
    requires var ms, frame := RunMessages(map[], rounds), EncryptedFrame(json, box, nonce, m);
      Sendable(json, ms) && AllPushed(json, wire, ms) && Perfect(ms, net, 0) &&
      Delivered(script) <= frame + PushAll(json, wire, ms).0
    ensures var ms, start := RunMessages(map[], rounds), ReadStart(json, box, script, [], 0);
      start.outcome.Ok? ==>
      start.outcome.value != [] && start.outcome.value[0] == m && k <= |ms| &&
      var u := ForwardSession(json, start.script, start.outcome.value[1..], net, local).table;
      Arrived(u, ms[..k], local) &&
      forall id: u64 ::
        var read := Concat(ReadSessions(id, map[], rounds, []));
        Concat(u.Log(id)) <= read && (Concat(u.Log(id)) == read <==> Payload(id, ms[k..]) == [])
  {
    hide *;
    var ms, frame := RunMessages(map[], rounds), EncryptedFrame(json, box, nonce, m);
    PushedWire(json, wire, ms);
    RunOrdinary(map[], rounds);
    EncryptedNonEmpty(json, box, nonce, m);
    assert [] + Delivered(script) == Delivered(script);
    var j := StartPrefix(json, box, nonce, m, ms, script, [], 0);
    var start := ReadStart(json, box, script, [], 0);
    k := 0;
    if start.outcome.Ok? {
      assert ([m] + ms[..j])[1..] == ms[..j];
      k := SessionPrefix(json, start.script, ms, j, net, local);
      var u := ForwardSession(json, start.script, ms[..j], net, local).table;
      forall id: u64
        ensures var read := Concat(ReadSessions(id, map[], rounds, []));
          Concat(u.Log(id)) <= read && (Concat(u.Log(id)) == read <==> Payload(id, ms[k..]) == [])
      {
        SendsSessions(id, map[], rounds, []);
        ArrivedPart(u, ms, k, local, id);
      }
    }
  }

  lemma ArrivedPart(u: Table, ms: seq<Message>, k: nat, local: nat -> Turn, id: u64)
    requires k <= |ms| && Arrived(u, ms[..k], local)
    ensures var read := Concat(Sent(id, ms, []));
      Concat(u.Log(id)) <= read && (Concat(u.Log(id)) == read <==> Payload(id, ms[k..]) == [])
  {
    hide Payload, Concat, Sent;
    SentPayload(id, ms, []);
    assert ms == ms[..k] + ms[k..];
    PayloadAppend(id, ms[..k], ms[k..]);
    assert [] + Payload(id, ms) == Payload(id, ms);
  }

  // ------------------------------------------------------------------ the stop message

  ghost predicate HasStop(ms: seq<Message>) {
    exists i :: 0 <= i < |ms| && ms[i].ForwardingCloseMessage?
  }

  ghost predicate NoEmptyPayload(ms: seq<Message>) {
    forall i :: 0 <= i < |ms| && ms[i].ConnectionDataMessage? ==> ms[i].payload != []
  }

  lemma HandleStops(t: Table, m: Message, d: Delivery)
    requires m.ConnectionDataMessage? ==> m.payload != []
    ensures if m.ForwardingCloseMessage? then Handle(t, m, d) == Stopped(t.ShutDown()) else Handle(t, m, d).Going?
  {
    hide SpinWrite;
  }

  /** A batch stops exactly when it holds a stop message. */
  lemma {:induction false} DispatchStops(t: Table, ms: seq<Message>, net: Network, at: nat)
    requires NoEmptyPayload(ms)
    ensures if HasStop(ms) then Dispatch(t, ms, net, at).Stopped? else Dispatch(t, ms, net, at).Going?
    decreases |ms|
  {
    hide Handle;
    if ms != [] {
      HandleStops(t, ms[0], net(at));
      if !ms[0].ForwardingCloseMessage? {
        DispatchStops(Handle(t, ms[0], net(at)).table, ms[1..], net, at + 1);
        StopBehind(ms);
      }
    }
  }

  lemma StopBehind(ms: seq<Message>)
    requires ms != [] && !ms[0].ForwardingCloseMessage?
    ensures HasStop(ms) <==> HasStop(ms[1..])
  {
    if HasStop(ms) {
      var i :| 0 <= i < |ms| && ms[i].ForwardingCloseMessage?;
      assert ms[1..][i - 1] == ms[i];
    }
  }

  lemma StopSplit(a: seq<Message>, b: seq<Message>)
    ensures HasStop(a + b) <==> HasStop(a) || HasStop(b)
    ensures NoEmptyPayload(a + b) ==> NoEmptyPayload(a) && NoEmptyPayload(b)
  {
    if HasStop(a) {
      var i :| 0 <= i < |a| && a[i].ForwardingCloseMessage?;
      assert (a + b)[i] == a[i];
    }
    if HasStop(b) {
      var i :| 0 <= i < |b| && b[i].ForwardingCloseMessage?;
      assert (a + b)[|a| + i] == b[i];
    }
    assert forall i :: 0 <= i < |a| ==> (a + b)[i] == a[i];
    assert forall i :: 0 <= i < |b| ==> (a + b)[|a| + i] == b[i];
  }

  lemma {:induction false} LoopStops(json: Json, script: seq<ReadEvent>, t: Table, net: Network, at: nat,
                                     local: nat -> Turn, turn: nat, ms: seq<Message>)
    requires Session(json, script) == Ok(ms) && NeverExpires(local) && NoEmptyPayload(ms)
    ensures var d := ForwardLoop(json, script, t, net, at, local, turn); if HasStop(ms) then d.Stopped? else d.Going?
    decreases |script|
  {
    hide Dispatch, ReadInternal, DropLocal, HasStop, NoEmptyPayload;
    if script == [] {
      NoStop();
    } else {
      var run := ReadMessages(json, script);
      var batch := run.outcome.value;
      var rest := Session(json, run.script).value;
      StopSplit(batch, rest);
      var u := DropLocal(t, local(turn).lost);
      DispatchStops(u, batch, net, at);
      if !HasStop(batch) {
        LoopStops(json, run.script, Dispatch(u, batch, net, at).table, net, at + |batch|, local, turn + 1, rest);
      }
    }
  }

  lemma NoStop()
    ensures !HasStop([])
  {
  }

  /**
   * A stop message ends the session exactly when the loop reads it; one that came with the forward
   * message does not, because the verdict of that batch is dropped.
   */
  lemma StopEndsIff(json: Json, script: seq<ReadEvent>, first: seq<Message>, net: Network, local: nat -> Turn,
                    ms: seq<Message>)
    requires Session(json, script) == Ok(ms) && NeverExpires(local) && NoEmptyPayload(first) && NoEmptyPayload(ms)
    ensures var d := ForwardSession(json, script, first, net, local); if HasStop(ms) then d.Stopped? else d.Going?
  {
    hide Dispatch, ForwardLoop, Session;
    DispatchStops(EMPTY, first, net, 0);
    LoopStops(json, script, Dispatch(EMPTY, first, net, 0).table, net, |first|, local, 0, ms);
  }

  // ------------------------------------------------------------------ the clock

  /** The batches that the loop reads, one per turn. */
  function Batches(json: Json, script: seq<ReadEvent>): seq<seq<Message>>
    decreases |script|
  {
    if script == [] then []
    else
      var run := ReadMessages(json, script);
      if run.outcome.Ok? then [run.outcome.value] + Batches(json, run.script) else []
  }

  /** Turn `i` finds the last message too old, and its batch has no data and no close. */
  ghost predicate ClockStrikes(batch: seq<Message>, turn: Turn) {
    turn.expired &&
    forall i :: 0 <= i < |batch| ==> !batch[i].ConnectionDataMessage? && !batch[i].ConnectionCloseMessage?
  }

  lemma StrikesLater(first: seq<Message>, later: seq<seq<Message>>, local: nat -> Turn, turn: nat)
    ensures (exists i :: 0 <= i < |[first] + later| && ClockStrikes(([first] + later)[i], local(turn + i))) <==>
      ClockStrikes(first, local(turn)) ||
      exists i :: 0 <= i < |later| && ClockStrikes(later[i], local(turn + 1 + i))
  {
    hide ClockStrikes;
    var all := [first] + later;
    assert all[0] == first && turn + 0 == turn;
    if i :| 0 <= i < |all| && ClockStrikes(all[i], local(turn + i)) {
      if i > 0 {
        assert all[i] == later[i - 1] && turn + i == turn + 1 + (i - 1);
      }
    }
    if i :| 0 <= i < |later| && ClockStrikes(later[i], local(turn + 1 + i)) {
      assert all[i + 1] == later[i] && turn + (i + 1) == turn + 1 + i;
    }
  }

  /** A session whose messages are read without a failure or a stop is ended exactly by such a turn. */
  lemma {:induction false} ClockEndsIff(json: Json, script: seq<ReadEvent>, t: Table, net: Network, at: nat,
                                        local: nat -> Turn, turn: nat, ms: seq<Message>)
    requires Session(json, script) == Ok(ms) && NoEmptyPayload(ms) && !HasStop(ms)
    ensures var d, batches := ForwardLoop(json, script, t, net, at, local, turn), Batches(json, script);
      if exists i :: 0 <= i < |batches| && ClockStrikes(batches[i], local(turn + i)) then d.Ended? else d.Going?
    decreases |script|
  {
    hide Dispatch, ReadInternal, DropLocal, HasStop, NoEmptyPayload, ClockStrikes, Active;
    if script != [] {
      var run := ReadMessages(json, script);
      var batch := run.outcome.value;
      var rest := Session(json, run.script).value;
      StopSplit(batch, rest);
      var u := DropLocal(t, local(turn).lost);
      DispatchStops(u, batch, net, at);
      StrikesWhen(batch, local(turn));
      StrikesLater(batch, Batches(json, run.script), local, turn);
      ClockEndsIff(json, run.script, Dispatch(u, batch, net, at).table, net, at + |batch|, local, turn + 1, rest);
    }
  }

  lemma StrikesWhen(batch: seq<Message>, turn: Turn)
    ensures ClockStrikes(batch, turn) <==> turn.expired && !Active(batch)
  {
  }

  /** The socket of `id` in `t` has received nothing more: it is still there and down, or it is closed. */
  ghost predicate Silent(t: Table, u: Table, id: u64)
    requires id in t.open
  {
    (id in u.open && id in u.down && u.open[id] == t.open[id] && u.Closed(id) == t.Closed(id)) ||
    t.Closed(id) + [t.open[id]] <= u.Closed(id)
  }

  lemma HandleSilent(t: Table, u: Table, m: Message, d: Delivery, id: u64)
    requires id in t.open && Silent(t, u, id)
    ensures Silent(t, Handle(u, m, d).table, id)
  {
    hide SpinWrite;
  }

  lemma {:induction false} DispatchSilent(t: Table, u: Table, ms: seq<Message>, net: Network, at: nat, id: u64)
    requires id in t.open && Silent(t, u, id)
    ensures Silent(t, Dispatch(u, ms, net, at).table, id)
    decreases |ms|
  {
    hide Handle, Silent;
    if ms != [] {
      HandleSilent(t, u, ms[0], net(at), id);
      if Handle(u, ms[0], net(at)).Going? {
        DispatchSilent(t, Handle(u, ms[0], net(at)).table, ms[1..], net, at + 1, id);
      }
    }
  }

  lemma DropSilent(t: Table, u: Table, gone: set<u64>, id: u64)
    requires id in t.open && Silent(t, u, id)
    ensures Silent(t, DropLocal(u, gone), id)
  {
    assert u.Closed(id) + [] == u.Closed(id);
  }

  /** A socket that was shut down receives nothing more, whatever the rest of the session brings. */
  lemma {:induction false} ShutSocketIsSilent(json: Json, script: seq<ReadEvent>, t: Table, u: Table, net: Network,
                                              at: nat, local: nat -> Turn, turn: nat, id: u64)
    requires id in t.open && Silent(t, u, id)
    ensures Silent(t, ForwardLoop(json, script, u, net, at, local, turn).table, id)
    decreases |script|
  {
    hide Dispatch, ReadInternal, DropLocal, Silent, Active;
    if script != [] {
      var run := ReadMessages(json, script);
      if run.outcome.Ok? {
        var batch, v := run.outcome.value, DropLocal(u, local(turn).lost);
        DropSilent(t, u, local(turn).lost, id);
        DispatchSilent(t, v, batch, net, at, id);
        if Dispatch(v, batch, net, at).Going? {
          ShutSocketIsSilent(json, run.script, t, Dispatch(v, batch, net, at).table, net, at + |batch|, local,
                             turn + 1, id);
        }
      }
    }
  }

  /**
   * What a stop among the first messages does: those behind it are dropped, every socket opened so far
   * and the server connection are shut down, and the loop runs on, but these sockets receive nothing more.
   */
  lemma FirstStop(json: Json, script: seq<ReadEvent>, first: seq<Message>, i: nat, net: Network, local: nat -> Turn)
    requires i < |first| && first[i].ForwardingCloseMessage? && !HasStop(first[..i]) && NoEmptyPayload(first[..i])
    ensures Dispatch(EMPTY, first[..i], net, 0).Going?
    ensures ForwardSession(json, script, first, net, local) ==
      ForwardLoop(json, script, Dispatch(EMPTY, first[..i], net, 0).table.ShutDown(), net, |first|, local, 0)
    ensures var t := Dispatch(EMPTY, first[..i], net, 0).table;
      forall id :: id in t.open ==> Silent(t, ForwardSession(json, script, first, net, local).table, id)
  {
    hide ForwardLoop;
    DispatchStops(EMPTY, first[..i], net, 0);
    assert first == first[..i] + first[i..];
    DispatchAppend(EMPTY, first[..i], first[i..], net, 0);
    var t := Dispatch(EMPTY, first[..i], net, 0).table;
    forall id | id in t.open ensures Silent(t, ForwardSession(json, script, first, net, local).table, id) {
      ShutSocketIsSilent(json, script, t, t.ShutDown(), net, |first|, local, 0, id);
    }
  }
}
