/** The registration server, the chain and other servers together, over every interleaving of their steps. */
module RegistrationRuns {
  import opened Bytes
  import opened Identities
  import opened Abi
  import opened Registration

  /** Where the batch loop is. */
  datatype Phase =
    | Idle
    | Listed(list: seq<Identity>)
    | Read(list: seq<Identity>, known: set<Identity>)
    | Submitted(batch: seq<Identity>)
    | Removing(todo: seq<Identity>)

  /** A request between reading the number of texts sent and its end. */
  datatype Flight = Flight(request: SmsRequest, count: nat)

  /** `late` holds batches whose submission reported an error and that may still be mined. */
  datatype System = System(tables: Tables, requests: seq<Flight>, contract: set<Identity>, phase: Phase,
                           late: set<seq<Identity>>)

  datatype Step =
    | SmsBegins(request: SmsRequest)
    | SmsEnds(index: nat)
    | TakeList(list: seq<Identity>)
    | ReadContract
    | ReadFails
    | Submit
    | Mined
    | MinedLate(batch: seq<Identity>)
    | ReportsOk
    | ReportsError
    | LoopPanics
    | RemoveOne
    | OtherServer(added: set<Identity>)

  function Without(requests: seq<Flight>, i: nat): seq<Flight>
    requires i < |requests|
  {
    requests[..i] + requests[i + 1..]
  }

  /** The tables after the end of the request with this index. */
  function AfterEnd(s: System, i: nat): Tables
    requires i < |s.requests|
  {
    AfterSms(s.tables, s.requests[i].request, s.requests[i].count)
  }

  /** What reading the contract gives: the decoder drops the clients with a zero mesh address. */
  ghost function Snapshot(contract: set<Identity>): set<Identity> {
    set id | id in contract && NonZero(id)
  }

  lemma {:induction false} VisibleElements(ids: seq<Identity>)
    ensures Elements(Visible(ids)) == Snapshot(Elements(ids))
  {
    if ids != [] {
      var n := |ids| - 1;
      VisibleElements(ids[..n]);
      ElementsStep(ids, n);
      assert ids[..n + 1] == ids;
      var last := if NonZero(ids[n]) then [ids[n]] else [];
      assert Elements(Visible(ids[..n]) + last) == Elements(Visible(ids[..n])) + Elements(last);
    }
  }

  /** For every order in which the contract lists its clients, decoding the answer gives that snapshot. */
  lemma SnapshotIsDecoded(ids: seq<Identity>)
    requires |ids| < U64 && AllStorable(ids)
    ensures var r := ParseArray(ToWords(EncodeIdentities(ids))); r.Ok? && Elements(r.value) == Snapshot(Elements(ids))
  {
    StoredDecode(ids);
    VisibleElements(ids);
  }

  ghost predicate Next(s: System, step: Step, t: System) {
    match step
    case SmsBegins(r) =>
      t == s.(requests := s.requests + [Flight(r, s.tables.TextsSent(r.client.wgPublicKey))])
    case SmsEnds(i) =>
      i < |s.requests| && t == s.(tables := AfterEnd(s, i), requests := Without(s.requests, i))
    case TakeList(list) =>
      s.phase.Idle? && Enumerates(list, s.tables.queue) && t == s.(phase := if list == [] then Idle else Listed(list))
    case ReadContract => s.phase.Listed? && t == s.(phase := Read(s.phase.list, Snapshot(s.contract)))
    case ReadFails => s.phase.Listed? && t == s.(phase := Idle)
    // a batch that cannot be encoded is not sent
    case Submit =>
      s.phase.Read? &&
      var batch := Batch(s.phase.list, s.phase.known);
      t == s.(phase := if batch == [] || !AllV6(batch) then Idle else Submitted(batch))
    case Mined => s.phase.Submitted? && t == s.(contract := s.contract + Elements(s.phase.batch))
    case MinedLate(batch) => batch in s.late && t == s.(contract := s.contract + Elements(batch))
    // a receipt that reports success means the batch is on chain
    case ReportsOk =>
      s.phase.Submitted? && Elements(s.phase.batch) <= s.contract && t == s.(phase := Removing(s.phase.batch))
    case ReportsError => s.phase.Submitted? && t == s.(phase := Idle, late := s.late + {s.phase.batch})
    // the thread of the loop panics and is started again
    case LoopPanics =>
      t == s.(phase := Idle, late := s.late + (if s.phase.Submitted? then {s.phase.batch} else {}))
    case RemoveOne =>
      s.phase.Removing? &&
      (if s.phase.todo == [] then t == s.(phase := Idle)
       else t == s.(phase := Removing(s.phase.todo[1..]),
                    tables := s.tables.(queue := s.tables.queue - {s.phase.todo[0].Key()})))
    // other servers run the same code, so what they add could be encoded
    case OtherServer(added) => (forall id :: id in added ==> id.meshIp.V6?) && t == s.(contract := s.contract + added)
  }

  /** What every reachable state keeps. */
  ghost predicate Invariant(s: System) {
    Keys(s.tables.queue) && (forall id :: id in s.contract ==> id.meshIp.V6?) &&
    (forall b :: b in s.late ==> AllV6(b)) &&
    match s.phase
    case Idle => true
    case Listed(list) => Keys(Elements(list)) && Distinct(list)
    case Read(list, known) => Keys(Elements(list)) && Distinct(list) && known <= s.contract
    case Submitted(batch) =>
      Keys(Elements(batch)) && Distinct(batch) && 1 <= |batch| <= MAX_BATCH_SIZE + 1 && AllV6(batch)
    case Removing(todo) => Keys(Elements(todo)) && Elements(todo) <= s.contract
  }

  lemma ElementsV6(batch: seq<Identity>)
    requires AllV6(batch)
    ensures forall id :: id in Elements(batch) ==> id.meshIp.V6?
  {
  }

  lemma InvariantStep(s: System, step: Step, t: System)
    requires Invariant(s) && Next(s, step, t)
    ensures Invariant(t)
  {
    if step.Submit? {
      BatchShape(s.phase.list, s.phase.known);
    } else if step.RemoveOne? && s.phase.todo != [] {
      assert Elements(s.phase.todo[1..]) <= Elements(s.phase.todo);
    } else if step.Mined? {
      ElementsV6(s.phase.batch);
    } else if step.MinedLate? {
      ElementsV6(step.batch);
    }
  }

  /** No step takes a client out of both the queue and the contract. */
  lemma NoStepLoses(s: System, step: Step, t: System, id: Identity)
    requires Invariant(s) && Next(s, step, t) && id in s.tables.queue + s.contract
    ensures id in t.tables.queue + t.contract
  {
    if step.RemoveOne? && s.phase.todo != [] {
      assert s.phase.todo[0] in Elements(s.phase.todo);
    }
  }

  /** A run: the states, and the step between each two. */
  ghost predicate Run(states: seq<System>, steps: seq<Step>) {
    |states| == |steps| + 1 && forall i :: 0 <= i < |steps| ==> Next(states[i], steps[i], states[i + 1])
  }

  lemma {:induction false} RunInvariant(states: seq<System>, steps: seq<Step>, k: nat)
    requires Run(states, steps) && Invariant(states[0]) && k < |states|
    ensures Invariant(states[k])
  {
    if k > 0 {
      RunInvariant(states, steps, k - 1);
      assert Next(states[k - 1], steps[k - 1], states[k - 1 + 1]);
      InvariantStep(states[k - 1], steps[k - 1], states[k]);
    }
  }

  // ------------------------------------------------------------------ confirmed clients

  /** The request that ends in this step is answered with a confirmation. */
  predicate Confirms(s: System, step: Step) {
    step.SmsEnds? && step.index < |s.requests| && Accepted(s.requests[step.index].request)
  }

  function Client(s: System, step: Step): Identity
    requires Confirms(s, step)
  {
    s.requests[step.index].request.client.Key()
  }

  lemma ConfirmationQueues(s: System, step: Step, t: System)
    requires Next(s, step, t) && Confirms(s, step)
    ensures Client(s, step) in t.tables.queue
  {
  }

  /**
   * No confirmed client is lost: once a request was answered with a confirmation, every later state of
   * every run has the client in the queue or in the contract, whatever the loop, the chain, late
   * transactions, failed reads, panics, other requests and other servers do in between.
   */
  lemma {:induction false} ConfirmedIsNeverLost(states: seq<System>, steps: seq<Step>, k: nat, n: nat)
    requires Run(states, steps) && Invariant(states[0]) && k < |steps| && k < n < |states|
    requires Confirms(states[k], steps[k])
    ensures Client(states[k], steps[k]) in states[n].tables.queue + states[n].contract
    decreases n
  {
    hide Next, Invariant, Accepted;
    if n == k + 1 {
      ConfirmationQueues(states[k], steps[k], states[k + 1]);
    } else {
      ConfirmedIsNeverLost(states, steps, k, n - 1);
      RunInvariant(states, steps, n - 1);
      assert Next(states[n - 1], steps[n - 1], states[n - 1 + 1]);
      NoStepLoses(states[n - 1], steps[n - 1], states[n], Client(states[k], steps[k]));
    }
  }

  /** In every reachable state what is submitted is new to the snapshot, duplicate free and of size 1 to 76. */
  lemma SubmittedShape(states: seq<System>, steps: seq<Step>, k: nat)
    requires Run(states, steps) && Invariant(states[0]) && k < |steps|
    requires steps[k].Submit? && states[k + 1].phase.Submitted?
    ensures var b := states[k + 1].phase.batch;
      1 <= |b| <= MAX_BATCH_SIZE + 1 && |Elements(b)| == |b| && Elements(b) !! states[k].phase.known &&
      Elements(b) <= Elements(states[k].phase.list)
  {
    RunInvariant(states, steps, k);
    assert Next(states[k], steps[k], states[k + 1]);
    BatchShape(states[k].phase.list, states[k].phase.known);
  }

  // ------------------------------------------------------------------ clients with an IPv4 address

  lemma OldClientStep(s: System, step: Step, t: System, id: Identity)
    requires Invariant(s) && Next(s, step, t) && id in s.tables.queue && id.meshIp.V4?
    ensures id in t.tables.queue
  {
    if step.RemoveOne? && s.phase.todo != [] {
      assert s.phase.todo[0] in Elements(s.phase.todo);
    }
  }

  /** Over every run a queued client with an IPv4 address stays queued and never reaches the contract. */
  lemma {:induction false} OldClientIsStuck(states: seq<System>, steps: seq<Step>, k: nat, n: nat, id: Identity)
    requires Run(states, steps) && Invariant(states[0]) && k <= n < |states|
    requires id in states[k].tables.queue && id.meshIp.V4?
    ensures id in states[n].tables.queue && id !in states[n].contract
    decreases n
  {
    hide Next;
    RunInvariant(states, steps, n);
    if n > k {
      OldClientIsStuck(states, steps, k, n - 1, id);
      RunInvariant(states, steps, n - 1);
      assert Next(states[n - 1], steps[n - 1], states[n - 1 + 1]);
      OldClientStep(states[n - 1], steps[n - 1], states[n], id);
    }
  }

  /** The loop is not sending, and has the client in the list it works on. */
  ghost predicate Blocked(s: System, id: Identity) {
    id in s.tables.queue &&
    match s.phase
    case Idle => true
    case Listed(list) => id in list
    case Read(list, _) => id in list
    case _ => false
  }

  /** At most 76 clients of the list are missing from the snapshot. */
  ghost predicate FewMissing(s: System) {
    s.phase.Read? ==> |Elements(s.phase.list) - s.phase.known| <= MAX_BATCH_SIZE + 1
  }

  lemma BlockedStep(s: System, step: Step, t: System, id: Identity)
    requires Invariant(s) && Next(s, step, t) && Blocked(s, id) && id.meshIp.V4? && FewMissing(s)
    ensures Blocked(t, id)
  {
    OldClientStep(s, step, t, id);
    if step.TakeList? {
      assert id in Elements(step.list);
    } else if step.Submit? {
      PickedWhenFew(s.phase.list, s.phase.known, id);
      var batch := Batch(s.phase.list, s.phase.known);
      var i :| 0 <= i < |batch| && batch[i] == id;
      assert !batch[i].meshIp.V6?;
    }
  }

  /** While at most 76 clients are missing, one client with an IPv4 address stops every batch. */
  lemma {:induction false} OneBlocksAll(states: seq<System>, steps: seq<Step>, n: nat, id: Identity)
    requires Run(states, steps) && Invariant(states[0]) && n < |states|
    requires Blocked(states[0], id) && id.meshIp.V4?
    requires forall i :: 0 <= i < |states| ==> FewMissing(states[i])
    ensures Blocked(states[n], id) && !states[n].phase.Submitted? && !states[n].phase.Removing?
  {
    hide Next, Invariant;
    if n > 0 {
      OneBlocksAll(states, steps, n - 1, id);
      RunInvariant(states, steps, n - 1);
      assert Next(states[n - 1], steps[n - 1], states[n - 1 + 1]);
      BlockedStep(states[n - 1], steps[n - 1], states[n], id);
    }
  }

  // ------------------------------------------------------------------ rounds of the loop as runs

  ghost predicate Reachable(s: System, t: System) {
    exists states, steps :: Run(states, steps) && states[0] == s && states[|steps|] == t
  }

  lemma ReachSelf(s: System)
    ensures Reachable(s, s)
  {
    assert Run([s], []) && [s][0] == s;
  }

  lemma ReachStep(s: System, t: System, step: Step, u: System)
    requires Reachable(s, t) && Next(t, step, u)
    ensures Reachable(s, u)
  {
    hide Next;
    var states, steps :| Run(states, steps) && states[0] == s && states[|steps|] == t;
    var more, then' := states + [u], steps + [step];
    forall i | 0 <= i < |then'| ensures Next(more[i], then'[i], more[i + 1]) {
      if i < |steps| {
        assert Next(states[i], steps[i], states[i + 1]);
      }
    }
    assert Run(more, then') && more[0] == s && more[|then'|] == u;
  }

  lemma {:induction false} ReachPrefix(s: System, states: seq<System>, steps: seq<Step>, k: nat)
    requires Run(states, steps) && k < |states| && Reachable(s, states[0])
    ensures Reachable(s, states[k])
  {
    hide Next, Reachable;
    if k > 0 {
      ReachPrefix(s, states, steps, k - 1);
      assert Next(states[k - 1], steps[k - 1], states[k - 1 + 1]);
      ReachStep(s, states[k - 1], steps[k - 1], states[k]);
    }
  }

  lemma ReachTrans(s: System, t: System, u: System)
    requires Reachable(s, t) && Reachable(t, u)
    ensures Reachable(s, u)
  {
    hide Next;
    var states, steps :| Run(states, steps) && states[0] == t && states[|steps|] == u;
    ReachPrefix(s, states, steps, |steps|);
  }

  lemma ReachInvariant(s: System, t: System)
    requires Invariant(s) && Reachable(s, t)
    ensures Invariant(t)
  {
    hide Next, Invariant;
    var states, steps :| Run(states, steps) && states[0] == s && states[|steps|] == t;
    RunInvariant(states, steps, |steps|);
  }

  function Dequeued(s: System, gone: set<Identity>): System {
    s.(phase := Idle, tables := s.tables.(queue := s.tables.queue - gone))
  }

  /** The removing loop takes out the whole batch. */
  lemma {:induction false} ReachRemoved(s: System, t: System)
    requires Reachable(s, t) && t.phase.Removing? && Keys(Elements(t.phase.todo))
    ensures Reachable(s, Dequeued(t, Elements(t.phase.todo)))
    decreases |t.phase.todo|
  {
    var todo := t.phase.todo;
    if todo == [] {
      assert t.tables.queue - Elements(todo) == t.tables.queue;
      ReachStep(s, t, RemoveOne, t.(phase := Idle));
    } else {
      assert todo[0] in Elements(todo);
      var u := t.(phase := Removing(todo[1..]), tables := t.tables.(queue := t.tables.queue - {todo[0]}));
      ReachStep(s, t, RemoveOne, u);
      assert Elements(todo) == {todo[0]} + Elements(todo[1..]) by {
        assert todo == [todo[0]] + todo[1..];
      }
      ReachRemoved(s, u);
      assert u.tables.queue - Elements(todo[1..]) == t.tables.queue - Elements(todo);
    }
  }

  /** Once submitted, a batch can be mined, reported and taken out. */
  lemma ReachRegistered(s: System, t: System)
    requires Reachable(s, t) && t.phase.Submitted? && Keys(Elements(t.phase.batch))
    ensures var batch := Elements(t.phase.batch);
      Reachable(s, Dequeued(t.(contract := t.contract + batch), batch))
  {
    var batch := t.phase.batch;
    var mined := t.(contract := t.contract + Elements(batch));
    ReachStep(s, t, Mined, mined);
    ReachStep(s, mined, ReportsOk, mined.(phase := Removing(batch)));
    ReachRemoved(s, mined.(phase := Removing(batch)));
  }

  /** The state after a round in which nothing else happens: which reads and transactions work is given. */
  ghost function AfterRound(s: System, list: seq<Identity>, readOk: bool, reported: bool): System {
    if list == [] || !readOk then s
    else
      var batch := Batch(list, Snapshot(s.contract));
      if batch == [] || !AllV6(batch) then s
      else if !reported then s.(late := s.late + {batch})
      else Dequeued(s.(contract := s.contract + Elements(batch)), Elements(batch))
  }

  lemma BatchKeys(s: System, list: seq<Identity>)
    requires Invariant(s) && Enumerates(list, s.tables.queue)
    ensures var batch := Batch(list, Snapshot(s.contract));
      Keys(Elements(batch)) && Elements(batch) == (set x | x in batch) && (list == [] ==> batch == [])
  {
    BatchWithin(list, Snapshot(s.contract));
  }

  /**
   * An undisturbed round is a run of the system, and the queue it leaves is the one that the imperative
   * round leaves on the same answers.
   */
  lemma RoundIsRun(s: System, list: seq<Identity>, readOk: bool, reported: bool)
    requires Invariant(s) && s.phase.Idle? && Enumerates(list, s.tables.queue)
    ensures var t := AfterRound(s, list, readOk, reported);
      Reachable(s, t) && t.phase.Idle? &&
      t.tables.queue ==
      s.tables.queue - Registered(list, if readOk then Some(Snapshot(s.contract)) else None, reported)
  {
    hide Reachable, Invariant, Enumerates, Keys, Distinct;
    ReachSelf(s);
    var batch := Batch(list, Snapshot(s.contract));
    BatchKeys(s, list);
    if list != [] {
      hide Batch, Elements, Snapshot;
      var listed, read := s.(phase := Listed(list)), s.(phase := Read(list, Snapshot(s.contract)));
      ReachStep(s, s, TakeList(list), listed);
      if !readOk {
        ReachStep(s, listed, ReadFails, s);
      } else {
        ReachStep(s, listed, ReadContract, read);
        if batch == [] || !AllV6(batch) {
          ReachStep(s, read, Submit, s);
        } else {
          var sent := s.(phase := Submitted(batch));
          ReachStep(s, read, Submit, sent);
          ReachStep(s, sent, ReportsError, s.(late := s.late + {batch}));
          ReachRegistered(s, sent);
        }
      }
    }
  }

  /** A round that meets no failure. */
  ghost function GoodRound(s: System, list: seq<Identity>): System { AfterRound(s, list, true, true) }

  /** The queued clients that are not on chain. */
  ghost function Missing(s: System): set<Identity> { s.tables.queue - s.contract }

  /** The queued clients that the loop takes for missing: also those that the decoder does not see. */
  ghost function Candidates(s: System): set<Identity> { s.tables.queue - Snapshot(s.contract) }

  ghost predicate HasOldClient(s: System) { exists id :: id in s.tables.queue && id.meshIp.V4? }

  lemma Moved(queue: set<Identity>, contract: set<Identity>, batch: set<Identity>)
    requires batch <= queue - Snapshot(contract)
    ensures queue - batch - Snapshot(contract + batch) == queue - Snapshot(contract) - batch
    ensures queue - batch + (contract + batch) == queue + contract
  {
  }

  lemma SubsetSize(a: set<Identity>, b: set<Identity>)
    requires b <= a
    ensures |a - b| == |a| - |b|
  {
    assert a == b + (a - b);
  }

  /**
   * Each good round takes min(76, rest) of the candidates out of the queue and onto the chain, in any
   * queue order, unless the batch holds a client with an IPv4 address: then it changes nothing.
   */
  lemma RoundShrinks(s: System, list: seq<Identity>)
    requires Invariant(s) && s.phase.Idle? && Enumerates(list, s.tables.queue)
    ensures var t := GoodRound(s, list); var rest := |Candidates(s)|;
      |Candidates(t)| ==
      (if AllV6(Batch(list, Snapshot(s.contract))) then rest - Min(MAX_BATCH_SIZE + 1, rest) else rest) &&
      t.tables.queue + t.contract == s.tables.queue + s.contract && Invariant(t) && t.phase.Idle?
  {
    hide Invariant, Batch, Reachable, Distinct, Snapshot;
    BatchShape(list, Snapshot(s.contract));
    RoundIsRun(s, list, true, true);
    var batch := Batch(list, Snapshot(s.contract));
    var t := GoodRound(s, list);
    ReachInvariant(s, t);
    assert Elements(list) - Snapshot(s.contract) == Candidates(s);
    if batch != [] && AllV6(batch) {
      assert list != [] by {
        assert batch[0] in Elements(batch);
      }
      Moved(s.tables.queue, s.contract, Elements(batch));
      SubsetSize(Candidates(s), Elements(batch));
    }
  }

  /** The states of a series of good rounds, `lists[i]` being the order of the queue in round `i`. */
  ghost predicate GoodRounds(states: seq<System>, lists: seq<seq<Identity>>) {
    |states| == |lists| + 1 && forall i :: 0 <= i < |lists| ==> RoundAt(states, lists, i)
  }

  ghost predicate RoundAt(states: seq<System>, lists: seq<seq<Identity>>, i: nat)
    requires i < |lists| && |states| == |lists| + 1
  {
    Enumerates(lists[i], states[i].tables.queue) && states[i + 1] == GoodRound(states[i], lists[i])
  }

  lemma FirstRound(states: seq<System>, lists: seq<seq<Identity>>)
    requires GoodRounds(states, lists) && lists != []
    ensures Enumerates(lists[0], states[0].tables.queue) && states[1] == GoodRound(states[0], lists[0])
    ensures GoodRounds(states[1..], lists[1..])
  {
    hide RoundAt;
    assert RoundAt(states, lists, 0);
    forall i | 0 <= i < |lists[1..]| ensures RoundAt(states[1..], lists[1..], i) {
      RoundLater(states, lists, i);
    }
    RoundIs(states, lists, 0);
  }

  lemma RoundIs(states: seq<System>, lists: seq<seq<Identity>>, i: nat)
    requires i < |lists| && |states| == |lists| + 1 && RoundAt(states, lists, i)
    ensures Enumerates(lists[i], states[i].tables.queue) && states[i + 1] == GoodRound(states[i], lists[i])
  {
  }

  lemma RoundLater(states: seq<System>, lists: seq<seq<Identity>>, i: nat)
    requires i + 1 < |lists| && |states| == |lists| + 1 && RoundAt(states, lists, i + 1)
    ensures RoundAt(states[1..], lists[1..], i)
  {
  }

  lemma NewBatch(s: System, list: seq<Identity>)
    requires Enumerates(list, s.tables.queue) && !HasOldClient(s)
    ensures AllV6(Batch(list, Snapshot(s.contract)))
  {
    BatchWithin(list, Snapshot(s.contract));
  }

  /** A good round neither brings in nor removes a client with an IPv4 address. */
  lemma RoundKeepsOldClients(s: System, list: seq<Identity>)
    requires Invariant(s) && Enumerates(list, s.tables.queue)
    ensures HasOldClient(GoodRound(s, list)) <==> HasOldClient(s)
  {
    var batch := Batch(list, Snapshot(s.contract));
    if AllV6(batch) {
      ElementsV6(batch);
    }
  }

  /**
   * Enough good rounds register everyone, and leave in the queue only clients that the decoder sees on
   * chain, exactly when the queue holds no client with an IPv4 address. Nobody disappears, and the rounds
   * are a run of the system.
   */
  lemma {:induction false} AllRegistered(states: seq<System>, lists: seq<seq<Identity>>)
    requires GoodRounds(states, lists) && Invariant(states[0]) && states[0].phase.Idle?
    requires |Candidates(states[0])| <= 76 * |lists|
    ensures var s, t := states[0], states[|lists|];
      Reachable(s, t) &&
      (Missing(t) == {} <==> !HasOldClient(s)) && (Candidates(t) == {} <==> !HasOldClient(s)) &&
      t.tables.queue + t.contract == s.tables.queue + s.contract
    decreases |lists|
  {
    hide Invariant, GoodRound, Missing, Candidates, HasOldClient, Reachable, RoundAt, Enumerates;
    MissingAreCandidates(states[|lists|]);
    OldClientsKept(states, lists);
    if lists == [] {
      NoneMissing(states[0]);
    } else {
      FirstRound(states, lists);
      RoundShrinks(states[0], lists[0]);
      RoundKeepsOldClients(states[0], lists[0]);
      if !HasOldClient(states[0]) {
        NewBatch(states[0], lists[0]);
        assert |Candidates(states[1])| <= 76 * |lists[1..]|;
        AllRegistered(states[1..], lists[1..]);
      }
    }
  }

  lemma NoneMissing(s: System)
    ensures |Candidates(s)| <= 0 ==> Candidates(s) == {}
  {
  }

  lemma MissingAreCandidates(s: System)
    ensures Missing(s) <= Candidates(s)
  {
  }

  lemma {:induction false} OldClientsKept(states: seq<System>, lists: seq<seq<Identity>>)
    requires GoodRounds(states, lists) && Invariant(states[0]) && states[0].phase.Idle?
    ensures var s, t := states[0], states[|lists|];
      Reachable(s, t) && (HasOldClient(s) ==> Missing(t) != {}) &&
      t.tables.queue + t.contract == s.tables.queue + s.contract
    decreases |lists|
  {
    hide Invariant, GoodRound, Reachable, RoundAt, Enumerates;
    var s := states[0];
    if lists == [] {
      ReachSelf(s);
      if HasOldClient(s) {
        var id :| id in s.tables.queue && id.meshIp.V4?;
        NotOnChain(s, id);
        assert id in Missing(s);
      }
    } else {
      hide HasOldClient, Missing;
      FirstRound(states, lists);
      RoundShrinks(s, lists[0]);
      RoundKeepsOldClients(s, lists[0]);
      GoodRoundIsRun(s, lists[0]);
      OldClientsKept(states[1..], lists[1..]);
      ReachTrans(s, states[1], states[|lists|]);
    }
  }

  lemma NotOnChain(s: System, id: Identity)
    requires Invariant(s) && id.meshIp.V4?
    ensures id !in s.contract
  {
  }

  lemma GoodRoundIsRun(s: System, list: seq<Identity>)
    requires Invariant(s) && s.phase.Idle? && Enumerates(list, s.tables.queue)
    ensures Reachable(s, GoodRound(s, list))
  {
    hide Reachable, Invariant, Enumerates, AfterRound;
    RoundIsRun(s, list, true, true);
  }

  // ------------------------------------------------------------------ clients that are queued and on chain

  /** The batch that the loop is about to send, sends or takes out holds the client. */
  ghost predicate Doomed(s: System, id: Identity) {
    match s.phase
    case Read(list, known) => id in Batch(list, known) && AllV6(Batch(list, known))
    case Submitted(batch) => id in batch
    case Removing(todo) => id in todo
    case _ => false
  }

  lemma SafeStep(s: System, step: Step, t: System, id: Identity)
    requires Invariant(s) && Next(s, step, t) && NonZero(id)
    requires id in s.tables.queue && id in s.contract && !Doomed(s, id)
    ensures id in t.tables.queue && id in t.contract && !Doomed(t, id)
  {
    if step.ReadContract? {
      BatchWithin(s.phase.list, Snapshot(s.contract));
    }
  }

  lemma {:induction false} SafeRun(states: seq<System>, steps: seq<Step>, n: nat, id: Identity)
    requires Run(states, steps) && Invariant(states[0]) && n < |states| && NonZero(id)
    requires id in states[0].tables.queue && id in states[0].contract && !Doomed(states[0], id)
    ensures id in states[n].tables.queue && id in states[n].contract && !Doomed(states[n], id)
  {
    hide Next, Invariant, Doomed;
    if n > 0 {
      SafeRun(states, steps, n - 1, id);
      RunInvariant(states, steps, n - 1);
      assert Next(states[n - 1], steps[n - 1], states[n - 1 + 1]);
      SafeStep(states[n - 1], steps[n - 1], states[n], id);
    }
  }

  lemma DoomedLeaves(s: System, id: Identity) returns (t: System)
    requires Invariant(s) && Doomed(s, id)
    ensures Reachable(s, t) && id !in t.tables.queue
  {
    ReachSelf(s);
    match s.phase
    case Removing(todo) =>
      ReachRemoved(s, s);
      t := Dequeued(s, Elements(todo));
    case Submitted(batch) =>
      ReachRegistered(s, s);
      t := Dequeued(s.(contract := s.contract + Elements(batch)), Elements(batch));
    case Read(list, known) =>
      var batch := Batch(list, known);
      BatchShape(list, known);
      var u := s.(phase := Submitted(batch));
      ReachStep(s, s, Submit, u);
      ReachRegistered(s, u);
      t := Dequeued(u.(contract := u.contract + Elements(batch)), Elements(batch));
  }

  lemma {:induction false} FreshClient(others: set<Identity>) returns (id: Identity)
    ensures id.meshIp == V6(1) && id.nickname == None
    ensures forall x :: x in others ==> |x.wgPublicKey| < |id.wgPublicKey|
  {
    if others == {} {
      id := Identity(V6(1), [], [], None);
    } else {
      var x :| x in others;
      id := FreshClient(others - {x});
      if |id.wgPublicKey| <= |x.wgPublicKey| {
        id := Identity(V6(1), [], x.wgPublicKey + [0], None);
      }
    }
  }

  /** A confirmation by the magic number, uninterrupted. */
  lemma ReachConfirmed(s: System, t: System, id: Identity) returns (u: System)
    requires Reachable(s, t) && id.nickname == None
    ensures Reachable(s, u) && u.phase == t.phase && u.contract == t.contract
    ensures u.tables.queue == t.tables.queue + {id}
  {
    var r := SmsRequest(id, Some("1"), true, Some("1"), true, Ok(true), Ok(()), false);
    var begun := t.(requests := t.requests + [Flight(r, t.tables.TextsSent(id.wgPublicKey))]);
    ReachStep(s, t, SmsBegins(r), begun);
    var i := |t.requests|;
    u := begun.(tables := AfterEnd(begun, i), requests := Without(begun.requests, i));
    ReachStep(s, begun, SmsEnds(i), u);
  }

  /** New clients confirm while the loop is idle. */
  lemma {:induction false} ReachCrowd(s: System, t: System, k: nat) returns (u: System, crowd: set<Identity>)
    requires Reachable(s, t) && t.phase.Idle?
    ensures Reachable(s, u) && u.phase.Idle? && u.contract == t.contract && u.tables.queue == t.tables.queue + crowd
    ensures |crowd| == k && crowd !! t.tables.queue + t.contract && forall id :: id in crowd ==> id.meshIp.V6?
  {
    hide Next, Reachable;
    if k == 0 {
      u, crowd := t, {};
    } else {
      u, crowd := ReachCrowd(s, t, k - 1);
      var id := FreshClient(t.tables.queue + t.contract + crowd);
      u := ReachConfirmed(s, u, id);
      crowd := crowd + {id};
    }
  }

  /** A client on chain that the decoder does not see can be picked again from every state. */
  lemma ZeroLeaves(s: System, id: Identity) returns (t: System)
    requires Invariant(s) && id in s.tables.queue && id in s.contract && !NonZero(id)
    ensures Reachable(s, t) && id !in t.tables.queue
  {
    ReachSelf(s);
    var idle := s.(phase := Idle, late := s.late + (if s.phase.Submitted? then {s.phase.batch} else {}));
    ReachStep(s, s, LoopPanics, idle);
    var crowded, crowd := ReachCrowd(s, idle, MAX_BATCH_SIZE);
    ReachInvariant(s, crowded);
    t := Picked(s, crowded, crowd + {id});
  }

  /** Any 76 candidates with IPv6 addresses can be the next batch. */
  lemma Picked(s: System, t: System, batch: set<Identity>) returns (u: System)
    requires Reachable(s, t) && Invariant(t) && t.phase.Idle?
    requires batch <= Candidates(t) && |batch| == MAX_BATCH_SIZE + 1 && forall id :: id in batch ==> id.meshIp.V6?
    ensures Reachable(s, u) && u.tables.queue == t.tables.queue - batch
  {
    hide Reachable, Invariant, Snapshot;
    SubsetSize(Candidates(t), batch);
    var list := BatchOf(t.tables.queue, Snapshot(t.contract), batch);
    AllInSet(Batch(list, Snapshot(t.contract)), batch);
    RoundIsRun(t, list, true, true);
    u := AfterRound(t, list, true, true);
    ReachTrans(s, t, u);
  }

  lemma AllInSet(list: seq<Identity>, all: set<Identity>)
    requires Elements(list) == all && forall id :: id in all ==> id.meshIp.V6?
    ensures AllV6(list) && (set x | x in list) == all
  {
    forall i | 0 <= i < |list| ensures list[i].meshIp.V6? {
      assert list[i] in Elements(list);
    }
  }

  /**
   * A client that is queued although it is on chain stays queued in every later state of every run
   * exactly when the decoder sees it, its mesh address not being zero, and the loop has not already
   * picked it: then it is in the batch that is being sent or taken out, or was missing from the snapshot
   * from which the next batch is built.
   */
  lemma StaysQueuedIff(s: System, id: Identity)
    requires Invariant(s) && id in s.tables.queue && id in s.contract
    ensures (forall t :: Reachable(s, t) ==> id in t.tables.queue) <==> NonZero(id) && !Doomed(s, id)
  {
    hide Invariant, Doomed;
    if Doomed(s, id) {
      var t := DoomedLeaves(s, id);
    } else if !NonZero(id) {
      var t := ZeroLeaves(s, id);
    } else {
      forall t | Reachable(s, t) ensures id in t.tables.queue {
        var states, steps :| Run(states, steps) && states[0] == s && states[|steps|] == t;
        SafeRun(states, steps, |steps|, id);
      }
    }
  }
}
