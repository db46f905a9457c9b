/** The registration server: text message confirmation, the queue, and the rounds of the batch loop. */
module Registration {
  import opened Bytes
  import opened Identities
  import opened Abi

  /** The batch is cut after it has outgrown this size. */
  const MAX_BATCH_SIZE: nat := 75

  /** Codes are no longer sent once more than this many were. */
  const MAX_TEXTS: nat := 10

  // ------------------------------------------------------------------ confirmation by text message

  datatype ApiError = BadNumber | ApiDown

  datatype SignupReturn = RegistrationOk | PendingRegistration | BadPhoneNumber | InternalServerError

  /**
   * A request, with what parsing the phone number and the two remote calls would return. Whether a text
   * is `delivered` is another matter than what starting it reports: the call gives up after a second, and
   * takes every answer of the service for a success.
   */
  datatype SmsRequest = SmsRequest(client: Identity, phone: Option<string>, parses: bool, code: Option<string>,
                                   magic: bool, check: Outcome<bool, ApiError>, start: Outcome<(), ApiError>,
                                   delivered: bool)

  /** The two global tables; equality of queued identities ignores nicknames. */
  datatype Tables = Tables(texts: map<seq<byte>, nat>, queue: set<Identity>) {
    function TextsSent(key: seq<byte>): nat {
      if key in texts then texts[key] else 0
    }
  }

  function ApiReturn(e: ApiError): SignupReturn {
    match e case BadNumber => BadPhoneNumber case ApiDown => InternalServerError
  }

  /** The code was accepted: the number is the magic one, or the remote check says so. */
  predicate Accepted(r: SmsRequest) {
    r.phone.Some? && r.parses && r.code.Some? && (r.magic || r.check == Ok(true))
  }

  /** A code is asked for, and `count` texts, the number read at the start, are within the budget. */
  predicate LetThrough(r: SmsRequest, count: nat) {
    r.phone.Some? && r.parses && r.code.None? && count <= MAX_TEXTS
  }

  /** Only a code whose start is reported as a success is counted. */
  predicate Counted(r: SmsRequest, count: nat) {
    LetThrough(r, count) && r.start.Ok?
  }

  /** The request waits for a remote call, during which other requests are served. */
  predicate Awaits(r: SmsRequest, count: nat) {
    r.phone.Some? && r.parses && if r.code.Some? then !r.magic else count <= MAX_TEXTS
  }

  /** The error of the remote call that the request waits for, if it fails. */
  function RemoteError(r: SmsRequest, count: nat): Option<ApiError> {
    if !Awaits(r, count) then None
    else if r.code.Some? then if r.check.Err? then Some(r.check.error) else None
    else if r.start.Err? then Some(r.start.error)
    else None
  }

  /** A count of texts is a `u8`. */
  function Low8(n: nat): nat { n % 256 }

  /** What the end of a request that read `count` at its start does to the tables it then finds. */
  function AfterSms(t: Tables, r: SmsRequest, count: nat): Tables {
    var key := r.client.wgPublicKey;
    if Accepted(r) then Tables(t.texts - {key}, t.queue + {r.client.Key()})
    else if Counted(r, count) then t.(texts := t.texts[key := Low8(t.TextsSent(key) + 1)])
    else t
  }

  class Registrar {
    var texts: map<seq<byte>, nat>
    var queue: set<Identity>

    ghost function State(): Tables
      reads this
    {
      Tables(texts, queue)
    }

    method IncrementTextsSent(key: seq<byte>)
      modifies this`texts
      ensures texts == old(texts)[key := Low8(old(State()).TextsSent(key) + 1)]
    {
      if key in texts {
        texts := texts[key := Low8(texts[key] + 1)];
      } else {
        texts := texts[key := 1];
      }
    }

    method ResetTextsSent(key: seq<byte>)
      modifies this`texts
      ensures texts == old(texts) - {key}
    {
      texts := texts - {key};
    }

    method AddClientToRegQueue(id: Identity)
      modifies this`queue
      ensures queue == old(queue) + {id.Key()}
    {
      queue := queue + {id.Key()};
    }

    method RemoveClientFromRegQueue(id: Identity)
      modifies this`queue
      ensures queue == old(queue) - {id.Key()}
    {
      queue := queue - {id.Key()};
    }

    /**
     * `handle_sms_registration`. Other requests run while this one waits for a remote call: `meanwhile`
     * is what they leave. The answer is a confirmation exactly when the code was accepted, and then the
     * client is queued; an error answer names the cause; whether a text is sent is decided by the count
     * read before the wait, while the count that grows is the one found after it.
     */
    method HandleSmsRegistration(r: SmsRequest, meanwhile: Tables) returns (answer: SignupReturn)
      requires !r.check.Panic? && !r.start.Panic?
      modifies this
      ensures var count := old(State()).TextsSent(r.client.wgPublicKey);
        State() == AfterSms(if Awaits(r, count) then meanwhile else old(State()), r, count) &&
        (answer == InternalServerError <==> RemoteError(r, count) == Some(ApiDown)) &&
        (answer == BadPhoneNumber <==> r.phone.None? || !r.parses || RemoteError(r, count) == Some(BadNumber))
      ensures answer == RegistrationOk <==> Accepted(r)
      ensures answer == RegistrationOk ==> r.client.Key() in queue && r.client.wgPublicKey !in texts
    {
      var key := r.client.wgPublicKey;
      var textNum := if key in texts then texts[key] else 0;
      var sentMoreThanAllowed := textNum > MAX_TEXTS;
      if r.phone.None? || !r.parses {
        return BadPhoneNumber;
      }
      if r.code.Some? {
        // with or without texts left the code may still be submitted
        var result := true;
        if !r.magic {
          texts, queue := meanwhile.texts, meanwhile.queue;
          if r.check.Err? {
            return ApiReturn(r.check.error);
          }
          result := r.check.value;
        }
        if !result {
          return PendingRegistration;
        }
        AddClientToRegQueue(r.client);
        ResetTextsSent(key);
        return RegistrationOk;
      }
      if sentMoreThanAllowed {
        return PendingRegistration;
      }
      texts, queue := meanwhile.texts, meanwhile.queue;
      if r.start.Err? {
        return ApiReturn(r.start.error);
      }
      IncrementTextsSent(key);
      return PendingRegistration;
    }

    /**
     * One turn of the batch loop: `list` is the queue in some order, `snapshot` what reading the contract
     * gives, `arrived` the clients confirmed while the loop waits, and `reported` whether the transaction
     * is reported as successful. Only then, and only if the batch could be encoded, is it taken out.
     */
    method RunRound(list: seq<Identity>, snapshot: Option<set<Identity>>, arrived: set<Identity>, reported: bool)
      requires Keys(queue) && Enumerates(list, queue) && Keys(arrived)
      modifies this`queue
      ensures Keys(queue)
      ensures queue == old(queue) + arrived - Registered(list, snapshot, reported)
    {
      queue := queue + arrived;
      if list == [] || snapshot.None? {
        return;
      }
      var batch := BuildBatch(list, snapshot.value);
      BatchWithin(list, snapshot.value);
      var encoded := EncodeClients(batch);
      if batch == [] || !encoded.Ok? || !reported {
        return;
      }
      ghost var before := queue;
      var i := 0;
      while i < |batch|
        invariant 0 <= i <= |batch| && Keys(queue)
        invariant queue == before - Elements(batch[..i])
      {
        RemoveClientFromRegQueue(batch[i]);
        assert batch[i] in Elements(list);
        ElementsStep(batch, i);
        i := i + 1;
      }
      assert batch[..i] == batch;
    }
  }

  // ------------------------------------------------------------------ building a batch

  /** The clients of a list that are not known to the contract, in list order. */
  function Unregistered(list: seq<Identity>, known: set<Identity>): seq<Identity> {
    if list == [] then []
    else (if list[0] in known then [] else [list[0]]) + Unregistered(list[1..], known)
  }

  /** The batch of a round: at most one more than the limit, because the check follows the push. */
  function Batch(list: seq<Identity>, known: set<Identity>): seq<Identity> {
    var all := Unregistered(list, known);
    all[..Min(MAX_BATCH_SIZE + 1, |all|)]
  }

  lemma UnregisteredStep(list: seq<Identity>, known: set<Identity>, i: nat)
    requires i <= |list|
    ensures i == |list| ==> Unregistered(list[i..], known) == []
    ensures i < |list| ==>
      Unregistered(list[i..], known) ==
      if list[i] in known then Unregistered(list[i + 1..], known) else [list[i]] + Unregistered(list[i + 1..], known)
  {
    if i < |list| {
      assert list[i..][0] == list[i] && list[i..][1..] == list[i + 1..];
    }
  }

  method BuildBatch(list: seq<Identity>, known: set<Identity>) returns (batch: seq<Identity>)
    ensures batch == Batch(list, known)
  {
    hide Unregistered;
    batch := [];
    ghost var all := Unregistered(list, known);
    assert list[0..] == list;
    var i := 0;
    while i < |list|
      invariant 0 <= i <= |list| && |batch| <= MAX_BATCH_SIZE
      invariant all == batch + Unregistered(list[i..], known)
    {
      UnregisteredStep(list, known, i);
      if list[i] !in known {
        Associate(batch, [list[i]], Unregistered(list[i + 1..], known));
        batch := batch + [list[i]];
        if |batch| > MAX_BATCH_SIZE {
          assert all[..|batch|] == batch;
          return;
        }
      }
      i := i + 1;
    }
    UnregisteredStep(list, known, i);
    assert all == batch;
  }

  /** Identities of the queue carry no nickname, since it compares without it. */
  ghost predicate Keys(s: set<Identity>) { forall id :: id in s ==> id.nickname == None }

  ghost predicate Distinct(list: seq<Identity>) {
    forall i, j :: 0 <= i < j < |list| ==> list[i] != list[j]
  }

  ghost function Elements(s: seq<Identity>): set<Identity> { set x | x in s }

  /** `list` enumerates the set, each element once: what collecting a hash set gives. */
  ghost predicate Enumerates(list: seq<Identity>, queue: set<Identity>) {
    Distinct(list) && Elements(list) == queue
  }

  lemma {:induction false} UnregisteredElements(list: seq<Identity>, known: set<Identity>)
    ensures Elements(Unregistered(list, known)) == Elements(list) - known
  {
    if list != [] {
      UnregisteredElements(list[1..], known);
      assert Elements(list) == {list[0]} + Elements(list[1..]) by {
        assert list == [list[0]] + list[1..];
      }
      var head := if list[0] in known then [] else [list[0]];
      var tail := Unregistered(list[1..], known);
      assert Elements(head + tail) == Elements(head) + Elements(tail);
    }
  }

  lemma {:induction false} UnregisteredDistinct(list: seq<Identity>, known: set<Identity>)
    requires Distinct(list)
    ensures Distinct(Unregistered(list, known))
  {
    if list != [] {
      UnregisteredDistinct(list[1..], known);
      UnregisteredElements(list[1..], known);
      var u := Unregistered(list[1..], known);
      assert forall i :: 0 <= i < |u| ==> u[i] in Elements(u);
    }
  }

  lemma {:induction false} DistinctSize(s: seq<Identity>)
    requires Distinct(s)
    ensures |Elements(s)| == |s|
  {
    if s != [] {
      var n := |s| - 1;
      DistinctSize(s[..n]);
      assert s == s[..n] + [s[n]];
      assert Elements(s) == Elements(s[..n]) + {s[n]};
      assert s[n] !in s[..n];
    }
  }

  /** Every batch is duplicate free, new to the contract snapshot, and of size min(76, all that is new). */
  lemma BatchShape(list: seq<Identity>, known: set<Identity>)
    requires Distinct(list)
    ensures var b, missing := Batch(list, known), Elements(list) - known;
      Distinct(b) && |Elements(b)| == |b| == Min(76, |missing|) && Elements(b) <= missing
  {
    var all := Unregistered(list, known);
    UnregisteredDistinct(list, known);
    UnregisteredElements(list, known);
    DistinctSize(all);
    DistinctSize(Batch(list, known));
  }

  lemma BatchWithin(list: seq<Identity>, known: set<Identity>)
    ensures forall i :: 0 <= i < |Batch(list, known)| ==> Batch(list, known)[i] in Elements(list) - known
  {
    UnregisteredElements(list, known);
    var all := Unregistered(list, known);
    assert forall i :: 0 <= i < |all| ==> all[i] in Elements(all);
  }

  lemma ElementsStep(s: seq<Identity>, i: nat)
    requires i < |s|
    ensures Elements(s[..i + 1]) == Elements(s[..i]) + {s[i]}
  {
    assert s[..i + 1] == s[..i] + [s[i]];
  }

  // ------------------------------------------------------------------ which batches are possible

  lemma {:induction false} EnumerationOf(all: set<Identity>) returns (list: seq<Identity>)
    ensures Enumerates(list, all)
  {
    if all == {} {
      list := [];
    } else {
      var x :| x in all;
      var rest := EnumerationOf(all - {x});
      list := rest + [x];
      assert list[..|rest|] == rest && list[..|rest| + 1] == list;
      ElementsStep(list, |rest|);
      assert forall i :: 0 <= i < |rest| ==> rest[i] in Elements(rest);
    }
  }

  lemma {:induction false} UnregisteredAppend(a: seq<Identity>, b: seq<Identity>, known: set<Identity>)
    ensures Unregistered(a + b, known) == Unregistered(a, known) + Unregistered(b, known)
  {
    if a == [] {
      assert a + b == b;
    } else {
      assert (a + b)[1..] == a[1..] + b;
      UnregisteredAppend(a[1..], b, known);
      Associate(if a[0] in known then [] else [a[0]], Unregistered(a[1..], known), Unregistered(b, known));
    }
  }

  lemma {:induction false} AllUnregistered(a: seq<Identity>, known: set<Identity>)
    requires Elements(a) !! known
    ensures Unregistered(a, known) == a
  {
    if a != [] {
      assert a[0] in Elements(a) && Elements(a[1..]) <= Elements(a);
      AllUnregistered(a[1..], known);
    }
  }

  lemma EnumeratesBoth(a: seq<Identity>, b: seq<Identity>, all: set<Identity>, part: set<Identity>)
    requires part <= all && Enumerates(a, part) && Enumerates(b, all - part)
    ensures Enumerates(a + b, all)
  {
    assert Elements(a + b) == Elements(a) + Elements(b);
    assert forall i :: 0 <= i < |a| ==> a[i] in Elements(a);
    assert forall i :: 0 <= i < |b| ==> b[i] in Elements(b);
  }

  /** Every set of the right size of missing clients is the batch for some order of the queue. */
  lemma BatchOf(queue: set<Identity>, known: set<Identity>, part: set<Identity>) returns (list: seq<Identity>)
    requires part <= queue - known && |part| == Min(MAX_BATCH_SIZE + 1, |queue - known|)
    ensures Enumerates(list, queue) && Elements(Batch(list, known)) == part
  {
    hide Unregistered;
    var a := EnumerationOf(part);
    var b := EnumerationOf(queue - part);
    list := a + b;
    EnumeratesBoth(a, b, queue, part);
    UnregisteredAppend(a, b, known);
    AllUnregistered(a, known);
    DistinctSize(a);
    var all := Unregistered(list, known);
    UnregisteredElements(list, known);
    UnregisteredDistinct(list, known);
    DistinctSize(all);
    assert all[..|a|] == a;
  }

  lemma PickedWhenFew(list: seq<Identity>, known: set<Identity>, id: Identity)
    requires Distinct(list) && id in list && id !in known && |Elements(list) - known| <= MAX_BATCH_SIZE + 1
    ensures id in Batch(list, known)
  {
    BatchShape(list, known);
    var all := Unregistered(list, known);
    UnregisteredElements(list, known);
    UnregisteredDistinct(list, known);
    DistinctSize(all);
    assert Batch(list, known) == all;
    assert id in Elements(all);
  }

  lemma {:induction false} SubsetOfSize(all: set<Identity>, n: nat) returns (part: set<Identity>)
    requires n <= |all|
    ensures part <= all && |part| == n
  {
    if n == 0 {
      part := {};
    } else {
      var x :| x in all;
      part := SubsetOfSize(all - {x}, n - 1);
      part := part + {x};
    }
  }

  /** A missing client is picked whatever the order of the queue exactly when at most 76 are missing. */
  lemma PickedIff(queue: set<Identity>, known: set<Identity>, id: Identity)
    requires id in queue - known
    ensures (forall list :: Enumerates(list, queue) ==> id in Batch(list, known)) <==> |queue - known| <= 76
  {
    hide Batch;
    var missing := queue - known;
    if |missing| <= MAX_BATCH_SIZE + 1 {
      forall list | Enumerates(list, queue) ensures id in Batch(list, known) {
        assert id in Elements(list);
        PickedWhenFew(list, known, id);
      }
    } else {
      var part := SubsetOfSize(missing - {id}, MAX_BATCH_SIZE + 1);
      var list := BatchOf(queue, known, part);
      assert id !in Elements(Batch(list, known));
    }
  }

  // ------------------------------------------------------------------ encoding a batch

  predicate AllV6(users: seq<Identity>) {
    forall i :: 0 <= i < |users| ==> users[i].meshIp.V6?
  }

  /**
   * The encoding loop of `add_users_to_registered_list`: it fails on the first IPv4 address; otherwise
   * it gives the tuple of each client, which together are the body of the canonical array encoding.
   */
  method EncodeClients(users: seq<Identity>) returns (r: Outcome<seq<seq<Word>>, DbError>)
    ensures r == Err(BadInput) <==> !AllV6(users)
    ensures r.Ok? <==> AllV6(users)
    ensures r.Ok? ==> |r.value| == |users| && forall i :: 0 <= i < |users| ==> r.value[i] == IdentityWords(users[i])
    ensures r.Ok? && AllStorable(users) ==> Concat(r.value) == AllIdentityWords(users)
  {
    hide IdentityWords, Storable, AllIdentityWords;
    var encoded: seq<seq<Word>> := [];
    var i := 0;
    while i < |users|
      invariant 0 <= i <= |users| && AllV6(users[..i]) && |encoded| == i
      invariant forall k :: 0 <= k < i ==> users[k].meshIp.V6? && encoded[k] == IdentityWords(users[k])
    {
      if !users[i].meshIp.V6? {
        return Err(BadInput);
      }
      encoded := encoded + [IdentityWords(users[i])];
      i := i + 1;
    }
    if AllStorable(users) {
      TuplesConcat(users, encoded);
    }
    return Ok(encoded);
  }

  lemma {:induction false} TuplesConcat(users: seq<Identity>, tuples: seq<seq<Word>>)
    requires AllStorable(users) && |tuples| == |users|
    requires forall i :: 0 <= i < |users| ==> users[i].meshIp.V6? && tuples[i] == IdentityWords(users[i])
    ensures Concat(tuples) == AllIdentityWords(users)
  {
    hide IdentityWords, Storable;
    if users != [] {
      var n := |users| - 1;
      TuplesConcat(users[..n], tuples[..n]);
      ConcatAppend(tuples[..n], [tuples[n]]);
      assert tuples == tuples[..n] + [tuples[n]] && Concat([tuples[n]]) == tuples[n] + [];
    }
  }

  /** The clients a round takes out of the queue. */
  function Registered(list: seq<Identity>, snapshot: Option<set<Identity>>, reported: bool): set<Identity> {
    if snapshot.None? || !reported then {}
    else
      var batch := Batch(list, snapshot.value);
      if AllV6(batch) then set x | x in batch else {}
  }
}
