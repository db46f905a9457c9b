/** How many codes one key can get, when requests overlap while they wait for the text message service. */
module TextBudget {
  import opened Bytes
  import opened Identities
  import opened Registration
  import opened RegistrationRuns

  /** The flight of a request for a code of `key` that was let through. */
  predicate Sending(f: Flight, key: seq<byte>) {
    f.request.client.wgPublicKey == key && LetThrough(f.request, f.count)
  }

  /** How many codes of `key` are on their way at the same time. */
  function Overlap(requests: seq<Flight>, key: seq<byte>): nat {
    if requests == [] then 0
    else Overlap(requests[..|requests| - 1], key) + if Sending(requests[|requests| - 1], key) then 1 else 0
  }

  /** The request that ends in this step had been let through. */
  predicate EndsSending(s: System, step: Step, key: seq<byte>) {
    step.SmsEnds? && step.index < |s.requests| && Sending(s.requests[step.index], key)
  }

  /** A code was delivered. */
  predicate SendsCode(s: System, step: Step, key: seq<byte>) {
    EndsSending(s, step, key) && s.requests[step.index].request.delivered
  }

  /** A code was delivered although the service reported an error, or nothing in time. */
  predicate SendsUncounted(s: System, step: Step, key: seq<byte>) {
    SendsCode(s, step, key) && !s.requests[step.index].request.start.Ok?
  }

  predicate CountsCode(s: System, step: Step, key: seq<byte>) {
    EndsSending(s, step, key) && s.requests[step.index].request.start.Ok?
  }

  predicate ConfirmsKey(s: System, step: Step, key: seq<byte>) {
    Confirms(s, step) && Client(s, step).wgPublicKey == key
  }

  /** The codes delivered to `key` in the first `n` steps, since the last confirmation of the key. */
  ghost function CodesSent(states: seq<System>, steps: seq<Step>, key: seq<byte>, n: nat): nat
    requires n <= |steps| < |states|
  {
    if n == 0 || ConfirmsKey(states[n - 1], steps[n - 1], key) then 0
    else CodesSent(states, steps, key, n - 1) + if SendsCode(states[n - 1], steps[n - 1], key) then 1 else 0
  }

  /** Those of them that were reported as errors. */
  ghost function Uncounted(states: seq<System>, steps: seq<Step>, key: seq<byte>, n: nat): nat
    requires n <= |steps| < |states|
  {
    if n == 0 || ConfirmsKey(states[n - 1], steps[n - 1], key) then 0
    else Uncounted(states, steps, key, n - 1) + if SendsUncounted(states[n - 1], steps[n - 1], key) then 1 else 0
  }

  lemma OverlapAppend(requests: seq<Flight>, f: Flight, key: seq<byte>)
    ensures Overlap(requests + [f], key) == Overlap(requests, key) + if Sending(f, key) then 1 else 0
  {
    assert (requests + [f])[..|requests|] == requests;
  }

  lemma {:induction false} OverlapWithout(requests: seq<Flight>, i: nat, key: seq<byte>)
    requires i < |requests|
    ensures Overlap(requests, key) ==
      Overlap(Without(requests, i), key) + if Sending(requests[i], key) then 1 else 0
  {
    hide Sending;
    var n := |requests| - 1;
    if i == n {
      assert Without(requests, i) == requests[..n];
    } else {
      OverlapWithout(requests[..n], i, key);
      assert Without(requests, i) == Without(requests[..n], i) + [requests[n]];
      OverlapAppend(Without(requests[..n], i), requests[n], key);
    }
  }

  // ------------------------------------------------------------------ the bound

  /** A confirmation forgets the texts of its key, and of no other. */
  lemma ConfirmationResets(s: System, step: Step, t: System, key: seq<byte>)
    requires Next(s, step, t) && Confirms(s, step)
    ensures t.tables.TextsSent(key) == if ConfirmsKey(s, step, key) then 0 else s.tables.TextsSent(key)
  {
  }

  /** Let through means at most ten counted; so texts counted and codes on their way stay within ten plus `p`. */
  lemma BudgetStep(s: System, step: Step, t: System, key: seq<byte>, p: nat)
    requires Next(s, step, t) && p <= 245
    requires s.tables.TextsSent(key) + Overlap(s.requests, key) <= MAX_TEXTS + p && Overlap(t.requests, key) <= p
    ensures t.tables.TextsSent(key) ==
      if ConfirmsKey(s, step, key) then 0
      else s.tables.TextsSent(key) + if CountsCode(s, step, key) then 1 else 0
    ensures t.tables.TextsSent(key) + Overlap(t.requests, key) <= MAX_TEXTS + p
  {
    hide Overlap;
    match step
    case SmsBegins(r) =>
      OverlapAppend(s.requests, Flight(r, s.tables.TextsSent(r.client.wgPublicKey)), key);
    case SmsEnds(i) =>
      OverlapWithout(s.requests, i, key);
    case _ =>
  }

  /** What is delivered is counted or reported as an error. */
  lemma DeliveredIs(s: System, step: Step, key: seq<byte>)
    ensures SendsCode(s, step, key) ==> CountsCode(s, step, key) || SendsUncounted(s, step, key)
  {
  }

  lemma {:induction false} BudgetKept(states: seq<System>, steps: seq<Step>, key: seq<byte>, p: nat, n: nat)
    requires Run(states, steps) && n <= |steps| && states[0].tables.TextsSent(key) == 0 && p <= 245
    requires forall k :: 0 <= k < |states| ==> Overlap(states[k].requests, key) <= p
    ensures CodesSent(states, steps, key, n) <= states[n].tables.TextsSent(key) + Uncounted(states, steps, key, n)
    ensures states[n].tables.TextsSent(key) + Overlap(states[n].requests, key) <= MAX_TEXTS + p
  {
    hide Next, Overlap, ConfirmsKey, SendsCode, CountsCode, SendsUncounted;
    if n > 0 {
      BudgetKept(states, steps, key, p, n - 1);
      assert Next(states[n - 1], steps[n - 1], states[n - 1 + 1]);
      BudgetStep(states[n - 1], steps[n - 1], states[n], key, p);
      DeliveredIs(states[n - 1], steps[n - 1], key);
    }
  }

  /**
   * In every run a key gets, since it was last confirmed, at most ten codes more than are ever on their
   * way at the same time, if these are at most 245, and as many again as were delivered although an error
   * was reported. So at most eleven when its requests do not overlap and errors mean that nothing was sent.
   */
  lemma Budget(states: seq<System>, steps: seq<Step>, key: seq<byte>, p: nat)
    requires Run(states, steps) && states[0].tables.TextsSent(key) == 0 && p <= 245
    requires forall k :: 0 <= k < |states| ==> Overlap(states[k].requests, key) <= p
    ensures CodesSent(states, steps, key, |steps|) <= 10 + p + Uncounted(states, steps, key, |steps|)
  {
    BudgetKept(states, steps, key, p, |steps|);
  }

  lemma {:induction false} NoneOnTheirWay(states: seq<System>, steps: seq<Step>, key: seq<byte>, n: nat)
    requires Run(states, steps) && n <= |steps|
    requires forall k :: 0 <= k < |states| ==> Overlap(states[k].requests, key) == 0
    ensures CodesSent(states, steps, key, n) == 0
  {
    hide Next, Overlap;
    if n > 0 {
      NoneOnTheirWay(states, steps, key, n - 1);
      var s, step := states[n - 1], steps[n - 1];
      if step.SmsEnds? && step.index < |s.requests| {
        OverlapWithout(s.requests, step.index, key);
      }
    }
  }

  // ------------------------------------------------------------------ runs that reach it

  ghost predicate Burst(states: seq<System>, steps: seq<Step>, s: System, t: System, key: seq<byte>, p: nat, e: nat,
                        n: nat)
  {
    Run(states, steps) && states[0] == s && states[|steps|] == t &&
    CodesSent(states, steps, key, |steps|) == n && Uncounted(states, steps, key, |steps|) == e &&
    forall k :: 0 <= k < |states| ==> Overlap(states[k].requests, key) <= p
  }

  /**
   * A run leads from `s` to `t` in which never more than `p` codes of the key are on their way at once, and
   * since the last confirmation of the key `n` were delivered, `e` of them reported as errors.
   */
  ghost predicate Sends(s: System, t: System, key: seq<byte>, p: nat, e: nat, n: nat) {
    exists states, steps :: Burst(states, steps, s, t, key, p, e, n)
  }

  lemma SendsNothing(s: System, key: seq<byte>, p: nat)
    requires s.requests == []
    ensures Sends(s, s, key, p, 0, 0)
  {
    assert Burst([s], [], s, s, key, p, 0, 0);
  }

  lemma {:induction false} SamePrefix(states: seq<System>, steps: seq<Step>, u: System, step: Step, key: seq<byte>,
                                      n: nat)
    requires n <= |steps| < |states|
    ensures CodesSent(states + [u], steps + [step], key, n) == CodesSent(states, steps, key, n)
    ensures Uncounted(states + [u], steps + [step], key, n) == Uncounted(states, steps, key, n)
  {
    hide SendsCode, SendsUncounted, ConfirmsKey;
    if n > 0 {
      SamePrefix(states, steps, u, step, key, n - 1);
    }
  }

  lemma SendsMore(s: System, t: System, key: seq<byte>, p: nat, e: nat, n: nat, step: Step, u: System)
    requires Sends(s, t, key, p, e, n) && Next(t, step, u)
    requires Overlap(u.requests, key) <= p
    ensures if ConfirmsKey(t, step, key) then Sends(s, u, key, p, 0, 0)
      else Sends(s, u, key, p, e + (if SendsUncounted(t, step, key) then 1 else 0),
                 n + if SendsCode(t, step, key) then 1 else 0)
  {
    hide Next, ConfirmsKey, SendsCode, SendsUncounted, Overlap;
    var states, steps :| Burst(states, steps, s, t, key, p, e, n);
    var more, then' := states + [u], steps + [step];
    SamePrefix(states, steps, u, step, key, |steps|);
    forall k | 0 <= k < |then'| ensures Next(more[k], then'[k], more[k + 1]) {
      if k < |steps| {
        assert Next(states[k], steps[k], states[k + 1]);
      }
    }
    if ConfirmsKey(t, step, key) {
      assert Burst(more, then', s, u, key, p, 0, 0);
    } else {
      assert Burst(more, then', s, u, key, p, e + (if SendsUncounted(t, step, key) then 1 else 0),
                   n + if SendsCode(t, step, key) then 1 else 0);
    }
  }

  /** A request for a code, with a number that parses; the code is delivered, whatever the service reports. */
  function Ask(key: seq<byte>, report: Outcome<(), ApiError>): SmsRequest {
    SmsRequest(Identity(V6(1), [], key, None), Some("1"), true, None, false, Ok(false), report, true)
  }

  /** A request whose code is delivered but reported as an error: it comes in, and ends without a trace. */
  lemma OneUnnoticed(t: System, waiting: System, key: seq<byte>)
    requires t.requests == [] && t.tables.TextsSent(key) <= MAX_TEXTS
    requires waiting == t.(requests := [Flight(Ask(key, Err(ApiDown)), t.tables.TextsSent(key))])
    ensures Next(t, SmsBegins(Ask(key, Err(ApiDown))), waiting) && Next(waiting, SmsEnds(0), t)
    ensures Overlap(t.requests, key) == 0 && Overlap(waiting.requests, key) == 1
    ensures SendsCode(waiting, SmsEnds(0), key) && SendsUncounted(waiting, SmsEnds(0), key)
    ensures !ConfirmsKey(waiting, SmsEnds(0), key)
  {
    var f := waiting.requests[0];
    OverlapAppend([], f, key);
    assert [] + [f] == [f] && Without([f], 0) == [];
  }

  /** Any number of them, one after the other: nothing is counted. */
  lemma {:induction false} Unnoticed(s: System, t: System, key: seq<byte>, p: nat, e: nat, n: nat, m: nat)
    requires Sends(s, t, key, p, e, n) && t.requests == [] && t.tables.TextsSent(key) <= MAX_TEXTS && p >= 1
    ensures Sends(s, t, key, p, e + m, n + m)
  {
    hide Sends, Next, Overlap, SendsCode, SendsUncounted, EndsSending, ConfirmsKey;
    if m > 0 {
      Unnoticed(s, t, key, p, e, n, m - 1);
      var r := Ask(key, Err(ApiDown));
      var waiting := t.(requests := [Flight(r, t.tables.TextsSent(key))]);
      OneUnnoticed(t, waiting, key);
      BeginsQuietly(t, r, key);
      SendsMore(s, t, key, p, e + m - 1, n + m - 1, SmsBegins(r), waiting);
      SendsMore(s, waiting, key, p, e + m - 1, n + m - 1, SmsEnds(0), t);
    }
  }

  lemma BeginsQuietly(s: System, r: SmsRequest, key: seq<byte>)
    ensures !SendsCode(s, SmsBegins(r), key) && !SendsUncounted(s, SmsBegins(r), key)
    ensures !ConfirmsKey(s, SmsBegins(r), key)
  {
  }

  ghost predicate AllAre(requests: seq<Flight>, f: Flight) {
    forall i :: 0 <= i < |requests| ==> requests[i] == f
  }

  lemma {:induction false} OverlapOf(requests: seq<Flight>, f: Flight, key: seq<byte>)
    requires AllAre(requests, f) && Sending(f, key)
    ensures Overlap(requests, key) == |requests|
  {
    hide Sending;
    if requests != [] {
      OverlapOf(requests[..|requests| - 1], f, key);
    }
  }

  /** `k` requests come in while at most ten codes have been counted. */
  lemma {:induction false} Begin(s: System, t: System, key: seq<byte>, p: nat, e: nat, n: nat, k: nat)
    returns (u: System)
    requires Sends(s, t, key, p, e, n) && t.requests == [] && t.tables.TextsSent(key) <= MAX_TEXTS && k <= p
    ensures Sends(s, u, key, p, e, n) && |u.requests| == k && u.tables == t.tables
    ensures AllAre(u.requests, Flight(Ask(key, Ok(())), t.tables.TextsSent(key)))
  {
    hide Sends;
    if k == 0 {
      u := t;
    } else {
      var f := Flight(Ask(key, Ok(())), t.tables.TextsSent(key));
      var before := Begin(s, t, key, p, e, n, k - 1);
      u := before.(requests := before.requests + [f]);
      OverlapOf(u.requests, f, key);
      SendsMore(s, before, key, p, e, n, SmsBegins(f.request), u);
    }
  }

  lemma Low8Adds(a: nat, k: nat)
    ensures Low8(Low8(a + 1) + k) == Low8(a + (k + 1))
  {
  }

  lemma Low8Small(a: nat)
    ensures Low8(a) < 256 && Low8(a + 1) < 256 && (a < 256 ==> Low8(a) == a)
  {
  }

  lemma EndOne(t: System, next: System, key: seq<byte>, count: nat, i: nat)
    requires |t.requests| == i + 1 && AllAre(t.requests, Flight(Ask(key, Ok(())), count)) && count <= MAX_TEXTS
    requires next == t.(tables := AfterEnd(t, i), requests := t.requests[..i])
    ensures Next(t, SmsEnds(i), next) && SendsCode(t, SmsEnds(i), key) && !SendsUncounted(t, SmsEnds(i), key)
    ensures !ConfirmsKey(t, SmsEnds(i), key)
    ensures AllAre(next.requests, Flight(Ask(key, Ok(())), count)) && Overlap(next.requests, key) == i
    ensures next.tables.TextsSent(key) == Low8(t.tables.TextsSent(key) + 1)
  {
    assert Without(t.requests, i) == t.requests[..i];
    OverlapOf(next.requests, Flight(Ask(key, Ok(())), count), key);
  }

  /** They all end, one after the other. */
  lemma {:induction false} End(s: System, t: System, key: seq<byte>, p: nat, e: nat, n: nat, count: nat)
    returns (u: System)
    requires Sends(s, t, key, p, e, n) && AllAre(t.requests, Flight(Ask(key, Ok(())), count)) && count <= MAX_TEXTS
    requires |t.requests| <= p && t.tables.TextsSent(key) < 256
    ensures Sends(s, u, key, p, e, n + |t.requests|) && u.requests == []
    ensures u.tables.TextsSent(key) == Low8(t.tables.TextsSent(key) + |t.requests|)
    decreases |t.requests|
  {
    hide Sends, Next, SendsCode, SendsUncounted, ConfirmsKey, AfterEnd, Overlap, AllAre, Low8;
    Low8Small(t.tables.TextsSent(key));
    if t.requests == [] {
      u := t;
    } else {
      var i := |t.requests| - 1;
      var next := t.(tables := AfterEnd(t, i), requests := t.requests[..i]);
      EndOne(t, next, key, count, i);
      SendsMore(s, t, key, p, e, n, SmsEnds(i), next);
      u := End(s, next, key, p, e, n + 1, count);
      Low8Adds(t.tables.TextsSent(key), i);
    }
  }

  /** `k` overlapping requests that are all let through, delivered and counted. */
  lemma Together(s: System, t: System, key: seq<byte>, p: nat, e: nat, n: nat, k: nat) returns (u: System)
    requires Sends(s, t, key, p, e, n) && t.requests == [] && t.tables.TextsSent(key) <= MAX_TEXTS && k <= p
    ensures Sends(s, u, key, p, e, n + k) && u.requests == []
    ensures u.tables.TextsSent(key) == Low8(t.tables.TextsSent(key) + k)
  {
    hide Sends;
    u := Begin(s, t, key, p, e, n, k);
    u := End(s, u, key, p, e, n, t.tables.TextsSent(key));
  }

  /** Requests one after the other, up to the tenth text. */
  lemma {:induction false} OneByOne(s: System, t: System, key: seq<byte>, p: nat, e: nat, n: nat) returns (u: System)
    requires Sends(s, t, key, p, e, n) && t.requests == [] && t.tables.TextsSent(key) <= MAX_TEXTS && p >= 1
    ensures Sends(s, u, key, p, e, n + MAX_TEXTS - t.tables.TextsSent(key)) && u.requests == []
    ensures u.tables.TextsSent(key) == MAX_TEXTS
    decreases MAX_TEXTS - t.tables.TextsSent(key)
  {
    hide Sends;
    u := t;
    if t.tables.TextsSent(key) < MAX_TEXTS {
      u := Together(s, t, key, p, e, n, 1);
      u := OneByOne(s, u, key, p, e, n + 1);
    }
  }

  const START: System := System(Tables(map[], {}), [], {}, Idle, {})

  /** From any state in which nothing is counted and nothing under way the bound can be reached. */
  lemma Exhaust(s: System, t: System, key: seq<byte>, p: nat, e: nat) returns (u: System)
    requires p >= 1 && Sends(s, t, key, p, 0, 0) && t.requests == [] && t.tables.TextsSent(key) == 0
    ensures Sends(s, u, key, p, e, 10 + p + e) && u.requests == []
  {
    hide Sends;
    Unnoticed(s, t, key, p, 0, 0, e);
    u := OneByOne(s, t, key, p, e, e);
    u := Together(s, u, key, p, e, MAX_TEXTS + e, p);
  }

  /** The bound is reached for every overlap and every number of errors. */
  lemma BudgetIsTight(key: seq<byte>, p: nat, e: nat) returns (t: System)
    requires p >= 1
    ensures Sends(START, t, key, p, e, 10 + p + e) && t.requests == []
  {
    hide Sends;
    SendsNothing(START, key, p);
    t := Exhaust(START, START, key, p, e);
  }

  /** A confirmation by the magic number, while nothing is under way. */
  lemma Confirm(s: System, t: System, key: seq<byte>, p: nat, e: nat, n: nat) returns (u: System)
    requires Sends(s, t, key, p, e, n) && t.requests == []
    ensures Sends(s, u, key, p, 0, 0) && u.requests == [] && u.tables.TextsSent(key) == 0
  {
    hide Sends;
    var r := SmsRequest(Identity(V6(1), [], key, None), Some("1"), true, Some("1"), true, Ok(true), Ok(()), false);
    var f := Flight(r, t.tables.TextsSent(key));
    var begun := t.(requests := [f]);
    OverlapAppend([], f, key);
    assert [] + [f] == [f] && Without([f], 0) == [];
    BeginsQuietly(t, r, key);
    SendsMore(s, t, key, p, e, n, SmsBegins(r), begun);
    u := begun.(tables := AfterEnd(begun, 0), requests := []);
    SendsMore(s, begun, key, p, e, n, SmsEnds(0), u);
    ConfirmationResets(begun, SmsEnds(0), u, key);
  }

  /** However much was spent before, after a confirmation the full budget can be reached again. */
  lemma BudgetAgain(s: System, t: System, key: seq<byte>, p: nat, e: nat, n: nat, more: nat) returns (u: System)
    requires p >= 1 && Sends(s, t, key, p, e, n) && t.requests == []
    ensures Sends(s, u, key, p, more, 10 + p + more) && u.requests == []
  {
    hide Sends;
    u := Confirm(s, t, key, p, e, n);
    u := Exhaust(s, u, key, p, more);
  }

  /** Two overlapping requests get a twelfth code delivered. */
  lemma TwelveCodes(key: seq<byte>) returns (t: System)
    ensures Sends(START, t, key, 2, 0, 12)
  {
    t := BudgetIsTight(key, 2, 0);
  }

  /** Requests that never overlap get any number of codes when each is delivered but reported as an error. */
  lemma ErrorsAreFree(key: seq<byte>, m: nat)
    ensures Sends(START, START, key, 1, m, m)
  {
    hide Sends;
    SendsNothing(START, key, 1);
    Unnoticed(START, START, key, 1, 0, 0, m);
  }

  /** With 246 requests at once the count wraps to zero, and the budget starts again, for ever. */
  lemma {:induction false} NoBudget(key: seq<byte>, p: nat, m: nat) returns (t: System)
    requires p >= 246
    ensures Sends(START, t, key, p, 0, 256 * m) && t.requests == [] && t.tables.TextsSent(key) == 0
  {
    hide Sends;
    if m == 0 {
      SendsNothing(START, key, p);
      t := START;
    } else {
      t := NoBudget(key, p, m - 1);
      t := OneByOne(START, t, key, p, 0, 256 * (m - 1));
      t := Together(START, t, key, p, 0, 256 * (m - 1) + MAX_TEXTS, 246);
    }
  }

  /**
   * `b` bounds the codes delivered to the key in every run in which at most `p` are on their way at once
   * and, if there is a limit, at most so many are delivered but reported as errors.
   */
  ghost predicate Bounds(key: seq<byte>, p: nat, limit: Option<nat>, b: nat) {
    forall s: System, t: System, e: nat, n: nat ::
      s.tables.TextsSent(key) == 0 && Sends(s, t, key, p, e, n) && (limit.Some? ==> e <= limit.value) ==> n <= b
  }

  lemma HasBound(key: seq<byte>, p: nat, limit: Option<nat>)
    requires p == 0 || (p <= 245 && limit.Some?)
    ensures Bounds(key, p, limit, if p == 0 then 0 else MAX_TEXTS + p + limit.value)
  {
    var b := if p == 0 then 0 else MAX_TEXTS + p + limit.value;
    forall s: System, t: System, e: nat, n: nat
      | s.tables.TextsSent(key) == 0 && Sends(s, t, key, p, e, n) && (limit.Some? ==> e <= limit.value)
      ensures n <= b
    {
      var states, steps :| Burst(states, steps, s, t, key, p, e, n);
      if p == 0 {
        NoneOnTheirWay(states, steps, key, |steps|);
      } else {
        Budget(states, steps, key, p);
      }
    }
  }

  lemma HasNoBound(key: seq<byte>, p: nat, limit: Option<nat>, b: nat)
    requires p >= 246 || (p >= 1 && limit.None?)
    ensures !Bounds(key, p, limit, b)
  {
    hide Sends;
    assert START.tables.TextsSent(key) == 0;
    if p >= 246 {
      var t := NoBudget(key, p, b + 1);
      assert 256 * (b + 1) > b;
    } else {
      var t := BudgetIsTight(key, p, b);
    }
  }

  /**
   * The number of codes is bounded exactly when none is ever on its way, or at most 245 are at the same
   * time and the deliveries that are reported as errors are limited.
   */
  lemma BudgetIff(key: seq<byte>, p: nat, limit: Option<nat>)
    ensures (exists b: nat :: Bounds(key, p, limit, b)) <==> p == 0 || (p <= 245 && limit.Some?)
  {
    hide Bounds;
    if p == 0 || (p <= 245 && limit.Some?) {
      HasBound(key, p, limit);
    } else {
      forall b: nat ensures !Bounds(key, p, limit, b) {
        HasNoBound(key, p, limit, b);
      }
    }
  }
}
