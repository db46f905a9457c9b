/** The block windows in which the bridge looks for withdrawal events. */
module Withdrawals {
  import opened Bytes

  const MAX_ITER: nat := 500

  /** `compute_start_end`, for a chain that has at least the blocks to check. */
  function ComputeStartEnd(iter: nat, latest: nat, total: nat, maxIter: nat): (w: (nat, nat))
    requires total <= latest
  {
    var start := latest - total + maxIter * iter;
    (start, if start + maxIter > latest then latest else start + maxIter)
  }

  /** The number of windows the loop visits. */
  function Turns(total: nat): nat { total / MAX_ITER + 1 }

  ghost function Hits(latest: nat, total: nat, block: nat): set<nat>
    requires total <= latest
  {
    set i: nat | 0 <= i < Turns(total) &&
      ComputeStartEnd(i, latest, total, MAX_ITER).0 <= block <= ComputeStartEnd(i, latest, total, MAX_ITER).1
  }

  /** Every window is a range of blocks inside the ones to check. */
  lemma WindowsInside(latest: nat, total: nat, i: nat)
    requires total <= latest && i < Turns(total)
    ensures var (start, end) := ComputeStartEnd(i, latest, total, MAX_ITER); latest - total <= start <= end <= latest
  {
    assert MAX_ITER * i <= MAX_ITER * (total / MAX_ITER) <= total;
  }

  /**
   * Every block to check is scanned, and scanned twice exactly when its distance from the first one is
   * a positive multiple of 500.
   */
  lemma ScanCounts(latest: nat, total: nat, block: nat)
    requires total <= latest && latest - total <= block <= latest
    ensures var offset := block - (latest - total);
      |Hits(latest, total, block)| == if offset > 0 && offset % MAX_ITER == 0 then 2 else 1
  {
    var offset := block - (latest - total);
    var q := offset / MAX_ITER;
    QuotientMonotone(offset, total);
    forall i: nat | i < Turns(total)
      ensures i in Hits(latest, total, block) <==> i == q || (i == q - 1 && offset % MAX_ITER == 0)
    {
      HitIff(latest, total, block, i);
    }
    if offset > 0 && offset % MAX_ITER == 0 {
      assert Hits(latest, total, block) == {q - 1, q};
    } else {
      assert Hits(latest, total, block) == {q};
    }
  }

  lemma QuotientMonotone(a: nat, b: nat)
    requires a <= b
    ensures a / MAX_ITER <= b / MAX_ITER
  {
  }

  lemma HitIff(latest: nat, total: nat, block: nat, i: nat)
    requires total <= latest && latest - total <= block <= latest && i < Turns(total)
    ensures var offset := block - (latest - total); var q := offset / MAX_ITER;
      i in Hits(latest, total, block) <==> i == q || (i == q - 1 && offset % MAX_ITER == 0)
  {
    var offset := block - (latest - total);
    assert offset == MAX_ITER * (offset / MAX_ITER) + offset % MAX_ITER;
  }

  // ------------------------------------------------------------------ what the scan returns

  datatype WithdrawEvent = WithdrawEvent(sender: nat, receiver: nat, amount: nat, txid: nat)

  type Logs = nat -> seq<WithdrawEvent>

  /** The events of the blocks from `start` to `end`, both included. */
  function EventsIn(logs: Logs, start: nat, end: nat): seq<WithdrawEvent>
    decreases end + 1 - start
  {
    if start > end then [] else logs(start) + EventsIn(logs, start + 1, end)
  }

  function Mine(events: seq<WithdrawEvent>, addresses: set<nat>): seq<WithdrawEvent> {
    if events == [] then []
    else (if events[0].sender in addresses then [events[0]] else []) + Mine(events[1..], addresses)
  }

  lemma {:induction false} MineAppend(a: seq<WithdrawEvent>, b: seq<WithdrawEvent>, addresses: set<nat>)
    ensures Mine(a + b, addresses) == Mine(a, addresses) + Mine(b, addresses)
  {
    if a == [] {
      assert a + b == b;
    } else {
      assert (a + b)[1..] == a[1..] + b;
      MineAppend(a[1..], b, addresses);
      var first := if a[0].sender in addresses then [a[0]] else [];
      Associate(first, Mine(a[1..], addresses), Mine(b, addresses));
    }
  }

  lemma {:induction false} EventsSplit(logs: Logs, start: nat, middle: nat, end: nat)
    requires start <= middle <= end
    ensures EventsIn(logs, start, end) == EventsIn(logs, start, middle) + EventsIn(logs, middle + 1, end)
    decreases middle - start
  {
    if start < middle {
      EventsSplit(logs, start + 1, middle, end);
    } else {
      assert EventsIn(logs, start, middle) == logs(start) + [];
    }
  }

  /** The blocks covered by `k` windows. */
  function Span(k: nat): nat { 500 * k }

  /** The last block of one window and the first of the next. */
  predicate Boundary(base: nat, block: nat) {
    block > base && (block - base) % 500 == 0
  }

  /** The logs as the scan sees them: the events of every boundary block come twice. */
  function Doubled(logs: Logs, base: nat): Logs {
    (block: nat) => if Boundary(base, block) then logs(block) + logs(block) else logs(block)
  }

  /** What `k` full windows have read: the last boundary block has been seen once so far. */
  function Scanned(logs: Logs, base: nat, k: nat): seq<WithdrawEvent> {
    if k == 0 then []
    else EventsIn(Doubled(logs, base), base, base + Span(k) - 1) + logs(base + Span(k))
  }

  /**
   * `check_withdrawals` when every log query succeeds: the requester's events in the blocks to check, in
   * block order, those of each boundary block twice in a row.
   */
  method CheckWithdrawals(blocksToCheck: nat, latest: nat, logs: Logs, addresses: set<nat>)
    returns (found: seq<WithdrawEvent>)
    requires blocksToCheck <= latest
    ensures var base := latest - blocksToCheck; found == Mine(EventsIn(Doubled(logs, base), base, latest), addresses)
  {
    hide Mine, EventsIn, Doubled, Scanned;
    ghost var base := latest - blocksToCheck;
    found := [];
    NothingScanned(logs, base, addresses);
    var blocksLeft: nat := blocksToCheck;
    var iter := 0;
    while true
      invariant iter >= 0 && blocksLeft + Span(iter) == blocksToCheck
      invariant found == Mine(Scanned(logs, base, iter), addresses)
      decreases blocksLeft
    {
      var (start, end) := ComputeStartEnd(iter, latest, blocksToCheck, MAX_ITER);
      assert start == base + Span(iter) && start <= end;
      MineAppend(Scanned(logs, base, iter), EventsIn(logs, start, end), addresses);
      iter := iter + 1;
      found := found + Mine(EventsIn(logs, start, end), addresses);
      if MAX_ITER > blocksLeft {
        LastWindow(logs, base, iter - 1, latest);
        break;
      }
      FullWindow(logs, base, iter - 1);
      blocksLeft := blocksLeft - MAX_ITER;
    }
  }

  lemma NothingScanned(logs: Logs, base: nat, addresses: set<nat>)
    ensures Mine(Scanned(logs, base, 0), addresses) == []
  {
  }

  lemma OneBlock(logs: Logs, at: nat)
    ensures EventsIn(logs, at, at) == logs(at)
  {
    assert EventsIn(logs, at + 1, at) == [] && logs(at) + [] == logs(at);
  }

  lemma NotBoundary(base: nat, k: nat, block: nat)
    requires base + Span(k) < block < base + Span(k + 1)
    ensures !Boundary(base, block)
  {
    assert (block - base) == 500 * k + (block - base - 500 * k);
  }

  lemma IsBoundary(base: nat, k: nat)
    ensures Boundary(base, base + Span(k)) <==> k > 0
  {
  }

  /** Between two boundaries nothing is doubled. */
  lemma {:induction false} Between(logs: Logs, base: nat, k: nat, lo: nat, hi: nat)
    requires base + Span(k) < lo && hi < base + Span(k + 1)
    ensures EventsIn(Doubled(logs, base), lo, hi) == EventsIn(logs, lo, hi)
    decreases hi + 1 - lo
  {
    if lo <= hi {
      NotBoundary(base, k, lo);
      Between(logs, base, k, lo + 1, hi);
    }
  }

  lemma FirstBlock(logs: Logs, base: nat, k: nat, end: nat)
    requires base + Span(k) <= end < base + Span(k + 1)
    ensures var at := base + Span(k); var rest := EventsIn(logs, at + 1, end);
      EventsIn(logs, at, end) == logs(at) + rest &&
      EventsIn(Doubled(logs, base), at, end) == (if k > 0 then logs(at) + logs(at) else logs(at)) + rest
  {
    Between(logs, base, k, base + Span(k) + 1, end);
    IsBoundary(base, k);
  }

  lemma Interchange<T>(a: seq<T>, x: seq<T>, rest: seq<T>)
    ensures a + x + (x + rest) == a + (x + x + rest)
  {
  }

  /** The blocks of window `k`, up to a last one that is not the next boundary. */
  lemma LastWindow(logs: Logs, base: nat, k: nat, end: nat)
    requires base + Span(k) <= end < base + Span(k + 1)
    ensures Scanned(logs, base, k) + EventsIn(logs, base + Span(k), end) == EventsIn(Doubled(logs, base), base, end)
  {
    hide EventsIn, Doubled;
    var d, at := Doubled(logs, base), base + Span(k);
    FirstBlock(logs, base, k, end);
    if k > 0 {
      EventsSplit(d, base, at - 1, end);
      Interchange(EventsIn(d, base, at - 1), logs(at), EventsIn(logs, at + 1, end));
    }
  }

  /** A full window ends with the next boundary block, seen once. */
  lemma FullWindow(logs: Logs, base: nat, k: nat)
    ensures Scanned(logs, base, k) + EventsIn(logs, base + Span(k), base + Span(k + 1)) == Scanned(logs, base, k + 1)
  {
    var at, next := base + Span(k), base + Span(k + 1);
    EventsSplit(logs, at, next - 1, next);
    OneBlock(logs, next);
    LastWindow(logs, base, k, next - 1);
    Associate(Scanned(logs, base, k), EventsIn(logs, at, next - 1), logs(next));
  }
}
