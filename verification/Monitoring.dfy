/** Online latency statistics and packet-loss windows. */
module Monitoring {
  import opened Bytes
  import opened Ring

  const SAMPLE_PERIOD: nat := 5
  const SAMPLES_IN_FIVE_MINUTES: nat := 60
  const LATENCY_HISTORY: nat := 100

  // ------------------------------------------------------------------ latency

  /** The counters; `None` stands for a float that is no longer a finite number. */
  datatype Latency = Latency(count: nat, mean: Option<real>, m2: Option<real>, lowest: Option<real>,
                             lastValue: Option<real>, front: nat, history: seq<real>)

  const ZEROS: seq<real> := Repeat(0.0, LATENCY_HISTORY)

  const FRESH: Latency := Latency(0, Some(0.0), Some(0.0), None, None, 0, ZEROS)

  function ResetLatency(s: Latency): Latency {
    s.(count := 0, mean := Some(0.0), m2 := Some(0.0))
  }

  function Times(a: real, b: real): real { a * b }

  function Over(a: real, n: nat): real requires n > 0 { a / n as real }

  /** Welford's update; a count that wraps to zero divides by zero and leaves no finite number. */
  function Welford(s: Latency, x: real): Latency {
    if s.count + 1 >= U32 then s.(count := 0, mean := None, m2 := None)
    else if s.mean.None? || s.m2.None? then s.(count := s.count + 1, mean := None, m2 := None)
    else
      var n := s.count + 1;
      var delta := x - s.mean.value;
      var mean := s.mean.value + Over(delta, n);
      s.(count := n, mean := Some(mean), m2 := Some(s.m2.value + Times(delta, x - mean)))
  }

  function Lowest(lowest: Option<real>, x: real): Option<real> {
    if lowest.None? || x < lowest.value || lowest.value == 0.0 then Some(x) else lowest
  }

  /** The ring; one that was deserialised empty is filled with zeros first. */
  function Filled(history: seq<real>): seq<real> {
    if history == [] then ZEROS else history
  }

  predicate ValidLatency(s: Latency) {
    s.front < LATENCY_HISTORY && |Filled(s.history)| == LATENCY_HISTORY && s.count < U32
  }

  function Sampled(s: Latency, x: real): (t: Latency)
    requires ValidLatency(s)
    ensures ValidLatency(t)
  {
    Welford(s, x).(lowest := Lowest(s.lowest, x), lastValue := Some(x),
                   history := Filled(s.history)[s.front := x], front := (s.front + 1) % LATENCY_HISTORY)
  }

  class RunningLatencyStats {
    var count: nat
    var mean: Option<real>
    var m2: Option<real>
    var lowest: Option<real>
    var lastValue: Option<real>
    var front: nat
    var history: seq<real>

    ghost function State(): Latency
      reads this
    {
      Latency(count, mean, m2, lowest, lastValue, front, history)
    }

    constructor ()
      ensures State() == FRESH
    {
      count, mean, m2 := 0, Some(0.0), Some(0.0);
      lowest, lastValue, front, history := None, None, 0, ZEROS;
    }

    method Reset()
      modifies this
      ensures State() == ResetLatency(old(State()))
    {
      count, mean, m2 := 0, Some(0.0), Some(0.0);
    }

    /** The first half of `add_sample`: the count and the moments. */
    method Accumulate(sample: real)
      requires count < U32
      modifies this`count, this`mean, this`m2
      ensures State() == Welford(old(State()), sample)
    {
      hide Times, Over;
      if count + 1 < U32 {
        count := count + 1;
      } else {
        count, mean, m2 := 0, Some(0.0), Some(0.0);
      }
      if count == 0 || mean.None? || m2.None? {
        mean, m2 := None, None;
      } else {
        var delta := sample - mean.value;
        mean := Some(mean.value + Over(delta, count));
        var delta2 := sample - mean.value;
        m2 := Some(m2.value + Times(delta, delta2));
      }
    }

    method AddSample(sample: real)
      requires ValidLatency(State())
      modifies this
      ensures State() == Sampled(old(State()), sample)
    {
      hide Welford;
      ghost var before := State();
      Accumulate(sample);
      WelfordFrame(before, sample);
      if history == [] {
        history := ZEROS;
      }
      lastValue := Some(sample);
      if lowest.Some? {
        if sample < lowest.value || lowest.value == 0.0 {
          lowest := Some(sample);
        }
      } else {
        lowest := Some(sample);
      }
      history := history[front := sample];
      front := (front + 1) % LATENCY_HISTORY;
    }
  }

  lemma WelfordFrame(s: Latency, x: real)
    ensures var t := Welford(s, x);
      t.lowest == s.lowest && t.lastValue == s.lastValue && t.front == s.front && t.history == s.history
  {
  }

  /** `get_avg`. */
  function GetAvg(s: Latency): Option<Option<real>> {
    if s.count > 2 then Some(s.mean) else None
  }

  /** `get_std_dev`. */
  function GetStdDev(s: Latency): Option<Option<real>> {
    if s.count > 2 then Some(match s.m2 case Some(v) => Some(v / s.count as real) case None => None) else None
  }

  // ------------------------------------------------------------------ what the counters mean

  /** The state after samples that follow a fresh start or a reset. */
  function After(s: Latency, xs: seq<real>): (t: Latency)
    requires ValidLatency(s)
    ensures ValidLatency(t)
  {
    if xs == [] then s else Sampled(After(s, xs[..|xs| - 1]), xs[|xs| - 1])
  }

  function Sum(xs: seq<real>): real {
    if xs == [] then 0.0 else Sum(xs[..|xs| - 1]) + xs[|xs| - 1]
  }

  function SumSquares(xs: seq<real>): real {
    if xs == [] then 0.0 else SumSquares(xs[..|xs| - 1]) + xs[|xs| - 1] * xs[|xs| - 1]
  }

  /** The sum of squared deviations from `c`. */
  function Deviations(xs: seq<real>, c: real): real {
    if xs == [] then 0.0 else Deviations(xs[..|xs| - 1], c) + (xs[|xs| - 1] - c) * (xs[|xs| - 1] - c)
  }

  function Mean(xs: seq<real>): real {
    if xs == [] then 0.0 else Sum(xs) / |xs| as real
  }

  lemma {:induction false} DeviationsExpand(xs: seq<real>, c: real)
    ensures Deviations(xs, c) == SumSquares(xs) - 2.0 * c * Sum(xs) + |xs| as real * c * c
  {
    if xs != [] {
      var before := xs[..|xs| - 1];
      DeviationsExpand(before, c);
      ExpandStep(SumSquares(before), Sum(before), |before| as real, xs[|xs| - 1], c);
      assert |before| as real + 1.0 == |xs| as real;
    }
  }

  lemma ExpandStep(q: real, s: real, n: real, x: real, c: real)
    ensures q - 2.0 * c * s + n * c * c + (x - c) * (x - c) == q + x * x - 2.0 * c * (s + x) + (n + 1.0) * c * c
  {
    Square(x, c);
    assert 2.0 * c * (s + x) == 2.0 * c * s + 2.0 * c * x;
    assert (n + 1.0) * c * c == n * c * c + c * c;
  }

  lemma Square(x: real, c: real)
    ensures (x - c) * (x - c) == x * x - 2.0 * c * x + c * c
  {
  }

  /** The algebra of one update: `d` is the distance to the old mean and `e` the step of the mean. */
  lemma WelfordAlgebra(q: real, n: real, m: real, d: real, e: real)
    requires (n + 1.0) * e == d
    ensures q + (m + d) * (m + d) - (n + 1.0) * (m + e) * (m + e) == q - n * m * m + d * (d - e)
  {
    assert (m + d) * (m + d) == m * m + 2.0 * m * d + d * d;
    assert (m + e) * (m + e) == m * m + 2.0 * m * e + e * e;
    assert (n + 1.0) * (m + e) * (m + e) == (n + 1.0) * ((m + e) * (m + e));
    assert (n + 1.0) * (m * m + 2.0 * m * e + e * e) ==
           (n + 1.0) * (m * m) + 2.0 * m * ((n + 1.0) * e) + e * ((n + 1.0) * e);
    assert (n + 1.0) * (m * m) == n * m * m + m * m;
  }

  lemma SumIsMean(xs: seq<real>)
    ensures Sum(xs) == |xs| as real * Mean(xs)
  {
  }

  lemma DoubleProduct(m: real, n: real, s: real)
    requires s == n * m
    ensures 2.0 * m * s == 2.0 * (n * m * m)
  {
    assert m * s == m * (n * m) == n * m * m;
  }

  /** Deviations from the mean are the squares less the square of the mean. */
  lemma DeviationsFromMean(xs: seq<real>)
    ensures Deviations(xs, Mean(xs)) == SumSquares(xs) - |xs| as real * Mean(xs) * Mean(xs)
  {
    hide Deviations, Mean, Sum, SumSquares;
    DeviationsExpand(xs, Mean(xs));
    SumIsMean(xs);
    DoubleProduct(Mean(xs), |xs| as real, Sum(xs));
  }

  lemma Append(xs: seq<real>, x: real)
    ensures Sum(xs + [x]) == Sum(xs) + x && SumSquares(xs + [x]) == SumSquares(xs) + x * x
  {
    var ys := xs + [x];
    assert ys[..|ys| - 1] == xs;
  }

  /** The mean moves by the distance of the new sample over the new count. */
  lemma MeanStep(xs: seq<real>, x: real)
    ensures Mean(xs + [x]) == Mean(xs) + (x - Mean(xs)) / (|xs| as real + 1.0)
  {
    var n, m := |xs| as real, Mean(xs);
    SumIsMean(xs);
    Append(xs, x);
    Quotient(n, m, x);
  }

  lemma Quotient(n: real, m: real, x: real)
    requires n >= 0.0
    ensures (n * m + x) / (n + 1.0) == m + (x - m) / (n + 1.0)
  {
    assert n * m + x == (n + 1.0) * m + (x - m);
  }

  lemma Product(n: real, d: real)
    requires n >= 0.0
    ensures (n + 1.0) * (d / (n + 1.0)) == d
  {
  }

  /** One Welford update on exact values. */
  lemma WelfordStep(xs: seq<real>, x: real)
    ensures var m, m' := Mean(xs), Mean(xs + [x]);
      Deviations(xs, m) + Times(x - m, x - m') == Deviations(xs + [x], m')
  {
    hide Deviations, Mean, Sum, SumSquares;
    var n, m := |xs| as real, Mean(xs);
    var d := x - m;
    var e := d / (n + 1.0);
    var ys := xs + [x];
    MeanStep(xs, x);
    DeviationsFromMean(xs);
    DeviationsFromMean(ys);
    Append(xs, x);
    Product(n, d);
    WelfordAlgebra(SumSquares(xs), n, m, d, e);
    assert |ys| as real == n + 1.0;
    assert m + d == x && x - (m + e) == d - e;
  }

  /**
   * Welford correctness: after any samples since a fresh start or a reset the counters are the exact
   * mean and the exact sum of squared deviations, exactly while there are fewer than 2^32 samples.
   */
  lemma {:induction false} WelfordCorrect(s: Latency, xs: seq<real>)
    requires ValidLatency(s) && s.count == 0 && s.mean == Some(0.0) && s.m2 == Some(0.0)
    ensures var t := After(s, xs);
      if |xs| < U32 then t.count == |xs| && t.mean == Some(Mean(xs)) && t.m2 == Some(Deviations(xs, Mean(xs)))
      else t.count == |xs| % U32 && t.mean == None && t.m2 == None
  {
    hide Deviations, Mean, Sum, SumSquares, Times, Welford, Lowest, Filled;
    if xs == [] {
      NoSamples();
    } else {
      var before, x := xs[..|xs| - 1], xs[|xs| - 1];
      WelfordCorrect(s, before);
      assert before + [x] == xs;
      if |xs| < U32 {
        MeanStep(before, x);
        WelfordStep(before, x);
        WelfordIs(After(s, before), x, before);
      } else {
        CountWraps(|xs|);
        WelfordOverflows(After(s, before), x);
      }
    }
  }

  lemma NoSamples()
    ensures Mean([]) == 0.0 && Deviations([], 0.0) == 0.0
  {
  }

  lemma WelfordOverflows(s: Latency, x: real)
    requires s.count < U32
    ensures var t := Welford(s, x);
      t.count == (if s.count + 1 >= U32 then 0 else s.count + 1) &&
      (s.count + 1 >= U32 || s.mean.None? ==> t.mean.None? && t.m2.None?)
  {
  }

  lemma WelfordIs(s: Latency, x: real, before: seq<real>)
    requires s.count == |before| && s.count + 1 < U32 && s.mean.Some? && s.m2.Some?
    ensures var t := Welford(s, x); var m := s.mean.value;
      t.count == s.count + 1 && t.mean.Some? && t.m2.Some? &&
      t.mean.value == m + (x - m) / (|before| as real + 1.0) &&
      t.m2.value == s.m2.value + Times(x - m, x - t.mean.value)
  {
    assert (s.count + 1) as real == |before| as real + 1.0;
  }

  lemma CountWraps(n: nat)
    requires n >= U32
    ensures n % U32 == if (n - 1) % U32 + 1 >= U32 then 0 else (n - 1) % U32 + 1
  {
    assert n - 1 == U32 * ((n - 1) / U32) + (n - 1) % U32;
  }

  /** So the getters give the mean and the population variance since the last reset, from the third sample on. */
  lemma GettersCorrect(s: Latency, xs: seq<real>)
    requires ValidLatency(s) && |xs| < U32
    ensures var t := After(ResetLatency(s), xs);
      if |xs| <= 2 then GetAvg(t) == None && GetStdDev(t) == None
      else
        GetAvg(t) == Some(Some(Sum(xs) / |xs| as real)) &&
        GetStdDev(t) == Some(Some(Deviations(xs, Mean(xs)) / |xs| as real))
  {
    WelfordCorrect(ResetLatency(s), xs);
  }

  // ------------------------------------------------------------------ the lowest value

  function MinOf(xs: seq<real>): real
    requires xs != []
  {
    if |xs| == 1 then xs[0]
    else
      var m := MinOf(xs[..|xs| - 1]);
      if xs[|xs| - 1] < m then xs[|xs| - 1] else m
  }

  /** What happens to the object: samples and resets. */
  datatype Event = Sample(x: real) | Reset

  function Replay(s: Latency, es: seq<Event>): (t: Latency)
    requires ValidLatency(s)
    ensures ValidLatency(t)
  {
    if es == [] then s
    else
      var before := Replay(s, es[..|es| - 1]);
      match es[|es| - 1] case Sample(x) => Sampled(before, x) case Reset => ResetLatency(before)
  }

  function Samples(es: seq<Event>): seq<real> {
    if es == [] then []
    else Samples(es[..|es| - 1]) + (match es[|es| - 1] case Sample(x) => [x] case Reset => [])
  }

  /**
   * Across resets, the lowest value is the minimum ever seen, except exactly when that minimum is zero
   * and the latest sample is above it: then the zero was taken for an unset value.
   */
  lemma {:induction false} LowestIff(s: Latency, es: seq<Event>)
    requires ValidLatency(s) && s.lowest == None && Samples(es) != []
    ensures var xs := Samples(es);
      Replay(s, es).lowest.Some? &&
      (Replay(s, es).lowest.value == MinOf(xs) <==> !(MinOf(xs) == 0.0 && xs[|xs| - 1] > 0.0)) &&
      (MinOf(xs) == 0.0 && xs[|xs| - 1] > 0.0 ==> Replay(s, es).lowest.value > 0.0)
  {
    var before := es[..|es| - 1];
    match es[|es| - 1]
    case Reset =>
      assert Samples(before) + [] == Samples(before);
      LowestIff(s, before);
    case Sample(x) =>
      var xs := Samples(es);
      assert xs[..|xs| - 1] == Samples(before);
      if Samples(before) == [] {
        NoLowest(s, before);
      } else {
        LowestIff(s, before);
      }
  }

  lemma {:induction false} NoLowest(s: Latency, es: seq<Event>)
    requires ValidLatency(s) && Samples(es) == []
    ensures Replay(s, es).lowest == s.lowest
  {
    if es != [] {
      NoLowest(s, es[..|es| - 1]);
    }
  }

  /** The last value is the latest sample, across resets. */
  lemma {:induction false} LastSeen(es: seq<Event>)
    ensures var xs := Samples(es);
      Replay(FRESH, es).lastValue == if xs == [] then None else Some(xs[|xs| - 1])
  {
    hide Welford, Lowest, Repeat;
    if es != [] {
      LastSeen(es[..|es| - 1]);
    }
  }

  /** The latency ring holds the last 100 samples, oldest first from its front, across resets. */
  lemma {:induction false} LatencyRing(es: seq<Event>)
    ensures var t := Replay(FRESH, es);
      |t.history| == LATENCY_HISTORY && Unrolled(t.history, t.front) == Window(Samples(es), LATENCY_HISTORY, 0.0)
  {
    hide Repeat, Welford, Lowest;
    if es == [] {
      assert Unrolled(ZEROS, 0) == ZEROS;
      assert Window([], LATENCY_HISTORY, 0.0) == ZEROS;
    } else {
      hide Unrolled, Window;
      var before := es[..|es| - 1];
      LatencyRing(before);
      var t := Replay(FRESH, before);
      if es[|es| - 1].Sample? {
        PushUnrolled(t.history, t.front, es[|es| - 1].x);
        WindowAppend(Samples(before), LATENCY_HISTORY, 0.0, es[|es| - 1].x);
      } else {
        assert Samples(before) + [] == Samples(before);
      }
    }
  }

  // ------------------------------------------------------------------ packet loss

  predicate BitSet(sample: bv16, k: nat)
    requires k < 16
  {
    (sample >> k) & 1 == 1
  }

  /** The set bits among the `n` most significant ones. */
  function TopBits(sample: bv16, n: nat): set<nat>
    requires n <= 16
  {
    set k: nat | 16 - n <= k < 16 && BitSet(sample, k)
  }

  function MaskAt(i: nat): bv16 requires i < 16 { (1 as bv16) << i }

  function Masked(sample: bv16, mask: bv16, i: nat): nat requires i < 16 { ((sample & mask) >> i) as nat }

  function Halved(mask: bv16): bv16 { mask >> 1 }

  /** `get_first_n_set_bits`; it asserts `n <= 16`. */
  method GetFirstNSetBits(sample: bv16, n: nat) returns (total: nat)
    requires n <= 16
    ensures total == |TopBits(sample, n)| && total <= n
  {
    hide BitSet, MaskAt, Masked, Halved;
    TopMask();
    var mask: bv16 := 0x8000;
    total := 0;
    var i := 16;
    while i > 16 - n
      invariant 16 - n <= i <= 16
      invariant i > 0 ==> mask == MaskAt(i - 1)
      invariant total == |TopBits(sample, 16 - i)| <= 16 - i
    {
      i := i - 1;
      MaskedBit(sample, i);
      total := total + Masked(sample, mask, i);
      assert TopBits(sample, 16 - i) == TopBits(sample, 15 - i) + (if BitSet(sample, i) then {i} else {});
      if i > 0 {
        HalveMask(i);
      }
      mask := Halved(mask);
    }
  }

  lemma TopMask()
    ensures MaskAt(15) == 0x8000
  {
  }

  lemma MaskedBit(sample: bv16, i: nat)
    requires i < 16
    ensures Masked(sample, MaskAt(i), i) == if BitSet(sample, i) then 1 else 0
  {
    ShiftedBit(sample, i);
    var b := (sample >> i) & 1;
    assert b == 0 || b == 1;
  }

  lemma ShiftedBit(sample: bv16, i: nat)
    requires i < 16
    ensures (sample & ((1 as bv16) << i)) >> i == (sample >> i) & 1
  {
  }

  lemma HalveMask(i: nat)
    requires 0 < i < 16
    ensures Halved(MaskAt(i)) == MaskAt(i - 1)
  {
  }

  /** The packets a sample reports as lost: the missing ones among its five most recent. */
  function Lost(sample: bv16): (n: nat)
    ensures n <= SAMPLE_PERIOD
  {
    TopBitsBound(sample);
    SAMPLE_PERIOD - |TopBits(sample, SAMPLE_PERIOD)|
  }

  lemma TopBitsBound(sample: bv16)
    ensures |TopBits(sample, SAMPLE_PERIOD)| <= SAMPLE_PERIOD
  {
    assert TopBits(sample, SAMPLE_PERIOD) <= {11, 12, 13, 14, 15};
    SubsetBound(TopBits(sample, SAMPLE_PERIOD), {11, 12, 13, 14, 15});
  }

  lemma SubsetBound(a: set<nat>, b: set<nat>)
    requires a <= b
    ensures |a| <= |b|
  {
    assert b == a + (b - a);
  }

  datatype Loss = Loss(ring: seq<nat>, front: nat, packets: nat, lost: nat)

  const NO_LOSS: Loss := Loss(Repeat(0, SAMPLES_IN_FIVE_MINUTES), 0, 0, 0)

  function FilledLoss(ring: seq<nat>): seq<nat> {
    if ring == [] then Repeat(0, SAMPLES_IN_FIVE_MINUTES) else ring
  }

  predicate ValidLoss(s: Loss) {
    s.front < SAMPLES_IN_FIVE_MINUTES && |FilledLoss(s.ring)| == SAMPLES_IN_FIVE_MINUTES &&
    s.lost <= s.packets < U32 && forall i :: 0 <= i < |s.ring| ==> s.ring[i] <= SAMPLE_PERIOD
  }

  /** The two checked additions: an overflow of either counter clears both. */
  function Totals(s: Loss, lost: nat): (nat, nat) {
    var (packets, total) := if s.lost + lost < U32 then (s.packets, s.lost + lost) else (0, 0);
    if packets + SAMPLE_PERIOD < U32 then (packets + SAMPLE_PERIOD, total) else (0, 0)
  }

  function LossSampled(s: Loss, sample: bv16): (t: Loss)
    requires ValidLoss(s)
    ensures ValidLoss(t)
  {
    var (packets, total) := Totals(s, Lost(sample));
    Loss(FilledLoss(s.ring)[s.front := Lost(sample)], (s.front + 1) % SAMPLES_IN_FIVE_MINUTES, packets, total)
  }

  class RunningPacketLossStats {
    var fiveMinuteLoss: seq<nat>
    var front: nat
    var totalPackets: nat
    var totalLost: nat

    ghost function State(): Loss
      reads this
    {
      Loss(fiveMinuteLoss, front, totalPackets, totalLost)
    }

    constructor ()
      ensures State() == NO_LOSS
    {
      fiveMinuteLoss, front, totalPackets, totalLost := Repeat(0, SAMPLES_IN_FIVE_MINUTES), 0, 0, 0;
    }

    method AddSample(sample: bv16)
      requires ValidLoss(State())
      modifies this
      ensures State() == LossSampled(old(State()), sample)
    {
      if fiveMinuteLoss == [] {
        fiveMinuteLoss := Repeat(0, SAMPLES_IN_FIVE_MINUTES);
      }
      var received := GetFirstNSetBits(sample, SAMPLE_PERIOD);
      var lostPackets := SAMPLE_PERIOD - received;
      assert lostPackets == Lost(sample);
      if totalLost + lostPackets < U32 {
        totalLost := totalLost + lostPackets;
      } else {
        totalPackets, totalLost := 0, 0;
      }
      if totalPackets + SAMPLE_PERIOD < U32 {
        totalPackets := totalPackets + SAMPLE_PERIOD;
      } else {
        totalPackets, totalLost := 0, 0;
      }
      fiveMinuteLoss := fiveMinuteLoss[front := lostPackets];
      front := (front + 1) % SAMPLES_IN_FIVE_MINUTES;
    }

    /** `get_five_min_average`. */
    method GetFiveMinAverage() returns (avg: real)
      requires ValidLoss(State())
      ensures avg == SumNat(fiveMinuteLoss) as real / 300.0 && 0.0 <= avg <= 1.0
    {
      var sum := 0;
      var i := 0;
      while i < |fiveMinuteLoss|
        invariant 0 <= i <= |fiveMinuteLoss| && sum == SumNat(fiveMinuteLoss[..i])
      {
        assert fiveMinuteLoss[..i + 1][..i] == fiveMinuteLoss[..i];
        sum := sum + fiveMinuteLoss[i];
        i := i + 1;
      }
      assert fiveMinuteLoss[..i] == fiveMinuteLoss;
      SumBound(fiveMinuteLoss, SAMPLE_PERIOD);
      avg := sum as real / (SAMPLES_IN_FIVE_MINUTES * SAMPLE_PERIOD) as real;
    }
  }

  function SumNat(xs: seq<nat>): nat {
    if xs == [] then 0 else SumNat(xs[..|xs| - 1]) + xs[|xs| - 1]
  }

  lemma {:induction false} SumBound(xs: seq<nat>, bound: nat)
    requires forall i :: 0 <= i < |xs| ==> xs[i] <= bound
    ensures SumNat(xs) <= bound * |xs|
  {
    if xs != [] {
      SumBound(xs[..|xs| - 1], bound);
    }
  }

  function LossAfter(samples: seq<bv16>): (t: Loss)
    ensures ValidLoss(t)
  {
    if samples == [] then NO_LOSS else LossSampled(LossAfter(samples[..|samples| - 1]), samples[|samples| - 1])
  }

  function Losses(samples: seq<bv16>): seq<nat> {
    if samples == [] then [] else Losses(samples[..|samples| - 1]) + [Lost(samples[|samples| - 1])]
  }

  /** The ring holds exactly the losses of the last 60 samples, padded with zeros, after any run. */
  lemma {:induction false} LossRing(samples: seq<bv16>)
    ensures var t := LossAfter(samples);
      |t.ring| == SAMPLES_IN_FIVE_MINUTES &&
      Unrolled(t.ring, t.front) == Window(Losses(samples), SAMPLES_IN_FIVE_MINUTES, 0)
  {
    hide Repeat;
    if samples == [] {
      var zeros: seq<nat> := Repeat(0, SAMPLES_IN_FIVE_MINUTES);
      assert Unrolled(zeros, 0) == zeros;
      assert Window<nat>([], SAMPLES_IN_FIVE_MINUTES, 0) == zeros;
    } else {
      hide Lost, Unrolled, Window;
      var before, x := samples[..|samples| - 1], samples[|samples| - 1];
      LossRing(before);
      var t := LossAfter(before);
      PushUnrolled(t.ring, t.front, Lost(x));
      WindowAppend(Losses(before), SAMPLES_IN_FIVE_MINUTES, 0, Lost(x));
    }
  }

  /** The packets lost in the samples from number `k` on. */
  function LostSince(samples: seq<bv16>, k: nat): nat
    requires k <= |samples|
  {
    SumNat(Losses(samples[k..]))
  }

  lemma LostSinceStep(samples: seq<bv16>, k: nat)
    ensures LostSince(samples, |samples|) == 0
    ensures k < |samples| ==>
      var n := |samples| - 1; LostSince(samples, k) == LostSince(samples[..n], k) + Lost(samples[n])
  {
    hide Lost;
    if k < |samples| {
      var n, s := |samples| - 1, samples[k..];
      assert s[..|s| - 1] == samples[..n][k..];
      var ls := Losses(s);
      assert ls[..|ls| - 1] == Losses(s[..|s| - 1]);
    }
  }

  lemma LossStep(samples: seq<bv16>)
    ensures samples == [] ==> LossAfter(samples).packets == 0 && LossAfter(samples).lost == 0
    ensures samples != [] ==>
      var t, u, n := LossAfter(samples[..|samples| - 1]), LossAfter(samples), |samples| - 1;
      (u.packets, u.lost) == Totals(t, Lost(samples[n]))
  {
    hide Lost, Repeat;
  }

  /** Sample `k` overflowed the loss counter. */
  predicate LossOverflows(samples: seq<bv16>, k: nat)
    requires k < |samples|
  {
    LossAfter(samples[..k]).lost + Lost(samples[k]) >= U32
  }

  /**
   * The counters cover the samples since the last overflow cleared them, all samples before the first
   * one; exactly when it was the loss counter that sample `k` overflowed, that sample counts as received.
   */
  lemma {:induction false} LossTotals(samples: seq<bv16>) returns (k: nat)
    ensures var t, n := LossAfter(samples), |samples|;
      k <= n && t.packets == SAMPLE_PERIOD * (n - k) &&
      t.lost == LostSince(samples, if k < n && LossOverflows(samples, k) then k + 1 else k) &&
      (SAMPLE_PERIOD * n < U32 ==> k == 0 && t.lost == LostSince(samples, 0)) &&
      (k > 0 ==> SAMPLE_PERIOD * k + SAMPLE_PERIOD >= U32)
  {
    hide Lost, LossAfter, LostSince;
    k := 0;
    LossStep(samples);
    LostSinceStep(samples, 0);
    if samples != [] {
      var n := |samples| - 1;
      var before, lost := samples[..n], Lost(samples[n]);
      k := LossTotals(before);
      var t := LossAfter(before);
      LostSinceStep(samples, k);
      LostSinceStep(samples, k + 1);
      if k < n {
        assert samples[..k] == before[..k];
      } else {
        LossStep(samples[..k]);
      }
      if t.lost + lost >= U32 {
        k := n;
      } else if t.packets + SAMPLE_PERIOD >= U32 {
        k := n + 1;
      }
    }
  }

  lemma NoBitsLost()
    ensures Lost(0) == SAMPLE_PERIOD
  {
    forall k: nat | k < 16 ensures !BitSet(0, k) {
      ZeroBit(k);
    }
    assert TopBits(0, SAMPLE_PERIOD) == {};
  }

  lemma ZeroBit(k: nat)
    requires k < 16
    ensures ((0 as bv16) >> k) & 1 == 0
  {
  }

  lemma {:induction false} AllLost(samples: seq<bv16>)
    requires forall i :: 0 <= i < |samples| ==> samples[i] == 0
    ensures LostSince(samples, 0) == SAMPLE_PERIOD * |samples|
  {
    hide Lost, LostSince;
    LostSinceStep(samples, 0);
    if samples != [] {
      AllLost(samples[..|samples| - 1]);
      NoBitsLost();
    }
  }

  /** When nothing ever arrives the 858993460th sample is that case: five packets, and none of them lost. */
  lemma LossOverflowExample(samples: seq<bv16>)
    requires |samples| == 858993460 && forall i :: 0 <= i < |samples| ==> samples[i] == 0
    ensures LossAfter(samples).packets == SAMPLE_PERIOD && LossAfter(samples).lost == 0
  {
    hide Lost, LossAfter, LostSince;
    var before := samples[..|samples| - 1];
    var k := LossTotals(before);
    AllLost(before);
    NoBitsLost();
    LossStep(samples);
  }

  lemma {:induction false} SumAppend(a: seq<nat>, b: seq<nat>)
    ensures SumNat(a + b) == SumNat(a) + SumNat(b)
    decreases |b|
  {
    if b == [] {
      assert a + b == a;
    } else {
      assert (a + b)[..|a + b| - 1] == a + b[..|b| - 1];
      SumAppend(a, b[..|b| - 1]);
    }
  }

  /** So the five-minute sum is the number of packets lost in the last 60 samples. */
  lemma FiveMinuteSum(samples: seq<bv16>)
    ensures SumNat(LossAfter(samples).ring) == SumNat(Window(Losses(samples), SAMPLES_IN_FIVE_MINUTES, 0))
  {
    hide LossAfter, Losses, Window;
    LossRing(samples);
    var t := LossAfter(samples);
    SumAppend(t.ring[t.front..], t.ring[..t.front]);
    SumAppend(t.ring[..t.front], t.ring[t.front..]);
    assert t.ring[..t.front] + t.ring[t.front..] == t.ring;
  }
}
