/** Decoding the array of exits: dynamic tuples that each hold two dynamic arrays. */
module ExitAbi {
  import opened Bytes
  import opened Identities
  import opened Abi

  /** The last bytes of the words from `lo` on, before `hi`, as regions. */
  function RegionsIn(words: seq<Word>, lo: nat, hi: nat): set<Region> {
    set i | lo <= i < hi && i < |words| && |words[i]| == WORD_SIZE :: RegionOf(words[i][31])
  }

  function ChainsIn(words: seq<Word>, lo: nat, hi: nat): set<SystemChain> {
    set i | lo <= i < hi && i < |words| && |words[i]| == WORD_SIZE :: ChainOf(words[i][31])
  }

  /** Some word of the range is too short to be indexed. */
  predicate ShortIn(words: seq<Word>, lo: nat, hi: nat) {
    exists i :: lo <= i < hi && i < |words| && |words[i]| < WORD_SIZE
  }

  /** A length word: `Err` when it lies outside, a panic when it is cut short. */
  function LengthAt(words: seq<Word>, at: nat): Outcome<nat, DbError>
    requires forall i :: 0 <= i < |words| ==> |words[i]| <= WORD_SIZE
  {
    if at >= |words| then Err(BadInput)
    else if |words[at]| < WORD_SIZE then Panic
    else Ok(LowU64(words[at]))
  }

  /** Where `take(len + start + 1)` ends. */
  function ArrayEnd(words: seq<Word>, start: nat, len: nat): nat {
    Min(|words|, Low64(len + start + 1))
  }

  /** `parse_exit_identity_abi`, on words of at most 32 bytes. */
  function ParseExit(words: seq<Word>): Outcome<ExitIdentity, DbError>
    requires forall i :: 0 <= i < |words| ==> |words[i]| <= WORD_SIZE
  {
    if |words| < 9 then Err(BadInput)
    else match ParseIdentity(words[0..3])
      case Panic => Panic
      case Err(e) => Err(e)
      case Ok(id) =>
        var regionsStart, paymentStart := WordOffset(words[5]), WordOffset(words[6]);
        match LengthAt(words, regionsStart)
        case Panic => Panic
        case Err(e) => Err(e)
        case Ok(regionsLen) =>
          match LengthAt(words, paymentStart)
          case Panic => Panic
          case Err(e) => Err(e)
          case Ok(paymentLen) =>
            var regionsEnd := ArrayEnd(words, regionsStart, regionsLen);
            var paymentEnd := ArrayEnd(words, paymentStart, paymentLen);
            if |words| < Low64(9 + regionsLen + paymentLen) then Err(BadLength)
            else if ShortIn(words, regionsStart + 1, regionsEnd) then Panic
            else if ShortIn(words, paymentStart + 1, paymentEnd) then Panic
            else Ok(ExitIdentity(id.meshIp, id.wgPublicKey, id.ethAddress, LowU16(words[3]), LowU16(words[4]),
                                 RegionsIn(words, regionsStart + 1, regionsEnd),
                                 ChainsIn(words, paymentStart + 1, paymentEnd)))
  }

  method CollectRegions(words: seq<Word>, lo: nat, hi: nat) returns (ok: bool, regions: set<Region>)
    requires hi <= |words| && forall i :: 0 <= i < |words| ==> |words[i]| <= WORD_SIZE
    ensures ok <==> !ShortIn(words, lo, hi)
    ensures ok ==> regions == RegionsIn(words, lo, hi)
  {
    regions := {};
    var i := lo;
    while i < hi
      invariant lo <= i && (if lo <= hi then i <= hi else i == lo) && !ShortIn(words, lo, i)
      invariant regions == RegionsIn(words, lo, i)
    {
      if |words[i]| < WORD_SIZE {
        return false, regions;
      }
      regions := regions + {RegionOf(words[i][31])};
      i := i + 1;
    }
    assert RegionsIn(words, lo, i) == RegionsIn(words, lo, hi);
    return true, regions;
  }

  method CollectChains(words: seq<Word>, lo: nat, hi: nat) returns (ok: bool, chains: set<SystemChain>)
    requires hi <= |words| && forall i :: 0 <= i < |words| ==> |words[i]| <= WORD_SIZE
    ensures ok <==> !ShortIn(words, lo, hi)
    ensures ok ==> chains == ChainsIn(words, lo, hi)
  {
    chains := {};
    var i := lo;
    while i < hi
      invariant lo <= i && (if lo <= hi then i <= hi else i == lo) && !ShortIn(words, lo, i)
      invariant chains == ChainsIn(words, lo, i)
    {
      if |words[i]| < WORD_SIZE {
        return false, chains;
      }
      chains := chains + {ChainOf(words[i][31])};
      i := i + 1;
    }
    assert ChainsIn(words, lo, i) == ChainsIn(words, lo, hi);
    return true, chains;
  }

  method ParseExitIdentity(words: seq<Word>) returns (r: Outcome<ExitIdentity, DbError>)
    requires forall i :: 0 <= i < |words| ==> |words[i]| <= WORD_SIZE
    ensures r == ParseExit(words)
  {
    hide ParseIdentity, LengthAt, RegionsIn, ChainsIn, ShortIn, WordOffset, LowU16;
    if |words| < 9 {
      return Err(BadInput);
    }
    var id := ParseIdentity(words[0..3]);
    if !id.Ok? {
      return if id.Panic? then Panic else Err(id.error);
    }
    var registrationPort, listenPort := LowU16(words[3]), LowU16(words[4]);
    var regionsStart, paymentStart := WordOffset(words[5]), WordOffset(words[6]);
    var regionsLen := LengthAt(words, regionsStart);
    if !regionsLen.Ok? {
      return if regionsLen.Panic? then Panic else Err(regionsLen.error);
    }
    var paymentLen := LengthAt(words, paymentStart);
    if !paymentLen.Ok? {
      return if paymentLen.Panic? then Panic else Err(paymentLen.error);
    }
    if |words| < Low64(9 + regionsLen.value + paymentLen.value) {
      return Err(BadLength);
    }
    var ok, regions := CollectRegions(words, regionsStart + 1, ArrayEnd(words, regionsStart, regionsLen.value));
    if !ok {
      return Panic;
    }
    var ok', chains := CollectChains(words, paymentStart + 1, ArrayEnd(words, paymentStart, paymentLen.value));
    if !ok' {
      return Panic;
    }
    return Ok(ExitIdentity(id.value.meshIp, id.value.wgPublicKey, id.value.ethAddress, registrationPort, listenPort,
                           regions, chains));
  }

  /** The entries announced by the head words `i` to `end`; unreadable ones are skipped. */
  function ParseExitsFrom(words: seq<Word>, i: nat, end: nat): (r: Outcome<seq<ExitIdentity>, DbError>)
    requires forall i :: 0 <= i < |words| ==> |words[i]| <= WORD_SIZE
    decreases end - i
  {
    if i >= end then Ok([])
    else if i >= |words| then Err(BadInput)
    else
      var at := Low64(2 + WordOffset(words[i]));
      if at > |words| then ParseExitsFrom(words, i + 1, end)
      else match ParseExit(words[at..])
        case Panic => Panic
        case Err(_) => ParseExitsFrom(words, i + 1, end)
        case Ok(exit) => Prepend([exit], ParseExitsFrom(words, i + 1, end))
  }

  function Prepend<T>(before: seq<T>, r: Outcome<seq<T>, DbError>): Outcome<seq<T>, DbError> {
    match r case Ok(after) => Ok(before + after) case failed => failed
  }

  /** `parse_exit_identity_array_abi` after the split into words; the loop bound wraps like `usize`. */
  function ParseExits(words: seq<Word>): Outcome<seq<ExitIdentity>, DbError>
    requires forall i :: 0 <= i < |words| ==> |words[i]| <= WORD_SIZE
    requires forall i :: 0 <= i < |words| - 1 ==> |words[i]| == WORD_SIZE
  {
    if |words| == 2 then Ok([])
    else if |words| < 11 then Err(BadInput)
    else ParseExitsFrom(words, 2, Low64(2 + LowU64(words[1])))
  }

  method ParseExitIdentityArray(input: seq<byte>) returns (r: Outcome<seq<ExitIdentity>, DbError>)
    ensures r == ParseExits(ToWords(input))
  {
    hide ParseExit, ToWords, WordOffset, LowU64;
    var words := ToWords(input);
    if |words| == 2 {
      return Ok([]);
    }
    if |words| < 11 {
      return Err(BadInput);
    }
    var end := Low64(2 + LowU64(words[1]));
    ghost var goal := ParseExitsFrom(words, 2, end);
    var ret: seq<ExitIdentity> := [];
    PrependNothing(goal);
    var i := 2;
    while i < end
      invariant 2 <= i && goal == Prepend(ret, ParseExitsFrom(words, i, end))
    {
      if i >= |words| {
        return Err(BadInput);
      }
      var at := Low64(2 + WordOffset(words[i]));
      if at <= |words| {
        var parsed := ParseExitIdentity(words[at..]);
        if parsed.Panic? {
          return Panic;
        }
        if parsed.Ok? {
          PrependTwice(ret, [parsed.value], ParseExitsFrom(words, i + 1, end));
          ret := ret + [parsed.value];
        }
      }
      i := i + 1;
    }
    assert ret + [] == ret;
    return Ok(ret);
  }

  lemma PrependNothing<T>(r: Outcome<seq<T>, DbError>)
    ensures Prepend([], r) == r
  {
    if r.Ok? {
      assert [] + r.value == r.value;
    }
  }

  lemma PrependTwice<T>(a: seq<T>, b: seq<T>, r: Outcome<seq<T>, DbError>)
    ensures Prepend(a, Prepend(b, r)) == Prepend(a + b, r)
  {
    if r.Ok? {
      assert a + (b + r.value) == a + b + r.value;
    }
  }

  // ------------------------------------------------------------------ frame lemma

  /** The array with its length at `start` reaches the last word. */
  predicate Covers(words: seq<Word>, start: nat, len: nat) {
    start < |words| - 1 < Low64(len + start + 1)
  }

  /**
   * Data that is cut inside its last word, in an entry with a nonzero address: a length is looked up in
   * that word, or both lengths pass the test and one of the arrays reaches it.
   */
  ghost predicate CutExit(words: seq<Word>)
    requires Split(words)
  {
    |words| >= 9 && |words[|words| - 1]| < WORD_SIZE && FromBytes(words[0][16..32]) != 0 &&
    var last, regions, payments := |words| - 1, WordOffset(words[5]), WordOffset(words[6]);
    regions == last ||
    (regions < last && payments == last) ||
    (regions < last && payments < last &&
     var n, k := LowU64(words[regions]), LowU64(words[payments]);
     Low64(9 + n + k) <= |words| && (Covers(words, regions, n) || Covers(words, payments, k)))
  }

  /** Only the last word can be too short. */
  lemma ShortIff(words: seq<Word>, start: nat, len: nat)
    requires Split(words) && words != [] && |words[|words| - 1]| < WORD_SIZE
    ensures ShortIn(words, start + 1, ArrayEnd(words, start, len)) <==> Covers(words, start, len)
  {
    hide Low64;
    if Covers(words, start, len) {
      assert start + 1 <= |words| - 1 < ArrayEnd(words, start, len);
    }
  }

  lemma NoneShort(words: seq<Word>, lo: nat, hi: nat)
    requires Whole(words)
    ensures !ShortIn(words, lo, hi)
  {
  }

  lemma IdentityPanics(words: seq<Word>)
    requires Split(words) && |words| >= 9
    ensures !ParseIdentity(words[0..3]).Panic?
    ensures ParseIdentity(words[0..3]).Ok? <==> FromBytes(words[0][16..32]) != 0
  {
    hide FromBytes, ToBytes;
    assert words[0..3][0] == words[0] && words[0..3][2] == words[2];
  }

  /** One entry aborts the decoder exactly when the data is cut where the entry needs it. */
  lemma ExitPanicsIff(words: seq<Word>)
    requires Split(words)
    ensures ParseExit(words).Panic? <==> CutExit(words)
  {
    if |words| >= 9 {
      hide ParseIdentity, FromBytes, ShortIn, Covers, ArrayEnd, RegionsIn, ChainsIn, LowU64, LowU16, WordOffset, Low64;
      IdentityPanics(words);
      var regions, payments := WordOffset(words[5]), WordOffset(words[6]);
      if |words[|words| - 1]| < WORD_SIZE {
        if regions < |words| - 1 && payments < |words| - 1 {
          ShortIff(words, regions, LowU64(words[regions]));
          ShortIff(words, payments, LowU64(words[payments]));
        }
      } else if regions < |words| && payments < |words| {
        NoneShort(words, regions + 1, ArrayEnd(words, regions, LowU64(words[regions])));
        NoneShort(words, payments + 1, ArrayEnd(words, payments, LowU64(words[payments])));
      }
    }
  }

  /** The head word `k` points at an entry that is cut. */
  ghost predicate PointsAtCut(words: seq<Word>, k: nat)
    requires Split(words) && k < |words|
  {
    var at := Low64(2 + WordOffset(words[k]));
    at <= |words| && CutExit(words[at..])
  }

  lemma {:induction false} EntriesPanicIff(words: seq<Word>, i: nat, end: nat)
    requires Split(words)
    ensures ParseExitsFrom(words, i, end).Panic? <==> exists k :: i <= k < end && k < |words| && PointsAtCut(words, k)
    decreases end - i
  {
    hide ParseExit, CutExit, WordOffset, Low64;
    if i < end && i < |words| {
      var at := Low64(2 + WordOffset(words[i]));
      if at <= |words| {
        ExitPanicsIff(words[at..]);
      }
      EntriesPanicIff(words, i + 1, end);
      assert ParseExitsFrom(words, i, end).Panic? <==>
        PointsAtCut(words, i) || ParseExitsFrom(words, i + 1, end).Panic?;
    }
  }

  /**
   * On arbitrary bytes the exit decoder aborts exactly when one of the announced head words points at an
   * entry that is cut.
   */
  lemma ExitsPanicIff(input: seq<byte>)
    ensures var words := ToWords(input);
      ParseExits(words).Panic? <==>
      |words| >= 11 &&
      exists k :: 2 <= k < Low64(2 + LowU64(words[1])) && k < |words| && PointsAtCut(words, k)
  {
    hide PointsAtCut, ParseExitsFrom, Low64, LowU64, ToWords;
    var words := ToWords(input);
    if |words| >= 11 {
      EntriesPanicIff(words, 2, Low64(2 + LowU64(words[1])));
    }
  }

  /** So it never aborts on whole words, whatever lengths and offsets they announce. */
  lemma ExitsNeverAbort(input: seq<byte>)
    ensures ParseExits(ToWords(input)).Panic? ==> |input| % WORD_SIZE != 0
  {
    hide CutExit, ParseExits, LowU64, WordOffset, Low64, ToWords;
    var words := ToWords(input);
    ExitsPanicIff(input);
    if |input| % WORD_SIZE == 0 {
      WholeWords(input);
      forall k: nat | k < |words| ensures !PointsAtCut(words, k) {
        var at := Low64(2 + WordOffset(words[k]));
        if at <= |words| {
          WholeIsNotCut(words[at..]);
        }
      }
    }
  }

  lemma WholeIsNotCut(words: seq<Word>)
    requires Whole(words)
    ensures !CutExit(words)
  {
  }

  /** Eleven words, the last one of a single byte, announcing one entry whose regions would lie there. */
  const CUT: seq<Word> :=
    [NumberWord(32), NumberWord(1), NumberWord(1), NumberWord(0), NumberWord(0), NumberWord(0), NumberWord(0),
     NumberWord(256), NumberWord(0), NumberWord(0), [0]]

  /** A concrete input on which the decoder aborts. */
  lemma ExitsAbortExample()
    ensures ParseExits(ToWords(Concat(CUT))).Panic?
  {
    hide ParseExits, CutExit, NumberWord, Concat, ToWords;
    WordsOfConcat(CUT);
    ExitsPanicIff(Concat(CUT));
    NumberLow(1);
    CutEntryExample();
    assert PointsAtCut(CUT, 2);
  }

  lemma CutEntryExample()
    ensures Split(CUT) && WordOffset(CUT[2]) == 0 && CutExit(CUT[2..])
  {
    hide NumberWord;
    NumberMesh(1);
    NumberValue(1);
    OffsetReads(8);
  }

  /** Both dynamic arrays of the entry lie inside its words. */
  ghost predicate Contained(words: seq<Word>) {
    |words| >= 9 && Whole(words) &&
    var r, p := WordOffset(words[5]), WordOffset(words[6]);
    r < |words| && p < |words| && r + 1 + LowU64(words[r]) <= |words| && p + 1 + LowU64(words[p]) <= |words|
  }

  /** An entry that contains its arrays decodes the same whatever words follow it. */
  lemma TrailingWordsIgnored(words: seq<Word>, tail: seq<Word>)
    requires Contained(words) && ParseExit(words).Ok?
    requires |words| + |tail| < U64 && forall i :: 0 <= i < |tail| ==> |tail[i]| <= WORD_SIZE
    ensures ParseExit(words + tail) == ParseExit(words)
  {
    hide ParseIdentity, RegionsIn, ChainsIn, ShortIn, WordOffset, LowU16, LowU64;
    var all := words + tail;
    assert all[0..3] == words[0..3];
    assert forall i :: 0 <= i < |words| ==> all[i] == words[i];
    var r, p := WordOffset(words[5]), WordOffset(words[6]);
    SameRange(words, tail, r + 1, r + 1 + LowU64(words[r]));
    SameRange(words, tail, p + 1, p + 1 + LowU64(words[p]));
  }

  lemma SameRange(words: seq<Word>, tail: seq<Word>, lo: nat, hi: nat)
    requires lo <= hi <= |words|
    ensures RegionsIn(words + tail, lo, hi) == RegionsIn(words, lo, hi)
    ensures ChainsIn(words + tail, lo, hi) == ChainsIn(words, lo, hi)
    ensures ShortIn(words + tail, lo, hi) <==> ShortIn(words, lo, hi)
  {
    var all := words + tail;
    assert forall i :: lo <= i < hi ==> all[i] == words[i];
    if ShortIn(words, lo, hi) {
      var i :| lo <= i < hi && i < |words| && |words[i]| < WORD_SIZE;
      assert |all[i]| < WORD_SIZE;
    }
  }

  // ------------------------------------------------------------------ encoding

  /** An exit with the orders in which the hash sets of its regions and payment types were iterated. */
  datatype Entry = Entry(exit: ExitIdentity, regions: seq<Region>, payments: seq<SystemChain>)

  /** Exits the contract can hold. */
  ghost predicate Stored(e: Entry) {
    var x := e.exit;
    x.meshIp.V6? && x.meshIp.v6 < U64 * U64 && |x.wgKey| == WORD_SIZE && |x.ethAddr| == 20 &&
    x.registrationPort < U16 && x.wgExitListenPort < U16 &&
    x.allowedRegions == (set r | r in e.regions) && x.paymentTypes == (set p | p in e.payments)
  }

  ghost predicate Encodable(e: Entry) { Stored(e) && e.exit.meshIp != V6(0) }

  function RegionWords(regions: seq<Region>): (w: seq<Word>) {
    seq(|regions|, i requires 0 <= i < |regions| => NumberWord(regions[i]))
  }

  function PaymentWords(payments: seq<SystemChain>): (w: seq<Word>) {
    seq(|payments|, i requires 0 <= i < |payments| => NumberWord(ChainCode(payments[i])))
  }

  /** The seven head words of an exit: five static fields and the offsets of its two arrays. */
  function HeadWords(e: Entry): (w: seq<Word>)
    requires e.exit.meshIp.V6?
    ensures |w| == 7
  {
    [NumberWord(e.exit.meshIp.v6), e.exit.wgKey, AddressWord(e.exit.ethAddr),
     NumberWord(e.exit.registrationPort), NumberWord(e.exit.wgExitListenPort),
     NumberWord(32 * 7), NumberWord(32 * (8 + |e.regions|))]
  }

  /** The tuple (uint128, uint256, address, uint16, uint16, uint256[], uint256[]). */
  function EntryWords(e: Entry): (w: seq<Word>)
    requires e.exit.meshIp.V6?
    ensures |w| == 9 + |e.regions| + |e.payments|
  {
    HeadWords(e) + ([NumberWord(|e.regions|)] + RegionWords(e.regions)) +
    ([NumberWord(|e.payments|)] + PaymentWords(e.payments))
  }

  lemma WholeConcat(a: seq<Word>, b: seq<Word>)
    requires Whole(a) && Whole(b)
    ensures Whole(a + b)
  {
  }

  lemma EntryWhole(e: Entry)
    requires Stored(e)
    ensures Whole(EntryWords(e))
  {
    WholeConcat(HeadWords(e), [NumberWord(|e.regions|)] + RegionWords(e.regions));
  }

  /** The fixed part of an encoded entry reads back. */
  lemma HeadReads(e: Entry)
    requires Encodable(e) && |e.regions| < U64 / 2
    ensures var w := EntryWords(e);
      ParseIdentity(w[0..3]) == Ok(Identity(e.exit.meshIp, e.exit.ethAddr, e.exit.wgKey, None)) &&
      LowU16(w[3]) == e.exit.registrationPort && LowU16(w[4]) == e.exit.wgExitListenPort &&
      WordOffset(w[5]) == 7 && WordOffset(w[6]) == 8 + |e.regions|
  {
    hide ParseIdentity, NumberWord, FromBytes;
    var w := EntryWords(e);
    var x := e.exit;
    var id := Identity(x.meshIp, x.ethAddr, x.wgKey, None);
    assert w[..7] == HeadWords(e);
    assert w[0..3] == IdentityWords(id);
    IdentityParses(id);
    NumberValue(x.registrationPort);
    NumberValue(x.wgExitListenPort);
    NumberValue(32 * 7);
    NumberValue(32 * (8 + |e.regions|));
  }

  lemma RegionBytes(e: Entry)
    requires Stored(e)
    ensures Whole(EntryWords(e))
    ensures forall i :: 0 <= i < |e.regions| ==> RegionOf(EntryWords(e)[8 + i][31]) == e.regions[i]
  {
    EntryWhole(e);
    forall i | 0 <= i < |e.regions| ensures RegionOf(EntryWords(e)[8 + i][31]) == e.regions[i] {
      assert EntryWords(e)[8 + i] == NumberWord(e.regions[i]);
      NumberByte(e.regions[i]);
    }
  }

  lemma PaymentBytes(e: Entry)
    requires Stored(e)
    ensures Whole(EntryWords(e))
    ensures forall i :: 0 <= i < |e.payments| ==> ChainOf(EntryWords(e)[9 + |e.regions| + i][31]) == e.payments[i]
  {
    EntryWhole(e);
    forall i | 0 <= i < |e.payments| ensures ChainOf(EntryWords(e)[9 + |e.regions| + i][31]) == e.payments[i] {
      assert EntryWords(e)[9 + |e.regions| + i] == NumberWord(ChainCode(e.payments[i]));
      NumberByte(ChainCode(e.payments[i]));
    }
  }

  /** The two arrays of an encoded entry read back. */
  lemma ArraysRead(e: Entry)
    requires Encodable(e) && |e.regions| < U64 && |e.payments| < U64
    ensures var w, n, k := EntryWords(e), |e.regions|, |e.payments|;
      |w[7]| == WORD_SIZE && LowU64(w[7]) == n && |w[8 + n]| == WORD_SIZE && LowU64(w[8 + n]) == k &&
      RegionsIn(w, 8, 8 + n) == e.exit.allowedRegions && ChainsIn(w, 9 + n, 9 + n + k) == e.exit.paymentTypes
  {
    var w, n, k := EntryWords(e), |e.regions|, |e.payments|;
    EntryWhole(e);
    NumberLow(n);
    NumberLow(k);
    assert w[7] == NumberWord(n) && w[8 + n] == NumberWord(k);
    RegionBytes(e);
    PaymentBytes(e);
    RegionsRead(w, e.regions, 8);
    ChainsRead(w, e.payments, 9 + n);
  }

  lemma RegionsRead(w: seq<Word>, regions: seq<Region>, at: nat)
    requires at + |regions| <= |w| && Whole(w)
    requires forall i :: 0 <= i < |regions| ==> RegionOf(w[at + i][31]) == regions[i]
    ensures RegionsIn(w, at, at + |regions|) == set r | r in regions
  {
    forall r | r in regions ensures r in RegionsIn(w, at, at + |regions|) {
      var i :| 0 <= i < |regions| && regions[i] == r;
      assert RegionOf(w[at + i][31]) == r;
    }
    forall r | r in RegionsIn(w, at, at + |regions|) ensures r in regions {
      var i :| at <= i < at + |regions| && RegionOf(w[i][31]) == r;
      assert RegionOf(w[at + (i - at)][31]) == regions[i - at];
    }
  }

  lemma ChainsRead(w: seq<Word>, chains: seq<SystemChain>, at: nat)
    requires at + |chains| <= |w| && Whole(w)
    requires forall i :: 0 <= i < |chains| ==> ChainOf(w[at + i][31]) == chains[i]
    ensures ChainsIn(w, at, at + |chains|) == set c | c in chains
  {
    forall c | c in chains ensures c in ChainsIn(w, at, at + |chains|) {
      var i :| 0 <= i < |chains| && chains[i] == c;
      assert ChainOf(w[at + i][31]) == c;
    }
    forall c | c in ChainsIn(w, at, at + |chains|) ensures c in chains {
      var i :| at <= i < at + |chains| && ChainOf(w[i][31]) == c;
      assert ChainOf(w[at + (i - at)][31]) == chains[i - at];
    }
  }

  /** Decoding an encoded exit gives it back, whatever words follow. */
  lemma ExitRoundTrip(e: Entry, tail: seq<Word>)
    requires Encodable(e) && |EntryWords(e)| + |tail| < U64 / 2
    requires forall i :: 0 <= i < |tail| ==> |tail[i]| <= WORD_SIZE
    ensures forall i :: 0 <= i < |EntryWords(e)| ==> |EntryWords(e)[i]| <= WORD_SIZE
    ensures ParseExit(EntryWords(e) + tail) == Ok(e.exit)
  {
    hide ParseIdentity, RegionsIn, ChainsIn, WordOffset, LowU16, LowU64, EntryWords;
    EntryWhole(e);
    HeadReads(e);
    ArraysRead(e);
    TrailingWordsIgnored(EntryWords(e), tail);
  }

  /** An entry with a zero mesh address is refused, whatever words follow. */
  lemma ZeroIsRefused(e: Entry, tail: seq<Word>)
    requires Stored(e) && e.exit.meshIp == V6(0) && forall i :: 0 <= i < |tail| ==> |tail[i]| <= WORD_SIZE
    ensures forall i :: 0 <= i < |EntryWords(e)| ==> |EntryWords(e)[i]| <= WORD_SIZE
    ensures ParseExit(EntryWords(e) + tail) == Err(NullEntry)
  {
    EntryWhole(e);
    var words := EntryWords(e) + tail;
    assert words[0..3][0] == NumberWord(0);
    NumberMesh(0);
  }

  lemma StoredEntry(e: Entry, tail: seq<Word>)
    requires Stored(e) && |EntryWords(e)| + |tail| < U64 / 2
    requires forall i :: 0 <= i < |tail| ==> |tail[i]| <= WORD_SIZE
    ensures forall i :: 0 <= i < |EntryWords(e)| ==> |EntryWords(e)[i]| <= WORD_SIZE
    ensures ParseExit(EntryWords(e) + tail) == if e.exit.meshIp == V6(0) then Err(NullEntry) else Ok(e.exit)
  {
    hide ParseExit, EntryWords;
    if e.exit.meshIp == V6(0) {
      ZeroIsRefused(e, tail);
    } else {
      ExitRoundTrip(e, tail);
    }
  }

  // ------------------------------------------------------------------ the whole array

  ghost predicate AllStored(es: seq<Entry>) {
    forall i :: 0 <= i < |es| ==> Stored(es[i])
  }

  ghost predicate AllEncodable(es: seq<Entry>) {
    forall i :: 0 <= i < |es| ==> Encodable(es[i])
  }

  ghost function Bodies(es: seq<Entry>): seq<Word>
    requires AllStored(es)
  {
    if es == [] then [] else EntryWords(es[0]) + Bodies(es[1..])
  }

  /** The byte offsets of the entries, the first one being `at` words into the tuple area. */
  ghost function Offsets(es: seq<Entry>, at: nat): (w: seq<Word>)
    requires AllStored(es)
    ensures |w| == |es|
  {
    if es == [] then [] else [NumberWord(32 * at)] + Offsets(es[1..], at + |EntryWords(es[0])|)
  }

  /** The canonical encoding of the array: offset, length, the offsets of the tuples, the tuples. */
  ghost function ExitsWords(es: seq<Entry>): seq<Word>
    requires AllStored(es)
  {
    [NumberWord(WORD_SIZE), NumberWord(|es|)] + Offsets(es, |es|) + Bodies(es)
  }

  ghost function Exits(es: seq<Entry>): seq<ExitIdentity> {
    if es == [] then [] else [es[0].exit] + Exits(es[1..])
  }

  /** The exits with a nonzero mesh address, in order. */
  ghost function VisibleExits(es: seq<Entry>): seq<ExitIdentity> {
    if es == [] then []
    else (if es[0].exit.meshIp != V6(0) then [es[0].exit] else []) + VisibleExits(es[1..])
  }

  lemma {:induction false} BodiesWhole(es: seq<Entry>)
    requires AllStored(es)
    ensures Whole(Bodies(es))
  {
    if es != [] {
      EntryWhole(es[0]);
      BodiesWhole(es[1..]);
    }
  }

  lemma {:induction false} OffsetsWhole(es: seq<Entry>, at: nat)
    requires AllStored(es)
    ensures Whole(Offsets(es, at))
  {
    if es != [] {
      OffsetsWhole(es[1..], at + |EntryWords(es[0])|);
    }
  }

  /** The loop over the head words that announce `es`, the bodies of `es` being the end of the data. */
  lemma {:induction false} ExitsParse(words: seq<Word>, i: nat, es: seq<Entry>, at: nat)
    requires Whole(words) && |words| < U64 / 2 && AllStored(es)
    requires i + |es| <= |words| && words[i..i + |es|] == Offsets(es, at)
    requires 2 + at <= |words| && words[2 + at..] == Bodies(es)
    ensures ParseExitsFrom(words, i, i + |es|) == Ok(VisibleExits(es))
    decreases |es|
  {
    hide ParseExit, WordOffset, EntryWords, NumberWord, ParseExitsFrom;
    if es == [] {
      LoopEnds(words, i);
    } else {
      var entry, rest := EntryWords(es[0]), Bodies(es[1..]);
      BodiesWhole(es[1..]);
      StoredEntry(es[0], rest);
      assert words[i] == words[i..i + |es|][0];
      OffsetReads(at);
      LoopStep(words, i, i + |es|, at);
      var next := at + |entry|;
      Behind(words, i, |es|, 2 + at, |entry|);
      TakeBehind(entry, rest);
      ExitsParse(words, i + 1, es[1..], next);
      assert [] + VisibleExits(es[1..]) == VisibleExits(es[1..]);
    }
  }

  lemma LoopEnds(words: seq<Word>, i: nat)
    requires forall i :: 0 <= i < |words| ==> |words[i]| <= WORD_SIZE
    ensures ParseExitsFrom(words, i, i) == Ok([])
  {
  }

  lemma LoopStep(words: seq<Word>, i: nat, end: nat, at: nat)
    requires forall i :: 0 <= i < |words| ==> |words[i]| <= WORD_SIZE
    requires i < end && i < |words| && WordOffset(words[i]) == at && 2 + at <= |words| < U64
    ensures ParseExitsFrom(words, i, end) ==
      match ParseExit(words[2 + at..])
      case Panic => Panic
      case Err(_) => ParseExitsFrom(words, i + 1, end)
      case Ok(exit) => Prepend([exit], ParseExitsFrom(words, i + 1, end))
  {
  }

  lemma Behind(words: seq<Word>, i: nat, n: nat, at: nat, k: nat)
    requires 0 < n && i + n <= |words| && at + k <= |words|
    ensures words[i + 1..i + n] == words[i..i + n][1..] && words[at + k..] == words[at..][k..]
  {
  }

  lemma TakeBehind<T>(a: seq<T>, b: seq<T>)
    ensures (a + b)[|a|..] == b
  {
  }

  lemma OffsetReads(at: nat)
    requires at < U64
    ensures WordOffset(NumberWord(32 * at)) == at
  {
    NumberValue(32 * at);
  }

  /**
   * Decoding the canonical encoding of any list of exits that the contract can hold gives back, in order,
   * those with a nonzero mesh address, whatever order the sets of regions and payment types were written in.
   */
  lemma StoredExitsDecode(es: seq<Entry>)
    requires AllStored(es) && |ExitsWords(es)| < U64 / 2
    ensures ParseExits(ToWords(Concat(ExitsWords(es)))) == Ok(VisibleExits(es))
  {
    hide ParseExit, EntryWords, ParseExitsFrom, LowU64, ToWords, Stored;
    var words := ExitsWords(es);
    var heads := Offsets(es, |es|);
    BodiesWhole(es);
    OffsetsWhole(es, |es|);
    WordsOfWhole(words);
    NumberLow(|es|);
    assert words[2..2 + |es|] == heads;
    assert words[2 + |es|..] == Bodies(es);
    ExitsParse(words, 2, es, |es|);
    if es != [] {
      assert |Bodies(es)| >= 9;
    }
  }

  lemma {:induction false} AllExitsVisible(es: seq<Entry>)
    requires AllEncodable(es)
    ensures VisibleExits(es) == Exits(es)
  {
    if es != [] {
      AllExitsVisible(es[1..]);
    }
  }

  /** So a list of exits with nonzero addresses is given back as it is. */
  lemma ExitsRoundTrip(es: seq<Entry>)
    requires AllEncodable(es) && |ExitsWords(es)| < U64 / 2
    ensures ParseExits(ToWords(Concat(ExitsWords(es)))) == Ok(Exits(es))
  {
    StoredExitsDecode(es);
    AllExitsVisible(es);
  }

  // ------------------------------------------------------------------ any array

  /** The exit that head word `k` points at, if there is one and it decodes. */
  function EntryOf(words: seq<Word>, k: nat): Option<ExitIdentity>
    requires forall i :: 0 <= i < |words| ==> |words[i]| <= WORD_SIZE
  {
    if k >= |words| then None
    else
      var at := Low64(2 + WordOffset(words[k]));
      if at > |words| then None
      else match ParseExit(words[at..]) case Ok(exit) => Some(exit) case _ => None
  }

  ghost predicate Increasing(s: seq<nat>) {
    forall i, j :: 0 <= i < j < |s| ==> s[i] < s[j]
  }

  /**
   * Whatever the words hold, unless the decoder aborts: it fails exactly when head words are missing, and
   * otherwise returns, in order, exactly the announced entries that decode. `heads` are their head words.
   */
  lemma {:induction false} EntriesAreExact(words: seq<Word>, i: nat, end: nat) returns (heads: seq<nat>)
    requires (forall i :: 0 <= i < |words| ==> |words[i]| <= WORD_SIZE) && !ParseExitsFrom(words, i, end).Panic?
    ensures var r := ParseExitsFrom(words, i, end);
      if i < end && end > |words| then r == Err(BadInput)
      else
        r.Ok? && |r.value| == |heads| && Increasing(heads) &&
        (forall k :: k in heads <==> i <= k < end && EntryOf(words, k).Some?) &&
        forall j :: 0 <= j < |heads| ==> EntryOf(words, heads[j]) == Some(r.value[j])
    decreases end - i
  {
    hide ParseExit, WordOffset, Low64;
    heads := [];
    if i < end && i < |words| {
      var later := EntriesAreExact(words, i + 1, end);
      heads := if EntryOf(words, i).Some? then [i] + later else later;
      if end <= |words| {
        HeadsGrow(words, i, end, later, heads);
      }
    }
  }

  lemma HeadsGrow(words: seq<Word>, i: nat, end: nat, later: seq<nat>, heads: seq<nat>)
    requires i < end <= |words| && forall i :: 0 <= i < |words| ==> |words[i]| <= WORD_SIZE
    requires Increasing(later) && forall k :: k in later <==> i + 1 <= k < end && EntryOf(words, k).Some?
    requires heads == if EntryOf(words, i).Some? then [i] + later else later
    ensures Increasing(heads) && forall k :: k in heads <==> i <= k < end && EntryOf(words, k).Some?
  {
    hide EntryOf;
    assert forall j :: 0 <= j < |later| ==> later[j] in later;
  }

  /** The same for the whole decoder, on arbitrary bytes. */
  lemma ExitsAreExact(input: seq<byte>) returns (heads: seq<nat>)
    requires !ParseExits(ToWords(input)).Panic?
    ensures var words, r := ToWords(input), ParseExits(ToWords(input));
      if |words| == 2 then r == Ok([])
      else if |words| < 11 then r == Err(BadInput)
      else
        var end := Low64(2 + LowU64(words[1]));
        if 2 < end && end > |words| then r == Err(BadInput)
        else
          r.Ok? && |r.value| == |heads| && Increasing(heads) &&
          (forall k :: k in heads <==> 2 <= k < end && EntryOf(words, k).Some?) &&
          forall j :: 0 <= j < |heads| ==> EntryOf(words, heads[j]) == Some(r.value[j])
  {
    hide ParseExitsFrom, EntryOf, ToWords, LowU64, Low64, Increasing;
    heads := [];
    var words := ToWords(input);
    if |words| >= 11 {
      heads := EntriesAreExact(words, 2, Low64(2 + LowU64(words[1])));
    }
  }

  /** When one entry decodes, and why not, on words of which none is cut. */
  lemma ExitDecodesIff(words: seq<Word>)
    requires Whole(words)
    ensures if |words| < 9 then ParseExit(words) == Err(BadInput)
      else if FromBytes(words[0][16..32]) == 0 then ParseExit(words) == Err(NullEntry)
      else if WordOffset(words[5]) >= |words| || WordOffset(words[6]) >= |words| then ParseExit(words) == Err(BadInput)
      else
        var n, k := LowU64(words[WordOffset(words[5])]), LowU64(words[WordOffset(words[6])]);
        if Low64(9 + n + k) > |words| then ParseExit(words) == Err(BadLength) else ParseExit(words).Ok?
  {
    if |words| >= 9 {
      ExitPanicsIff(words);
      WholeIsNotCut(words);
      hide ParseIdentity, FromBytes, ShortIn, ArrayEnd, RegionsIn, ChainsIn, LowU64, LowU16, WordOffset, Low64;
      IdentityRefuses(words);
    }
  }

  lemma IdentityRefuses(words: seq<Word>)
    requires Whole(words) && |words| >= 9
    ensures FromBytes(words[0][16..32]) == 0 ==> ParseIdentity(words[0..3]) == Err(NullEntry)
    ensures FromBytes(words[0][16..32]) != 0 ==> ParseIdentity(words[0..3]).Ok?
  {
    hide FromBytes, ToBytes;
    assert words[0..3][0] == words[0] && words[0..3][2] == words[2];
  }
}
