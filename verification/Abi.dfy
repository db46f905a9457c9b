/** The registration database's decoders for Solidity arrays of static and of dynamic tuples. */
module Abi {
  import opened Bytes
  import opened Identities

  const WORD_SIZE: nat := 32

  type Word = seq<byte>

  /** Regions are named by their code; code 0 is the unknown region. */
  type Region = r: nat | r < 180

  datatype SystemChain = AltheaL1 | Ethereum | Sepolia | Xdai

  datatype ExitIdentity = ExitIdentity(meshIp: IpAddr, wgKey: seq<byte>, ethAddr: seq<byte>,
                                       registrationPort: nat, wgExitListenPort: nat,
                                       allowedRegions: set<Region>, paymentTypes: set<SystemChain>)

  datatype DbError = BadInput | NullEntry | BadLength

  function RegionOf(code: byte): Region { if 1 <= code <= 179 then code else 0 }

  function ChainCode(c: SystemChain): byte {
    match c case AltheaL1 => 1 case Ethereum => 2 case Sepolia => 3 case Xdai => 4
  }

  function ChainOf(code: byte): SystemChain {
    match code case 1 => AltheaL1 case 2 => Ethereum case 3 => Sepolia case 4 => Xdai case _ => AltheaL1
  }

  /** `to_evm_words`: chunks of 32 bytes, the last one possibly shorter. */
  function ToWords(input: seq<byte>): (words: seq<Word>)
    ensures forall i :: 0 <= i < |words| ==> |words[i]| <= WORD_SIZE
    ensures forall i :: 0 <= i < |words| - 1 ==> |words[i]| == WORD_SIZE
  {
    if input == [] then []
    else if |input| <= WORD_SIZE then [input]
    else [input[..WORD_SIZE]] + ToWords(input[WORD_SIZE..])
  }

  ghost predicate Whole(words: seq<Word>) {
    forall i :: 0 <= i < |words| ==> |words[i]| == WORD_SIZE
  }

  /** What splitting gives: whole words, and a last one that may be shorter. */
  ghost predicate Split(words: seq<Word>) {
    (forall i :: 0 <= i < |words| ==> |words[i]| <= WORD_SIZE) &&
    (forall i :: 0 <= i < |words| - 1 ==> |words[i]| == WORD_SIZE)
  }

  /** Splitting undoes concatenating. */
  lemma {:induction false} WordsOfConcat(words: seq<Word>)
    requires Split(words) && forall i :: 0 <= i < |words| ==> words[i] != []
    ensures ToWords(Concat(words)) == words
  {
    if words != [] {
      WordsOfConcat(words[1..]);
      var all := Concat(words);
      assert all == words[0] + Concat(words[1..]);
      if |words| == 1 {
        assert Concat(words[1..]) == [] && all == words[0];
      } else {
        assert words[1] == words[1..][0] && Concat(words[1..]) == words[1] + Concat(words[1..][1..]);
        assert all[..WORD_SIZE] == words[0] && all[WORD_SIZE..] == Concat(words[1..]);
      }
    }
  }

  lemma WordsOfWhole(words: seq<Word>)
    requires Whole(words)
    ensures ToWords(Concat(words)) == words
  {
    WordsOfConcat(words);
  }

  lemma {:induction false} WholeWords(input: seq<byte>)
    requires |input| % WORD_SIZE == 0
    ensures Whole(ToWords(input))
  {
    if |input| > WORD_SIZE {
      WholeWords(input[WORD_SIZE..]);
    }
  }

  // ------------------------------------------------------------------ fields of a word

  /** `u64::from_be_bytes(w[24..32])`. */
  function LowU64(w: Word): nat requires |w| == WORD_SIZE { FromBytes(w[24..32]) }

  /** The low eight bytes of a byte offset divided by the word size. */
  function WordOffset(w: Word): nat { Low64(FromBytes(w) / WORD_SIZE) }

  function LowU16(w: Word): nat { FromBytes(w) % U16 }

  // ------------------------------------------------------------------ identities

  /** `parse_identity_abi`. */
  function ParseIdentity(words: seq<Word>): Outcome<Identity, DbError> {
    if |words| != 3 then Err(BadInput)
    else if |words[0]| < WORD_SIZE then Panic
    else
      var meshIp := FromBytes(words[0][16..32]);
      if meshIp == 0 then Err(NullEntry)
      else if |words[2]| < 12 then Panic
      else if |words[2]| != WORD_SIZE then Err(BadInput)
      else Ok(Identity(V6(meshIp), words[2][12..], ToBytes(FromBytes(words[1]), WORD_SIZE), None))
  }

  /** Which three words decode, and to what; a short key is padded, a short address is refused. */
  lemma IdentityDecodesIff(words: seq<Word>, id: Identity)
    ensures ParseIdentity(words) == Ok(id) <==>
      |words| == 3 && |words[0]| >= 32 && |words[2]| == 32 && FromBytes(words[0][16..32]) != 0 &&
      id.meshIp == V6(FromBytes(words[0][16..32])) && id.ethAddress == words[2][12..] && id.nickname == None &&
      id.wgPublicKey == ToBytes(FromBytes(words[1]), 32)
  {
    hide FromBytes, ToBytes;
  }

  /** The first `n` announced entries; unreadable ones are skipped, missing ones are an error. */
  function ParseEntries(words: seq<Word>, n: nat): (r: Outcome<seq<Identity>, DbError>) {
    if n == 0 then Ok([])
    else match ParseEntries(words, n - 1)
      case Ok(before) =>
        if 3 * n + 2 > |words| then Err(BadInput)
        else (match ParseIdentity(words[3 * n - 1..3 * n + 2])
              case Ok(id) => Ok(before + [id])
              case Err(_) => Ok(before)
              case Panic => Panic)
      case failed => failed
  }

  function ParseArray(words: seq<Word>): Outcome<seq<Identity>, DbError> {
    if |words| == 2 then Ok([])
    else if |words| < 5 then Err(BadInput)
    else if FromBytes(words[1]) >= U64 then Err(BadLength)
    else ParseEntries(words, FromBytes(words[1]))
  }

  lemma {:induction false} FailureSticks(words: seq<Word>, k: nat, n: nat)
    requires k <= n && !ParseEntries(words, k).Ok?
    ensures ParseEntries(words, n) == ParseEntries(words, k)
  {
    if k < n {
      FailureSticks(words, k, n - 1);
    }
  }

  /** `parse_identity_array_abi`. */
  method ParseIdentityArray(input: seq<byte>) returns (r: Outcome<seq<Identity>, DbError>)
    ensures r == ParseArray(ToWords(input))
  {
    hide ParseIdentity, ToWords, FromBytes;
    var words := ToWords(input);
    if |words| == 2 {
      return Ok([]);
    }
    if |words| < 5 {
      return Err(BadInput);
    }
    var arrLen := FromBytes(words[1]);
    if arrLen >= U64 {
      return Err(BadLength);
    }
    var ret: seq<Identity> := [];
    var index := 2;
    var i := 0;
    while i < arrLen
      invariant 0 <= i <= arrLen && index == 2 + 3 * i && index <= |words|
      invariant ParseEntries(words, i) == Ok(ret)
    {
      if index + 3 > |words| {
        FailureSticks(words, i + 1, arrLen);
        return Err(BadInput);
      }
      var entry := words[index..index + 3];
      index := index + 3;
      var parsed := ParseIdentity(entry);
      if parsed.Panic? {
        FailureSticks(words, i + 1, arrLen);
        return Panic;
      }
      if parsed.Ok? {
        ret := ret + [parsed.value];
      }
      i := i + 1;
    }
    return Ok(ret);
  }

  // ------------------------------------------------------------------ what the array decoder computes

  /** Entry `k` of an array of (uint128, uint256, address). */
  function EntryAt(words: seq<Word>, k: nat): Identity
    requires 3 * k + 5 <= |words| && Whole(words)
  {
    Identity(V6(FromBytes(words[3 * k + 2][16..32])), words[3 * k + 4][12..], words[3 * k + 3], None)
  }

  /** The entries with a nonzero address, in order. */
  function NonNull(words: seq<Word>, n: nat): seq<Identity>
    requires (n == 0 || 3 * n + 2 <= |words|) && Whole(words)
  {
    if n == 0 then []
    else
      var e := EntryAt(words, n - 1);
      NonNull(words, n - 1) + (if e.meshIp == V6(0) then [] else [e])
  }

  lemma EntryParses(words: seq<Word>, k: nat)
    requires 3 * k + 5 <= |words| && Whole(words)
    ensures EntryAt(words, k).meshIp.V6?
    ensures ParseIdentity(words[3 * k + 2..3 * k + 5]) ==
      if EntryAt(words, k).meshIp == V6(0) then Err(NullEntry) else Ok(EntryAt(words, k))
  {
    var entry := words[3 * k + 2..3 * k + 5];
    assert entry[0] == words[3 * k + 2] && entry[1] == words[3 * k + 3] && entry[2] == words[3 * k + 4];
    ToFromBytes(words[3 * k + 3]);
  }

  lemma {:induction false} EntriesAreNonNull(words: seq<Word>, n: nat)
    requires Whole(words)
    ensures ParseEntries(words, n) == if n == 0 || 3 * n + 2 <= |words| then Ok(NonNull(words, n)) else Err(BadInput)
  {
    hide ParseIdentity, EntryAt;
    if n > 0 {
      EntriesAreNonNull(words, n - 1);
      if 3 * n + 2 <= |words| {
        EntryParses(words, n - 1);
        assert NonNull(words, n - 1) + [] == NonNull(words, n - 1);
      }
    }
  }

  /**
   * On whole words the array decoder never aborts: it returns the nonzero entries in order when all
   * announced entries are present, and an error when they are not. Two words are an empty list whatever
   * length they announce, and any other input too short for one entry is an error.
   */
  lemma ArrayIsFilter(words: seq<Word>)
    requires Whole(words)
    ensures ParseArray(words) ==
      if |words| == 2 then Ok([])
      else if |words| < 5 then Err(BadInput)
      else
        var n := FromBytes(words[1]);
        if n >= U64 then Err(BadLength)
        else if 3 * n + 2 <= |words| then Ok(NonNull(words, n))
        else Err(BadInput)
  {
    if |words| >= 5 {
      EntriesAreNonNull(words, FromBytes(words[1]));
    }
  }

  /** The last of `n` entries fits the words, but its address ends before its twelve padding bytes do. */
  ghost predicate CutEntry(words: seq<Word>, n: nat)
    requires Split(words) && |words| >= 5
  {
    |words| % 3 == 2 && 3 * n + 2 >= |words| && |words[|words| - 1]| < 12 &&
    FromBytes(words[|words| - 3][16..32]) != 0
  }

  lemma EntryPanicsIff(words: seq<Word>, n: nat)
    requires Split(words) && |words| >= 5 && 0 < n && 3 * n + 2 <= |words|
    ensures ParseIdentity(words[3 * n - 1..3 * n + 2]).Panic? <==> 3 * n + 2 == |words| && CutEntry(words, n)
  {
    hide FromBytes, ToBytes;
    var e := words[3 * n - 1..3 * n + 2];
    assert e[0] == words[3 * n - 1] && e[2] == words[3 * n + 1];
  }

  lemma {:induction false} EntriesPanicIff(words: seq<Word>, n: nat)
    requires Split(words) && |words| >= 5
    ensures
      if n == 0 then ParseEntries(words, n).Ok?
      else if CutEntry(words, n) then ParseEntries(words, n) == Panic
      else if 3 * n + 2 <= |words| then ParseEntries(words, n).Ok?
      else ParseEntries(words, n) == Err(BadInput)
  {
    hide ParseIdentity, FromBytes;
    if n > 0 {
      EntriesPanicIff(words, n - 1);
      if 3 * n + 2 <= |words| {
        EntryPanicsIff(words, n);
      }
    }
  }

  /** On arbitrary bytes the array decoder aborts exactly when the address of the last entry is cut short. */
  lemma ArrayPanicsIff(input: seq<byte>)
    ensures var words := ToWords(input);
      ParseArray(words).Panic? <==>
      |words| >= 5 && FromBytes(words[1]) < U64 && CutEntry(words, FromBytes(words[1]))
  {
    var words := ToWords(input);
    assert Split(words);
    if |words| >= 5 {
      EntriesPanicIff(words, FromBytes(words[1]));
    }
  }

  // ------------------------------------------------------------------ round trip of identities

  function NumberWord(v: nat): (w: Word)
    ensures |w| == WORD_SIZE
  {
    ToBytes(v, WORD_SIZE)
  }

  function AddressWord(a: seq<byte>): Word { ToBytes(0, 12) + a }

  /** Identities the contract can hold: an IPv6 mesh address, a key of 32 bytes, an address of 20. */
  ghost predicate Storable(id: Identity) {
    id.meshIp.V6? && id.meshIp.v6 < U64 * U64 && |id.wgPublicKey| == WORD_SIZE && |id.ethAddress| == 20 &&
    id.nickname == None
  }

  ghost predicate AllStorable(ids: seq<Identity>) {
    forall i :: 0 <= i < |ids| ==> Storable(ids[i])
  }

  /** The decoder takes a zero mesh address for a missing entry. */
  predicate NonZero(id: Identity) { id.meshIp != V6(0) }

  ghost predicate Encodable(id: Identity) { Storable(id) && NonZero(id) }

  ghost predicate AllEncodable(ids: seq<Identity>) {
    forall i :: 0 <= i < |ids| ==> Encodable(ids[i])
  }

  /** The identities with a nonzero mesh address, in order. */
  function Visible(ids: seq<Identity>): seq<Identity> {
    if ids == [] then []
    else
      var n := |ids| - 1;
      Visible(ids[..n]) + if NonZero(ids[n]) then [ids[n]] else []
  }

  /** The tuple (uint128, uint256, address). */
  function IdentityWords(id: Identity): seq<Word>
    requires id.meshIp.V6?
  {
    [NumberWord(id.meshIp.v6), id.wgPublicKey, AddressWord(id.ethAddress)]
  }

  ghost function AllIdentityWords(ids: seq<Identity>): seq<Word>
    requires AllStorable(ids)
  {
    if ids == [] then [] else AllIdentityWords(ids[..|ids| - 1]) + IdentityWords(ids[|ids| - 1])
  }

  /** The canonical encoding of the array: its offset, its length and its tuples. */
  ghost function EncodeIdentities(ids: seq<Identity>): seq<byte>
    requires AllStorable(ids)
  {
    Concat([NumberWord(WORD_SIZE), NumberWord(|ids|)] + AllIdentityWords(ids))
  }

  lemma NumberValue(v: nat)
    requires v < U64 * U64 * U64
    ensures FromBytes(NumberWord(v)) == v
  {
    Pow256Values();
    FromToBytes(v, 32);
  }

  lemma NumberTail(v: nat, n: nat)
    requires n <= 32 && v < Pow256(n)
    ensures NumberWord(v)[32 - n..32] == ToBytes(v, n) && FromBytes(NumberWord(v)[32 - n..32]) == v
  {
    hide FromBytes, ToBytes;
    ToBytesPadded(v, 32 - n, n);
    FromToBytes(v, n);
  }

  lemma NumberMesh(v: nat)
    requires v < U64 * U64
    ensures FromBytes(NumberWord(v)[16..32]) == v
  {
    Pow256Values();
    NumberTail(v, 16);
  }

  lemma NumberLow(v: nat)
    requires v < U64
    ensures LowU64(NumberWord(v)) == v
  {
    Pow256Values();
    NumberTail(v, 8);
  }

  lemma NumberByte(v: nat)
    requires v < 256
    ensures NumberWord(v)[31] == v
  {
  }

  lemma StoredParses(id: Identity)
    requires Storable(id)
    ensures ParseIdentity(IdentityWords(id)) == if NonZero(id) then Ok(id) else Err(NullEntry)
    ensures |IdentityWords(id)| == 3 && Whole(IdentityWords(id))
  {
    NumberMesh(id.meshIp.v6);
    ToFromBytes(id.wgPublicKey);
    assert AddressWord(id.ethAddress)[12..] == id.ethAddress;
  }

  lemma IdentityParses(id: Identity)
    requires Encodable(id)
    ensures ParseIdentity(IdentityWords(id)) == Ok(id)
    ensures |IdentityWords(id)| == 3 && Whole(IdentityWords(id))
  {
    StoredParses(id);
  }

  lemma {:induction false} ArrayParses(ids: seq<Identity>, front: seq<Word>, tail: seq<Word>)
    requires AllStorable(ids)
    requires |front| == 2
    ensures |AllIdentityWords(ids)| == 3 * |ids| && Whole(AllIdentityWords(ids))
    ensures ParseEntries(front + AllIdentityWords(ids) + tail, |ids|) == Ok(Visible(ids))
  {
    hide ParseIdentity, IdentityWords, Storable, NonZero;
    var words := front + AllIdentityWords(ids) + tail;
    if ids != [] {
      var n := |ids|;
      LastStored(ids);
      var last := IdentityWords(ids[n - 1]);
      var before := AllIdentityWords(ids[..n - 1]);
      ArrayParses(ids[..n - 1], front, last + tail);
      assert words == front + before + (last + tail);
      assert words[|front + before|..|front + before| + 3] == last;
      assert words[3 * n - 1..3 * n + 2] == last;
      assert Visible(ids[..n - 1]) + [] == Visible(ids[..n - 1]);
    }
  }

  lemma LastStored(ids: seq<Identity>)
    requires AllStorable(ids) && ids != []
    ensures var id := ids[|ids| - 1];
      id.meshIp.V6? && ParseIdentity(IdentityWords(id)) == (if NonZero(id) then Ok(id) else Err(NullEntry)) &&
      |IdentityWords(id)| == 3 && Whole(IdentityWords(id))
  {
    StoredParses(ids[|ids| - 1]);
  }

  /**
   * Decoding the canonical encoding of any list of identities that the contract can hold gives back, in
   * order, those with a nonzero mesh address.
   */
  lemma StoredDecode(ids: seq<Identity>)
    requires |ids| < U64 && AllStorable(ids)
    ensures ParseArray(ToWords(EncodeIdentities(ids))) == Ok(Visible(ids))
  {
    hide ParseEntries, ToWords, FromBytes, NumberWord, Concat, AllIdentityWords, Storable;
    var front := [NumberWord(WORD_SIZE), NumberWord(|ids|)];
    var words := front + AllIdentityWords(ids);
    ArrayParses(ids, front, []);
    assert words + [] == words;
    WordsOfWhole(words);
    NumberValue(|ids|);
    assert words[1] == NumberWord(|ids|) && |words| == 3 * |ids| + 2;
  }

  lemma {:induction false} AllVisible(ids: seq<Identity>)
    requires AllEncodable(ids)
    ensures Visible(ids) == ids
  {
    if ids != [] {
      AllVisible(ids[..|ids| - 1]);
    }
  }

  /** So a list of nonzero identities is given back as it is. */
  lemma IdentitiesRoundTrip(ids: seq<Identity>)
    requires |ids| < U64 && AllEncodable(ids)
    ensures ParseArray(ToWords(EncodeIdentities(ids))) == Ok(ids)
  {
    StoredDecode(ids);
    AllVisible(ids);
  }

  /** Data that ends three bytes into the address of its only entry. */
  const CUT_ARRAY: seq<Word> := [NumberWord(32), NumberWord(1), NumberWord(1), NumberWord(0), [0, 0, 0]]

  /** A concrete input on which the decoder aborts. */
  lemma ArrayAbortExample()
    ensures ParseArray(ToWords(Concat(CUT_ARRAY))).Panic?
  {
    hide ParseArray, NumberWord, Concat, ToWords;
    WordsOfConcat(CUT_ARRAY);
    ArrayPanicsIff(Concat(CUT_ARRAY));
    NumberValue(1);
    NumberMesh(1);
  }
}
