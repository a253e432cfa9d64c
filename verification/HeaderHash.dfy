/** What a block hash commits to: every hashed field, and so the state root that is served. */
module HeaderHash {
  import opened Base
  import opened Vote
  import opened Headers
  import Rlp

  // ----- fields -----

  /** The 15 fields every header has. */
  predicate SameMandatory(a: Header, b: Header) {
    a.parentHash == b.parentHash && a.uncles == b.uncles && a.miner == b.miner && a.stateRoot == b.stateRoot &&
    a.transactionsRoot == b.transactionsRoot && a.receiptsRoot == b.receiptsRoot && a.logsBloom == b.logsBloom &&
    a.difficulty == b.difficulty && a.number == b.number && a.gasLimit == b.gasLimit && a.gasUsed == b.gasUsed &&
    a.time == b.time && a.extraData == b.extraData && a.mixHash == b.mixHash && a.nonce == b.nonce
  }

  /** How many optional fields are spelled: up to the last one present. */
  function Spelled(h: Header): nat {
    if h.requestsHash.Some? then 6 else if h.beaconRoot.Some? then 5 else if h.excessBlobGas.Some? then 4
    else if h.blobGasUsed.Some? then 3 else if h.withdrawalsRoot.Some? then 2 else if h.baseFee.Some? then 1 else 0
  }

  function OrZero(n: Option<Word>): nat {
    if n.Some? then n.value else 0
  }

  /** As many are spelled, and they agree; an absent number before the last one present reads as zero. */
  predicate SameOptional(a: Header, b: Header) {
    Spelled(a) == Spelled(b) && OrZero(a.baseFee) == OrZero(b.baseFee) && a.withdrawalsRoot == b.withdrawalsRoot &&
    OrZero(a.blobGasUsed) == OrZero(b.blobGasUsed) && OrZero(a.excessBlobGas) == OrZero(b.excessBlobGas) &&
    a.beaconRoot == b.beaconRoot && a.requestsHash == b.requestsHash
  }

  lemma UintItemIff(a: nat, b: nat)
    ensures UintItem(a) == UintItem(b) <==> a == b
  {
    BeRoundTrip(a);
    BeRoundTrip(b);
  }

  lemma OptUintIff(a: Option<Word>, b: Option<Word>)
    ensures OptUint(a) == OptUint(b) <==> OrZero(a) == OrZero(b)
  {
    UintItemIff(OrZero(a), OrZero(b));
    assert ToBe(0) == [];
  }

  lemma OptHashIff(a: Option<Digest>, b: Option<Digest>)
    ensures OptHash(a) == OptHash(b) <==> a == b
  {
  }

  /** All six optional items, spelled or not. */
  function SixItems(h: Header): (items: seq<Rlp.Item>)
    ensures |items| == 6
  {
    [OptUint(h.baseFee), OptHash(h.withdrawalsRoot), OptUint(h.blobGasUsed), OptUint(h.excessBlobGas),
     OptHash(h.beaconRoot), OptHash(h.requestsHash)]
  }

  lemma OptionalIs(h: Header)
    ensures OptionalItems(h) == SixItems(h)[..Spelled(h)]
    ensures forall i | Spelled(h) <= i < 6 :: SixItems(h)[i] == Rlp.Str([])
  {
  }

  lemma SixIff(a: Header, b: Header)
    ensures SixItems(a) == SixItems(b) <==>
            OrZero(a.baseFee) == OrZero(b.baseFee) && a.withdrawalsRoot == b.withdrawalsRoot &&
            OrZero(a.blobGasUsed) == OrZero(b.blobGasUsed) && OrZero(a.excessBlobGas) == OrZero(b.excessBlobGas) &&
            a.beaconRoot == b.beaconRoot && a.requestsHash == b.requestsHash
  {
    var x, y := SixItems(a), SixItems(b);
    assert x == y <==> x[0] == y[0] && x[1] == y[1] && x[2] == y[2] && x[3] == y[3] && x[4] == y[4] && x[5] == y[5];
    OptUintIff(a.baseFee, b.baseFee);
    OptHashIff(a.withdrawalsRoot, b.withdrawalsRoot);
    OptUintIff(a.blobGasUsed, b.blobGasUsed);
    OptUintIff(a.excessBlobGas, b.excessBlobGas);
    OptHashIff(a.beaconRoot, b.beaconRoot);
    OptHashIff(a.requestsHash, b.requestsHash);
  }

  lemma OptionalIff(a: Header, b: Header)
    ensures OptionalItems(a) == OptionalItems(b) <==> SameOptional(a, b)
  {
    OptionalIs(a);
    OptionalIs(b);
    SixIff(a, b);
    PaddedIff(SixItems(a), SixItems(b), Spelled(a), Spelled(b));
  }

  lemma PaddedIff(x: seq<Rlp.Item>, y: seq<Rlp.Item>, m: nat, n: nat)
    requires |x| == |y| == 6 && m <= 6 && n <= 6
    requires (forall i | m <= i < 6 :: x[i] == Rlp.Str([])) && forall i | n <= i < 6 :: y[i] == Rlp.Str([])
    ensures x[..m] == y[..n] <==> m == n && x == y
  {
    if x[..m] == y[..n] {
      assert |x[..m]| == |y[..n]|;
      forall i | 0 <= i < 6
        ensures x[i] == y[i]
      {
        if i < m { assert x[..m][i] == y[..n][i]; }
      }
    }
  }

  /** The 15 items every header has. */
  function FifteenItems(h: Header): (items: seq<Rlp.Item>)
    ensures |items| == 15
  {
    [Rlp.Str(h.parentHash.bytes), Rlp.Str(h.uncles), Rlp.Str(h.miner.bytes), Rlp.Str(h.stateRoot),
     Rlp.Str(h.transactionsRoot), Rlp.Str(h.receiptsRoot), Rlp.Str(h.logsBloom),
     UintItem(h.difficulty), UintItem(h.number), UintItem(h.gasLimit), UintItem(h.gasUsed),
     UintItem(h.time), Rlp.Str(h.extraData), Rlp.Str(h.mixHash), Rlp.Str(h.nonce)]
  }

  lemma FifteenIff(a: Header, b: Header)
    ensures FifteenItems(a) == FifteenItems(b) <==> SameMandatory(a, b)
  {
    var x, y := FifteenItems(a), FifteenItems(b);
    UintItemIff(a.difficulty, b.difficulty);
    UintItemIff(a.number, b.number);
    UintItemIff(a.gasLimit, b.gasLimit);
    UintItemIff(a.gasUsed, b.gasUsed);
    UintItemIff(a.time, b.time);
    assert x == y <==> forall i | 0 <= i < 15 :: x[i] == y[i];
    assert x == y ==> x[0] == y[0] && x[1] == y[1] && x[2] == y[2] && x[3] == y[3] && x[4] == y[4] && x[5] == y[5] && x[6] == y[6] &&
                      x[7] == y[7] && x[8] == y[8] && x[9] == y[9] && x[10] == y[10] && x[11] == y[11] && x[12] == y[12] &&
                      x[13] == y[13] && x[14] == y[14];
  }

  lemma HashedIs(h: Header)
    ensures HashedItem(h) == Rlp.List(FifteenItems(h) + OptionalItems(h))
  {
  }

  lemma AppendIff<T>(a: seq<T>, b: seq<T>, x: seq<T>, y: seq<T>)
    requires |a| == |b|
    ensures a + x == b + y <==> a == b && x == y
  {
    if a + x == b + y {
      assert a == (a + x)[..|a|] && b == (b + y)[..|b|];
      assert x == (a + x)[|a|..] && y == (b + y)[|b|..];
    }
  }

  /** Two headers have one hash preimage exactly when every mandatory field agrees and every optional one
      does, up to an absent number spelled like zero. */
  lemma PreimageIff(a: Header, b: Header)
    requires |Preimage(a)| < U64
    ensures Preimage(a) == Preimage(b) <==> SameMandatory(a, b) && SameOptional(a, b)
  {
    Rlp.EncInjective(HashedItem(a), HashedItem(b));
    HashedIs(a);
    HashedIs(b);
    AppendIff(FifteenItems(a), FifteenItems(b), OptionalItems(a), OptionalItems(b));
    FifteenIff(a, b);
    OptionalIff(a, b);
  }
}
