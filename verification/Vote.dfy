/** BEP-126 vote attestations: strict decoding, the voters' bit set, and the super-majority. */
module Vote {
  import opened Base
  import Rlp

  type Word = x: int | 0 <= x < 0x1_0000_0000_0000_0000
  type Bytes20 = b: Bytes | |b| == 20 witness seq(20, _ => 0)
  type Bytes48 = b: Bytes | |b| == 48 witness seq(48, _ => 0)
  datatype Address = Address(bytes: Bytes20)
  datatype VoteKey = VoteKey(bytes: Bytes48)
  type AggSignature = b: Bytes | |b| == 96 witness seq(96, _ => 0)

  const MAX_EXTRA_LEN: nat := 256

  datatype SealingValidator = SealingValidator(address: Address, voteKey: VoteKey)

  datatype VoteData = VoteData(sourceNumber: Word, sourceHash: Hash, targetNumber: Word, targetHash: Hash)

  datatype VoteAttestation =
    VoteAttestation(voteAddressSet: Word, aggSignature: AggSignature, data: VoteData, extra: Bytes)

  datatype VoteError =
    | BadRlp
    | ExtraTooLong
    | SourceNotBelowTarget
    | TooManyVotes
    | BitOutOfRange
    | NoVotes
    | InvalidVoteKey
    | NotEnoughVotes
    | BadSignature

  datatype Result<+T, +E> = Ok(value: T) | Err(error: E)

  /** Foreign cryptography: any functions of these types. */
  datatype Crypto = Crypto(
    keccak: Hasher,
    keyValid: VoteKey -> bool,
    aggregateVerify: (seq<VoteKey>, Digest, AggSignature) -> bool)

  // ----- the attestation as an RLP item -----

  function DataItem(d: VoteData): Rlp.Item {
    Rlp.List([Rlp.Str(ToBe(d.sourceNumber)), Rlp.Str(d.sourceHash.bytes),
              Rlp.Str(ToBe(d.targetNumber)), Rlp.Str(d.targetHash.bytes)])
  }

  function AttestationItem(a: VoteAttestation): Rlp.Item {
    Rlp.List([Rlp.Str(ToBe(a.voteAddressSet)), Rlp.Str(a.aggSignature), DataItem(a.data), Rlp.Str(a.extra)])
  }

  function UintOf(item: Rlp.Item): (r: Option<Word>)
    ensures forall n: Word :: r == Some(n) <==> item == Rlp.Str(ToBe(n))
  {
    if item.List? || |item.bytes| > 8 || (item.bytes != [] && item.bytes[0] == 0) then
      UintRefused(item);
      None
    else
      UintAccepted(item.bytes);
      Some(FromBe(item.bytes))
  }

  lemma UintRefused(item: Rlp.Item)
    requires item.List? || |item.bytes| > 8 || (item.bytes != [] && item.bytes[0] == 0)
    ensures forall n: Word :: item != Rlp.Str(ToBe(n))
  {
    forall n: Word
      ensures item != Rlp.Str(ToBe(n))
    {
      Pow256Is64Bits();
      BeLength(n, 8);
    }
  }

  lemma UintAccepted(b: Bytes)
    requires |b| <= 8 && (b == [] || b[0] != 0)
    ensures FromBe(b) < U64 && forall n: Word :: FromBe(b) == n <==> b == ToBe(n)
  {
    BeBound(b);
    Rlp.PowMono(|b|);
    BeCanonical(b);
    forall n: Word
      ensures FromBe(b) == n <==> b == ToBe(n)
    {
      BeRoundTrip(n);
    }
  }

  function FixedStr(item: Rlp.Item, len: nat): (r: Option<Bytes>)
    ensures forall b: Bytes :: r == Some(b) <==> item == Rlp.Str(b) && |b| == len
  {
    if item.Str? && |item.bytes| == len then Some(item.bytes) else None
  }

  function DataOf(item: Rlp.Item): Option<VoteData> {
    if item.Str? || |item.items| != 4 then None
    else
      var f := item.items;
      match (UintOf(f[0]), FixedStr(f[1], 32), UintOf(f[2]), FixedStr(f[3], 32))
      case (Some(sn), Some(sh), Some(tn), Some(th)) => Some(VoteData(sn, Hash(sh), tn, Hash(th)))
      case _ => None
  }

  function AttestationOf(item: Rlp.Item): Option<VoteAttestation> {
    if item.Str? || |item.items| != 4 || item.items[3].List? then None
    else
      var f := item.items;
      match (UintOf(f[0]), FixedStr(f[1], 96), DataOf(f[2]))
      case (Some(bits), Some(sig), Some(data)) => Some(VoteAttestation(bits, sig, data, f[3].bytes))
      case _ => None
  }

  /** An empty slice is a header that carries no attestation. */
  function DecodeAttestation(raw: Bytes): Result<Option<VoteAttestation>, VoteError> {
    if raw == [] then Ok(None)
    else match Rlp.DecodeTop(raw, Rlp.VOTE_LEVELS)
      case None => Err(BadRlp)
      case Some(item) =>
        match AttestationOf(item)
        case None => Err(BadRlp)
        case Some(att) => Ok(Some(att))
  }

  function EncodeAttestation(a: VoteAttestation): Bytes {
    Rlp.Enc(AttestationItem(a))
  }

  lemma DataOfIff(item: Rlp.Item, d: VoteData)
    ensures DataOf(item) == Some(d) <==> item == DataItem(d)
  {
    if item.List? && |item.items| == 4 {
      var f := item.items;
      assert f == [f[0], f[1], f[2], f[3]];
      assert UintOf(f[0]) == Some(d.sourceNumber) <==> f[0] == Rlp.Str(ToBe(d.sourceNumber));
      assert UintOf(f[2]) == Some(d.targetNumber) <==> f[2] == Rlp.Str(ToBe(d.targetNumber));
      assert FixedStr(f[1], 32) == Some(d.sourceHash.bytes) <==> f[1] == Rlp.Str(d.sourceHash.bytes);
      assert FixedStr(f[3], 32) == Some(d.targetHash.bytes) <==> f[3] == Rlp.Str(d.targetHash.bytes);
      assert item == DataItem(d) <==> f == DataItem(d).items;
    }
  }

  lemma AttestationOfIff(item: Rlp.Item, a: VoteAttestation)
    ensures AttestationOf(item) == Some(a) <==> item == AttestationItem(a)
  {
    if item.List? && |item.items| == 4 {
      var f := item.items;
      assert f == [f[0], f[1], f[2], f[3]];
      DataOfIff(f[2], a.data);
      assert UintOf(f[0]) == Some(a.voteAddressSet) <==> f[0] == Rlp.Str(ToBe(a.voteAddressSet));
      assert FixedStr(f[1], 96) == Some(a.aggSignature) <==> f[1] == Rlp.Str(a.aggSignature);
      assert item == AttestationItem(a) <==> f == AttestationItem(a).items;
    }
  }

  /** The reader accepts exactly the encoder's bytes: each attestation has one spelling. */
  lemma DecodeAttestationIff(raw: Bytes, a: VoteAttestation)
    requires |raw| < U64
    ensures DecodeAttestation(raw) == Ok(Some(a)) <==> raw == EncodeAttestation(a)
  {
    var item := AttestationItem(a);
    assert Rlp.Nests(item, Rlp.VOTE_LEVELS) by {
      assert Rlp.Nests(DataItem(a.data), 1);
    }
    Rlp.DecodeTopIff(raw, Rlp.VOTE_LEVELS, item);
    if DecodeAttestation(raw) == Ok(Some(a)) {
      AttestationOfIff(Rlp.DecodeTop(raw, Rlp.VOTE_LEVELS).value, a);
    }
    if raw == EncodeAttestation(a) {
      AttestationOfIff(item, a);
    }
  }

  // ----- the voters' bit set -----

  /** bits >> i. */
  function Shr(bits: nat, i: nat): nat {
    if i == 0 then bits else Shr(bits, i - 1) / 2
  }

  predicate Bit(bits: nat, i: nat) {
    Shr(bits, i) % 2 == 1
  }

  function Popcount(bits: nat): nat {
    if bits == 0 then 0 else bits % 2 + Popcount(bits / 2)
  }

  /** Set bits below m, in increasing order. */
  function BitsBelow(bits: nat, m: nat): seq<nat> {
    if m == 0 then [] else BitsBelow(bits, m - 1) + if Bit(bits, m - 1) then [m - 1] else []
  }

  function VotedIndices(bits: Word, n: nat): Result<seq<nat>, VoteError> {
    if Popcount(bits) > n then Err(TooManyVotes)
    else if n < 64 && Shr(bits, n) != 0 then Err(BitOutOfRange)
    else Ok(BitsBelow(bits, if n < 64 then n else 64))
  }

  lemma {:induction false} ShrFront(bits: nat, i: nat)
    ensures Shr(bits, i + 1) == Shr(bits / 2, i)
  {
    if i > 0 { ShrFront(bits, i - 1); }
  }

  function Pow2(k: nat): nat {
    if k == 0 then 1 else 2 * Pow2(k - 1)
  }

  lemma {:induction false} ShrToZero(bits: nat, k: nat)
    requires bits < Pow2(k)
    ensures Shr(bits, k) == 0
  {
    if k > 0 {
      ShrToZero(bits / 2, k - 1);
      ShrFront(bits, k - 1);
    }
  }

  lemma {:induction false} BitsBelowCount(bits: nat, m: nat)
    ensures |BitsBelow(bits, m)| + Popcount(Shr(bits, m)) == Popcount(bits)
  {
    if m > 0 {
      BitsBelowCount(bits, m - 1);
    }
  }

  lemma {:induction false} BitsBelowMembers(bits: nat, m: nat)
    ensures forall i: nat :: i in BitsBelow(bits, m) <==> i < m && Bit(bits, i)
    ensures forall a, b | 0 <= a < b < |BitsBelow(bits, m)| :: BitsBelow(bits, m)[a] < BitsBelow(bits, m)[b]
  {
    if m > 0 {
      BitsBelowMembers(bits, m - 1);
      var init := BitsBelow(bits, m - 1);
      assert forall a | 0 <= a < |init| :: init[a] in init;
    }
  }

  lemma {:induction false} NoBitsAbove(bits: nat, n: nat, i: nat)
    requires n <= i && Shr(bits, n) == 0
    ensures Shr(bits, i) == 0 && !Bit(bits, i)
  {
    if n < i {
      NoBitsAbove(bits, n, i - 1);
    }
  }

  lemma {:induction false} SomeBitAbove(bits: nat, n: nat) returns (i: nat)
    requires Shr(bits, n) != 0
    ensures n <= i && Bit(bits, i)
    decreases Shr(bits, n)
  {
    i := n;
    if !Bit(bits, n) {
      i := SomeBitAbove(bits, n + 1);
    }
  }

  lemma Pow2Plus8(k: nat)
    ensures Pow2(k + 8) == 256 * Pow2(k)
  {
    assert Pow2(k + 8) == 2 * Pow2(k + 7) == 4 * Pow2(k + 6) == 8 * Pow2(k + 5) == 16 * Pow2(k + 4);
    assert Pow2(k + 4) == 2 * Pow2(k + 3) == 4 * Pow2(k + 2) == 8 * Pow2(k + 1) == 16 * Pow2(k);
  }

  lemma WordShiftsOut(bits: Word)
    ensures Shr(bits, 64) == 0
  {
    Pow2Plus8(0); Pow2Plus8(8); Pow2Plus8(16); Pow2Plus8(24);
    Pow2Plus8(32); Pow2Plus8(40); Pow2Plus8(48); Pow2Plus8(56);
    ShrToZero(bits, 64);
  }

  /** The bit set is accepted exactly when every set bit names one of the n validators, and then
      the indices are those bits, each once, in increasing order, as many as the popcount. */
  lemma VotedIndicesExact(bits: Word, n: nat)
    ensures VotedIndices(bits, n).Ok? <==> forall i: nat :: Bit(bits, i) ==> i < n
    ensures VotedIndices(bits, n).Ok? ==>
            var v := VotedIndices(bits, n).value;
            (forall i: nat :: i in v <==> Bit(bits, i)) && |v| == Popcount(bits) <= n
            && (forall a, b | 0 <= a < b < |v| :: v[a] < v[b])
  {
    WordShiftsOut(bits);
    var m := if n < 64 then n else 64;
    BitsBelowMembers(bits, m);
    BitsBelowCount(bits, m);
    if Shr(bits, m) == 0 {
      assert Popcount(0) == 0;
      forall i: nat | Bit(bits, i)
        ensures i < m
      {
        if m <= i { NoBitsAbove(bits, m, i); }
      }
      var v := BitsBelow(bits, m);
      assert forall a | 0 <= a < |v| :: v[a] in v;
      SortedBelow(v, m);
    } else {
      var i := SomeBitAbove(bits, m);
    }
  }

  /** A strictly rising list of numbers below m has at most m of them. */
  lemma {:induction false} SortedBelow(v: seq<nat>, m: nat)
    requires forall a, b | 0 <= a < b < |v| :: v[a] < v[b]
    requires forall a | 0 <= a < |v| :: v[a] < m
    ensures |v| <= m
  {
    if v != [] {
      SortedBelow(v[..|v| - 1], v[|v| - 1]);
    }
  }

  // ----- the super-majority -----

  function MinVotes(n: nat): nat {
    (2 * n + 2) / 3
  }

  function DataHash(c: Crypto, d: VoteData): Digest {
    c.keccak(Rlp.Enc(DataItem(d)))
  }

  function Keys(indices: seq<nat>, validators: seq<SealingValidator>): (k: seq<VoteKey>)
    requires forall j | 0 <= j < |indices| :: indices[j] < |validators|
    ensures |k| == |indices|
  {
    seq(|indices|, i requires 0 <= i < |indices| => validators[indices[i]].voteKey)
  }

  function VerifySignature(c: Crypto, att: VoteAttestation, validators: seq<SealingValidator>): Result<(), VoteError> {
    if |att.extra| > MAX_EXTRA_LEN then Err(ExtraTooLong)
    else match VotedIndices(att.voteAddressSet, |validators|)
      case Err(e) => Err(e)
      case Ok(indices) =>
        if indices == [] then Err(NoVotes)
        else
          VotedIndicesExact(att.voteAddressSet, |validators|);
          assert forall j | 0 <= j < |indices| :: indices[j] in indices;
          var keys := Keys(indices, validators);
          if exists i | 0 <= i < |keys| :: !c.keyValid(keys[i]) then Err(InvalidVoteKey)
          else if |keys| < MinVotes(|validators|) then Err(NotEnoughVotes)
          else if !c.aggregateVerify(keys, DataHash(c, att.data), att.aggSignature) then Err(BadSignature)
          else Ok(())
  }

  ghost function Voters(att: VoteAttestation, n: nat): set<nat> {
    set i: nat | i < n && Bit(att.voteAddressSet, i)
  }

  lemma {:induction false} RisingListIsItsSet(v: seq<nat>, s: set<nat>)
    requires forall a, b | 0 <= a < b < |v| :: v[a] < v[b]
    requires forall i: nat :: i in v <==> i in s
    ensures |s| == |v|
  {
    if v == [] {
      assert s == {};
    } else {
      var last := v[|v| - 1];
      var init := v[..|v| - 1];
      forall i: nat
        ensures i in init <==> i in s - {last}
      {
        assert i in v <==> i in init || i == last;
      }
      RisingListIsItsSet(init, s - {last});
      assert last in v;
    }
  }

  lemma VotersCount(att: VoteAttestation, n: nat)
    requires VotedIndices(att.voteAddressSet, n).Ok?
    ensures |Voters(att, n)| == |VotedIndices(att.voteAddressSet, n).value|
  {
    VotedIndicesExact(att.voteAddressSet, n);
    RisingListIsItsSet(VotedIndices(att.voteAddressSet, n).value, Voters(att, n));
  }

  ghost function Below(n: nat): (s: set<nat>)
    ensures |s| == n && forall i: nat :: i in s <==> i < n
  {
    if n == 0 then {} else Below(n - 1) + {n - 1}
  }

  /** Any two accepted attestations over the same n validators share at least 2*ceil(2n/3)-n
      voters, which is at least a third: finalizing two branches needs n/3 double voters. */
  lemma QuorumIntersection(c: Crypto, a: VoteAttestation, b: VoteAttestation, validators: seq<SealingValidator>)
    requires VerifySignature(c, a, validators).Ok? && VerifySignature(c, b, validators).Ok?
    ensures var n := |validators|;
            var both := Voters(a, n) * Voters(b, n);
            |both| >= 2 * MinVotes(n) - n && 3 * |both| >= n && (n > 0 ==> both != {})
  {
    var n := |validators|;
    var va, vb := Voters(a, n), Voters(b, n);
    VotersCount(a, n);
    VotersCount(b, n);
    SubsetSize(va + vb, Below(n));
    assert |va + vb| == |va| + |vb| - |va * vb|;
  }

  lemma {:induction false} SubsetSize<T>(a: set<T>, b: set<T>)
    requires a <= b
    ensures |a| <= |b|
  {
    if a != {} {
      var x :| x in a;
      SubsetSize(a - {x}, b - {x});
    }
  }
}
