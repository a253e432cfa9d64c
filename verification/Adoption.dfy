/** When a vote is adopted: attestations characterised by the walked chain, the justified head and the
    signatures they carry, not by the order of the checks. */
module Adoption {
  import opened Base
  import opened Vote
  import opened Headers
  import opened Snapshot
  import opened Runs
  import Rlp

  // ----- the voters' word -----

  /** Sum of 2^i over the bits i below k that are set. */
  ghost function Digits(bits: nat, k: nat): nat {
    if k == 0 then 0 else Digits(bits, k - 1) + if Bit(bits, k - 1) then Pow2(k - 1) else 0
  }

  lemma {:induction false} DigitsAndRest(bits: nat, k: nat)
    ensures bits == Digits(bits, k) + Pow2(k) * Shr(bits, k)
  {
    if k > 0 {
      DigitsAndRest(bits, k - 1);
      OneDigit(Shr(bits, k - 1), Shr(bits, k), Pow2(k - 1));
    }
  }

  lemma OneDigit(s: nat, h: nat, p: nat)
    requires h == s / 2
    ensures p * s == (2 * p) * h + if s % 2 == 1 then p else 0
  {
    var b := s % 2;
    assert s == 2 * h + b;
    assert p * (2 * h + b) == p * (2 * h) + p * b;
    assert p * (2 * h) == (2 * p) * h;
  }

  /** The bits are the word's binary digits. */
  lemma BitsAreDigits(bits: Word)
    ensures bits == Digits(bits, 64)
  {
    DigitsAndRest(bits, 64);
    WordShiftsOut(bits);
  }

  // ----- a super-majority's signature -----

  /** The set bits, each once, in increasing order. */
  ghost predicate BitList(bits: nat, idx: seq<nat>) {
    (forall i: nat :: i in idx <==> Bit(bits, i)) && forall a, b | 0 <= a < b < |idx| :: idx[a] < idx[b]
  }

  lemma {:induction false} BitListUnique(x: seq<nat>, y: seq<nat>)
    requires forall i: nat :: i in x <==> i in y
    requires forall a, b | 0 <= a < b < |x| :: x[a] < x[b]
    requires forall a, b | 0 <= a < b < |y| :: y[a] < y[b]
    ensures x == y
  {
    var s := set i: nat | i in x;
    RisingListIsItsSet(x, s);
    RisingListIsItsSet(y, s);
    if x != [] {
      assert x[|x| - 1] in y;
      var l, m := x[|x| - 1], y[|y| - 1];
      assert m in x;
      assert l == m;
      var u, v := x[..|x| - 1], y[..|y| - 1];
      forall k: nat
        ensures k in u <==> k in v
      {
        assert k in x <==> k in u || k == l;
        assert k in y <==> k in v || k == m;
      }
      BitListUnique(u, v);
      assert x == u + [l] && y == v + [m];
    }
  }

  /** What the voters sign: keccak of the RLP list of source number, source hash, target number and
      target hash. */
  function Signed(c: Crypto, d: VoteData): Digest {
    c.keccak(Rlp.Enc(Rlp.List([Rlp.Str(ToBe(d.sourceNumber)), Rlp.Str(d.sourceHash.bytes),
                               Rlp.Str(ToBe(d.targetNumber)), Rlp.Str(d.targetHash.bytes)])))
  }

  ghost predicate KeysAre(idx: seq<nat>, vals: seq<SealingValidator>, keys: seq<VoteKey>) {
    |keys| == |idx| && forall j | 0 <= j < |idx| :: idx[j] < |vals| && keys[j] == vals[idx[j]].voteKey
  }

  ghost predicate BackedBy(c: Crypto, att: VoteAttestation, vals: seq<SealingValidator>, idx: seq<nat>, keys: seq<VoteKey>) {
    BitList(att.voteAddressSet, idx) && KeysAre(idx, vals, keys) && idx != [] && 3 * |idx| >= 2 * |vals| &&
    (forall j | 0 <= j < |keys| :: c.keyValid(keys[j])) && c.aggregateVerify(keys, Signed(c, att.data), att.aggSignature)
  }

  /** Two thirds of these validators, and nobody else, signed the vote. */
  ghost predicate Backed(c: Crypto, att: VoteAttestation, vals: seq<SealingValidator>) {
    |att.extra| <= 256 && exists idx: seq<nat>, keys: seq<VoteKey> :: BackedBy(c, att, vals, idx, keys)
  }

  lemma SignatureIff(c: Crypto, att: VoteAttestation, vals: seq<SealingValidator>)
    ensures VerifySignature(c, att, vals).Ok? <==> Backed(c, att, vals)
  {
    VotedIndicesExact(att.voteAddressSet, |vals|);
    if VotedIndices(att.voteAddressSet, |vals|).Ok? {
      var v := VotedIndices(att.voteAddressSet, |vals|).value;
      BackedIsVerified(c, att, vals, v);
    }
    BackedBelow(c, att, vals);
  }

  lemma AllBelow(bits: nat, idx: seq<nat>, vals: seq<SealingValidator>, keys: seq<VoteKey>)
    requires BitList(bits, idx) && KeysAre(idx, vals, keys)
    ensures forall i: nat :: Bit(bits, i) ==> i < |vals|
  {
    forall i: nat | Bit(bits, i)
      ensures i < |vals|
    {
      assert i in idx;
    }
  }

  lemma BackedBelow(c: Crypto, att: VoteAttestation, vals: seq<SealingValidator>)
    ensures Backed(c, att, vals) ==> forall i: nat :: Bit(att.voteAddressSet, i) ==> i < |vals|
  {
    if idx: seq<nat>, keys: seq<VoteKey> :| BackedBy(c, att, vals, idx, keys) {
      AllBelow(att.voteAddressSet, idx, vals, keys);
    }
  }

  lemma BackedIsVerified(c: Crypto, att: VoteAttestation, vals: seq<SealingValidator>, v: seq<nat>)
    requires VotedIndices(att.voteAddressSet, |vals|) == Ok(v) && BitList(att.voteAddressSet, v)
    requires forall i: nat :: Bit(att.voteAddressSet, i) ==> i < |vals|
    ensures VerifySignature(c, att, vals).Ok? <==> Backed(c, att, vals)
  {
    assert forall j | 0 <= j < |v| :: v[j] in v;
    var keys := Keys(v, vals);
    assert KeysAre(v, vals, keys);
    VerifiedIff(c, att, vals, v, keys);
    if Backed(c, att, vals) {
      var idx: seq<nat>, ks: seq<VoteKey> :| BackedBy(c, att, vals, idx, ks);
      BitListUnique(idx, v);
      assert ks == keys;
    }
  }

  lemma VerifiedIff(c: Crypto, att: VoteAttestation, vals: seq<SealingValidator>, v: seq<nat>, keys: seq<VoteKey>)
    requires VotedIndices(att.voteAddressSet, |vals|) == Ok(v) && BitList(att.voteAddressSet, v) && KeysAre(v, vals, keys)
    ensures VerifySignature(c, att, vals).Ok? <==> |att.extra| <= 256 && BackedBy(c, att, vals, v, keys)
  {
    VotedIndicesExact(att.voteAddressSet, |vals|);
    assert forall j | 0 <= j < |v| :: v[j] in v;
    assert Keys(v, vals) == keys;
    assert DataHash(c, att.data) == Signed(c, att.data);
    assert MinVotes(|vals|) <= |keys| <==> 3 * |v| >= 2 * |vals|;
  }

  // ----- the verdict on an attestation -----

  /** The target is the walked block it names, the parent or, from Fermi on, up to two blocks older. */
  predicate TargetFits(s0: Snap, hist: seq<Header>, number: nat, time: nat, d: VoteData) {
    d.targetNumber < number && s0.number <= d.targetNumber <= s0.number + |hist| &&
    (d.targetNumber == number - 1 || (number >= 31_302_048 && time >= 1_768_357_800 && d.targetNumber + 3 >= number)) &&
    BlockHash(s0, hist, d.targetNumber) == d.targetHash
  }

  /** The target lies in the window but below the checkpoint, so its hash is unknown. */
  predicate TargetUnknown(s0: Snap, number: nat, time: nat, d: VoteData) {
    d.targetNumber < s0.number &&
    (d.targetNumber == number - 1 || (number >= 31_302_048 && time >= 1_768_357_800 && d.targetNumber + 3 >= number))
  }

  /** The vote builds on the justified head, when there is one. */
  predicate SourceFits(s: Snap, d: VoteData) {
    s.attestation.Some? ==> d.sourceNumber == s.attestation.value.targetNumber && d.sourceHash == s.attestation.value.targetHash
  }

  /** Everything an attestation needs to be adopted. */
  ghost predicate Adoptable(c: Crypto, s0: Snap, hist: seq<Header>, s: Snap, number: nat, time: nat, att: VoteAttestation) {
    var d := att.data;
    var vals := AttestationSet(s, d.targetNumber);
    d.sourceNumber < d.targetNumber && TargetFits(s0, hist, number, time, d) && SourceFits(s, d) && vals != [] && Backed(c, att, vals)
  }

  /** An attestation that is passed over: its validators' keys or its target's hash are not known here. */
  ghost predicate Undecided(s0: Snap, s: Snap, number: nat, time: nat, att: VoteAttestation) {
    att.data.sourceNumber < att.data.targetNumber &&
    (AttestationSet(s, att.data.targetNumber) == [] || TargetUnknown(s0, number, time, att.data))
  }

  lemma WindowIs(s0: Snap, hist: seq<Header>, s: Snap, number: nat, time: nat, d: VoteData)
    requires Spine(s0, hist, s) && number == s.number + 1
    ensures var w := TargetWindow(number, time);
            var known := AncestorHash(s.ancestors, d.targetNumber);
            (w.0 <= d.targetNumber <= w.1 && known == Some(d.targetHash) <==> TargetFits(s0, hist, number, time, d))
            && (w.0 <= d.targetNumber <= w.1 && known == None <==> TargetUnknown(s0, number, time, d))
  {
    AncestorIsBlock(s0, hist, s, d.targetNumber);
  }

  lemma VerdictOf(c: Crypto, s0: Snap, hist: seq<Header>, s: Snap, raw: Bytes, number: nat, time: nat, att: VoteAttestation)
    requires Spine(s0, hist, s) && number == s.number + 1 && DecodeAttestation(raw) == Ok(Some(att))
    ensures CheckAttestation(c, s, raw, number, time) == Ok(Some(att.data)) <==> Adoptable(c, s0, hist, s, number, time, att)
    ensures CheckAttestation(c, s, raw, number, time) == Ok(None) <==> Undecided(s0, s, number, time, att)
  {
    WindowIs(s0, hist, s, number, time, att.data);
    SignatureIff(c, att, AttestationSet(s, att.data.targetNumber));
  }

  lemma VerdictShape(c: Crypto, s: Snap, raw: Bytes, number: nat, time: nat)
    ensures DecodeAttestation(raw).Err? ==> CheckAttestation(c, s, raw, number, time).Err?
    ensures DecodeAttestation(raw) == Ok(None) ==> CheckAttestation(c, s, raw, number, time) == Ok(None)
    ensures forall d :: CheckAttestation(c, s, raw, number, time) == Ok(Some(d)) ==>
              DecodeAttestation(raw).Ok? && DecodeAttestation(raw).value.Some? && DecodeAttestation(raw).value.value.data == d
  {
  }

  /** Adoption, exactly: the bytes are the encoding of an attestation whose target is a walked block of the
      window, whose source is the justified head, and which two thirds of the validators signed. */
  lemma AdoptedIff(c: Crypto, s0: Snap, hist: seq<Header>, s: Snap, raw: Bytes, number: nat, time: nat, d: VoteData)
    requires Spine(s0, hist, s) && number == s.number + 1 && |raw| < U64
    ensures CheckAttestation(c, s, raw, number, time) == Ok(Some(d))
            <==> exists att: VoteAttestation :: att.data == d && Carries(raw, att) && Adoptable(c, s0, hist, s, number, time, att)
  {
    VerdictShape(c, s, raw, number, time);
    if DecodeAttestation(raw).Ok? && DecodeAttestation(raw).value.Some? {
      var att := DecodeAttestation(raw).value.value;
      DecodeAttestationIff(raw, att);
      VerdictOf(c, s0, hist, s, raw, number, time, att);
      OneCarried(raw, att);
    }
    CarriedDecodes(raw);
  }

  predicate Carries(raw: Bytes, att: VoteAttestation) {
    raw == EncodeAttestation(att)
  }

  lemma OneCarried(raw: Bytes, att: VoteAttestation)
    requires |raw| < U64 && DecodeAttestation(raw) == Ok(Some(att))
    ensures forall b: VoteAttestation :: Carries(raw, b) <==> b == att
  {
    forall b: VoteAttestation
      ensures Carries(raw, b) <==> b == att
    {
      DecodeAttestationIff(raw, b);
    }
  }

  lemma CarriedDecodes(raw: Bytes)
    requires |raw| < U64
    ensures forall b: VoteAttestation :: Carries(raw, b) ==> DecodeAttestation(raw) == Ok(Some(b))
  {
    forall b: VoteAttestation
      ensures Carries(raw, b) ==> DecodeAttestation(raw) == Ok(Some(b))
    {
      DecodeAttestationIff(raw, b);
    }
  }

  /** Passed over, exactly: nothing is carried, or what is carried cannot be judged here. Everything else is
      an error that refuses the header. */
  lemma PassedOverIff(c: Crypto, s0: Snap, hist: seq<Header>, s: Snap, raw: Bytes, number: nat, time: nat)
    requires Spine(s0, hist, s) && number == s.number + 1 && |raw| < U64
    ensures CheckAttestation(c, s, raw, number, time) == Ok(None)
            <==> raw == [] || exists att: VoteAttestation :: Carries(raw, att) && Undecided(s0, s, number, time, att)
  {
    VerdictShape(c, s, raw, number, time);
    EmptyIsNone(raw);
    if DecodeAttestation(raw).Ok? && DecodeAttestation(raw).value.Some? {
      var att := DecodeAttestation(raw).value.value;
      VerdictOf(c, s0, hist, s, raw, number, time, att);
      OneCarried(raw, att);
    }
    CarriedDecodes(raw);
  }

  lemma EmptyIsNone(raw: Bytes)
    ensures DecodeAttestation(raw) == Ok(None) <==> raw == []
  {
  }

  // ----- what adoption does -----

  /** Justified: the newest adopted target. Finalized: its source, when the vote is the first or targets the
      block right after its source; otherwise as before. */
  predicate Heads(before: Option<VoteData>, d: VoteData, after: Option<VoteData>) {
    after.Some? && after.value.targetNumber == d.targetNumber && after.value.targetHash == d.targetHash &&
    if before.None? || d.targetNumber == d.sourceNumber + 1
    then after.value.sourceNumber == d.sourceNumber && after.value.sourceHash == d.sourceHash
    else after.value.sourceNumber == before.value.sourceNumber && after.value.sourceHash == before.value.sourceHash
  }

  /** An accepted header moves the heads exactly by the vote it carries, and leaves them when it carries none
      that can be adopted. */
  lemma AcceptedMovesHeads(c: Crypto, s: Snap, h: Header)
    requires ApplyHeader(c, s, h).Accepted?
    ensures h.extra.Some?
    ensures var verdict := CheckAttestation(c, Residue(s), h.extra.value.attestation, h.number, h.time);
            verdict.Ok? && match verdict.value
                           case Some(d) => d.sourceNumber < d.targetNumber && Heads(s.attestation, d, ApplyHeader(c, s, h).snap.attestation)
                           case None => ApplyHeader(c, s, h).snap.attestation == s.attestation
  {
    AcceptFacts(c, s, h);
    var (x, adopted) := LateCheck(c, Residue(s), h, h.miner).value;
    RecordFields(s, h, x, adopted);
    ActivateFields(s, Record(Residue(s), h, x, h.miner, adopted), h.number);
    LateIsVerdict(c, Residue(s), h, adopted);
    if adopted.Some? {
      CheckedVoteFits(c, Residue(s), x.attestation, h.number, h.time, adopted.value);
    }
  }

  lemma LateIsVerdict(c: Crypto, s: Snap, h: Header, adopted: Option<VoteData>)
    requires LateCheck(c, s, h, h.miner).Ok? && LateCheck(c, s, h, h.miner).value.1 == adopted
    ensures h.extra.Some? && CheckAttestation(c, s, h.extra.value.attestation, h.number, h.time) == Ok(adopted)
    ensures LateCheck(c, s, h, h.miner).value.0 == h.extra.value
  {
  }

  /** The history entry that leaves has no say in it. */
  lemma ResidueSpine(s0: Snap, hist: seq<Header>, s: Snap)
    requires Spine(s0, hist, s)
    ensures Spine(s0, hist, Residue(s)) && Residue(s).number == s.number && Residue(s).attestation == s.attestation
    ensures forall t: nat :: AttestationSet(Residue(s), t) == AttestationSet(s, t)
  {
  }
}
