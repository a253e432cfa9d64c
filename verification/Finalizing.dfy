/** Finality advances: with validators that all sign, every header in turn carries the next vote and the
    finalized head follows two blocks behind. */
module Finalizing {
  import opened Base
  import opened Vote
  import opened Headers
  import opened Fields
  import opened Lex
  import opened Snapshot
  import opened Runs
  import opened Validators
  import opened Adoption
  import opened Accountable
  import opened Schedule
  import opened Honest
  import Rlp

  /** Every key is valid and every aggregate verifies. */
  ghost predicate Agreeable(c: Crypto) {
    (forall k: VoteKey :: c.keyValid(k)) &&
    forall keys: seq<VoteKey>, m: Digest, sig: AggSignature :: c.aggregateVerify(keys, m, sig)
  }

  // ----- everyone's bit -----

  function AllBits(n: nat): (b: nat)
    ensures b == Pow2(n) - 1
  {
    if n == 0 then 0 else 2 * AllBits(n - 1) + 1
  }

  lemma {:induction false} AllBitsSet(n: nat, i: nat)
    ensures Bit(AllBits(n), i) <==> i < n
  {
    if n == 0 {
      Pow2Rises(0, i);
      ShrToZero(0, i);
    } else if i > 0 {
      ShrFront(AllBits(n), i - 1);
      AllBitsSet(n - 1, i - 1);
    }
  }

  lemma {:induction false} Pow2Rises(n: nat, m: nat)
    requires n <= m
    ensures Pow2(n) <= Pow2(m)
  {
    if n < m { Pow2Rises(n, m - 1); }
  }

  lemma AllBitsWord(n: nat)
    requires n <= 64
    ensures AllBits(n) < U64
  {
    Pow2Rises(n, 64);
    Pow2Plus8(0); Pow2Plus8(8); Pow2Plus8(16); Pow2Plus8(24);
    Pow2Plus8(32); Pow2Plus8(40); Pow2Plus8(48); Pow2Plus8(56);
  }

  // ----- the vote of the next header -----

  /** Source: the justified head, or before there is one the block below the parent; target: the parent. */
  function NextVote(s: Snap): VoteData
    requires 0 < s.number < REACH && (s.attestation.Some? ==> s.attestation.value.targetNumber < U64)
  {
    match s.attestation
    case None => VoteData(s.number - 1, Hash(Zeros(32)), s.number, s.hash)
    case Some(a) => VoteData(a.targetNumber, a.targetHash, s.number, s.hash)
  }

  function FullVote(s: Snap, n: nat): VoteAttestation
    requires 0 < s.number < REACH && n <= 64
  {
    AllBitsWord(n);
    VoteAttestation(AllBits(n), Zeros(96), NextVote(s), [])
  }

  lemma StrSize(b: Bytes)
    ensures |Rlp.Enc(Rlp.Str(b))| <= |b| + 9
  {
  }

  lemma ListSize(items: seq<Rlp.Item>)
    ensures |Rlp.Enc(Rlp.List(items))| <= |Rlp.EncAll(items)| + 9
  {
  }

  lemma FourSize(a: Rlp.Item, b: Rlp.Item, d: Rlp.Item, e: Rlp.Item)
    ensures |Rlp.EncAll([a, b, d, e])| == |Rlp.Enc(a)| + |Rlp.Enc(b)| + |Rlp.Enc(d)| + |Rlp.Enc(e)|
  {
    Rlp.EncAllCons([a, b, d, e]);
    Rlp.EncAllCons([b, d, e]);
    Rlp.EncAllCons([d, e]);
    Rlp.EncAllCons([e]);
    assert [a, b, d, e][1..] == [b, d, e] && [b, d, e][1..] == [d, e] && [d, e][1..] == [e] && [e][1..] == [];
  }

  lemma DataSize(d: VoteData)
    ensures |Rlp.Enc(DataItem(d))| <= 125
  {
    var a, b, e, f := Rlp.Str(ToBe(d.sourceNumber)), Rlp.Str(d.sourceHash.bytes), Rlp.Str(ToBe(d.targetNumber)), Rlp.Str(d.targetHash.bytes);
    Pow256Is64Bits();
    BeLength(d.sourceNumber, 8);
    BeLength(d.targetNumber, 8);
    StrSize(ToBe(d.sourceNumber)); StrSize(d.sourceHash.bytes); StrSize(ToBe(d.targetNumber)); StrSize(d.targetHash.bytes);
    FourSize(a, b, e, f);
    ListSize([a, b, e, f]);
  }

  lemma VoteSize(a: VoteAttestation)
    requires a.extra == []
    ensures |EncodeAttestation(a)| <= 1000
  {
    Pow256Is64Bits();
    BeLength(a.voteAddressSet, 8);
    StrSize(ToBe(a.voteAddressSet)); StrSize(a.aggSignature); StrSize(a.extra);
    DataSize(a.data);
    var w, x, y, z := Rlp.Str(ToBe(a.voteAddressSet)), Rlp.Str(a.aggSignature), DataItem(a.data), Rlp.Str(a.extra);
    FourSize(w, x, y, z);
    ListSize([w, x, y, z]);
  }

  // ----- it is adopted -----

  ghost predicate EveryoneSigns(c: Crypto, att: VoteAttestation, vals: seq<SealingValidator>) {
    Agreeable(c) && 0 < |vals| <= 64 && att.voteAddressSet == AllBits(|vals|) && att.extra == []
  }

  lemma EveryoneBacks(c: Crypto, att: VoteAttestation, vals: seq<SealingValidator>)
    requires EveryoneSigns(c, att, vals)
    ensures Backed(c, att, vals)
  {
    var n := |vals|;
    var idx := seq(n, i => i);
    var keys := seq(n, i requires 0 <= i < n => vals[i].voteKey);
    forall i: nat
      ensures i in idx <==> Bit(AllBits(n), i)
    {
      AllBitsSet(n, i);
      if i < n { assert idx[i] == i; }
    }
    assert BitList(att.voteAddressSet, idx) && KeysAre(idx, vals, keys);
    assert BackedBy(c, att, vals, idx, keys);
  }

  /** Both generations hold these keys, so every target is checked against them. */
  predicate KeysEverywhere(s: Snap, vals: seq<SealingValidator>) {
    KeysKept(s, vals) && (s.setChangedAt == 0 || s.prevVoteSet == vals)
  }

  lemma KeysEverywhereStep(s: Snap, m: Move, t: Snap, vals: seq<SealingValidator>)
    requires KeysEverywhere(s, vals) && Chains(s, m, t) && Announces(s, m, t) && (m.Take? ==> Reannounces(m.header, vals))
    ensures KeysEverywhere(t, vals)
  {
    KeysStep(s, m, t, vals);
  }

  /** After the first header: justified the parent, finalized the block below it. */
  predicate Following(s0: Snap, s: Snap) {
    if s.number == s0.number then s.attestation.None?
    else s.attestation.Some? && s.attestation.value.targetNumber == s.number - 1 && s.attestation.value.sourceNumber == s.number - 2
  }

  lemma NextVoteAdoptable(c: Crypto, s0: Snap, hist: seq<Header>, s: Snap, vals: seq<SealingValidator>, att: VoteAttestation, time: nat)
    requires Spine(s0, hist, s) && 0 < s0.number && s.number < REACH && Following(s0, s) && KeysEverywhere(s, vals)
    requires EveryoneSigns(c, att, vals) && att.data == NextVote(s)
    ensures Adoptable(c, s0, hist, s, s.number + 1, time, att)
  {
    EveryoneBacks(c, att, vals);
    assert AttestationSet(s, s.number) == vals;
  }

  lemma NextVoteMoves(s0: Snap, s: Snap, t: Snap)
    requires 0 < s0.number <= s.number < REACH && Following(s0, s) && t.number == s.number + 1
    requires Heads(s.attestation, NextVote(s), t.attestation)
    ensures Following(s0, t)
  {
  }

  // ----- the announcement that keeps the keys -----

  lemma {:induction false} SortedStays(vals: seq<SealingValidator>)
    requires Increasing(AddressesOf(vals))
    ensures SortValidators(vals) == vals
  {
    if vals != [] {
      AddressesOfTail(vals);
      TailIncreasing(AddressesOf(vals));
      SortedStays(vals[1..]);
      if |vals| > 1 {
        assert LessAt(AddressesOf(vals), 0, 1);
        Trichotomy(vals[0].address.bytes, vals[1].address.bytes);
      }
      assert [vals[0]] + vals[1..] == vals;
    }
  }

  lemma IncreasingDistinct(vals: seq<SealingValidator>)
    requires Increasing(AddressesOf(vals))
    ensures DistinctAddresses(vals)
  {
    forall i, j | 0 <= i < j < |vals|
      ensures vals[i].address != vals[j].address
    {
      assert LessAt(AddressesOf(vals), i, j);
      Trichotomy(vals[i].address.bytes, vals[i].address.bytes);
    }
  }

  /** A start whose keys are known, and what its epochs announce again. */
  predicate KeyedStart(s0: Snap, vals: seq<SealingValidator>, turn: Byte) {
    0 < s0.number && s0.voteSet == vals && 0 < |vals| <= 64 && 0 < turn <= MAX_TURN_LENGTH && s0.validators == AddressesOf(vals)
  }

  lemma SameNotice(vals: seq<SealingValidator>, turn: Byte)
    requires Increasing(AddressesOf(vals)) && 0 < |vals| <= 64 && 0 < turn <= MAX_TURN_LENGTH
    ensures GoodNotice(Notice(vals, turn)) && SortValidators(vals) == vals
  {
    SortedStays(vals);
    IncreasingDistinct(vals);
  }

  // ----- one header -----

  /** The run so far: in turn, its keys kept, finality two blocks behind. */
  ghost predicate Advancing(c: Crypto, s0: Snap, vals: seq<SealingValidator>, hs: seq<Header>, s: Snap) {
    SoFar(c, s0, hs, s) && Spine(s0, hs, s) && KeysEverywhere(s, vals) && Following(s0, s) && s.enforceInturn == s0.enforceInturn
  }

  lemma NextHeader(c: Crypto, s: Snap, vals: seq<SealingValidator>, turn: Byte) returns (h: Header, att: VoteAttestation)
    requires 0 < s.number && s.number + 1 < REACH && GoodNotice(Notice(vals, turn)) && |vals| <= 64
    requires s.turnLength > 0 && s.validators != []
    ensures att == FullVote(s, |vals|) && h == Craft(c, s, InturnAt(s, s.number + 1), Notice(vals, turn), EncodeAttestation(att))
    ensures InturnHeader(c, s, h) && Decoded(h) && Live(h) && h.extra.Some? && h.extra.value.attestation == EncodeAttestation(att)
    ensures IsEpoch(h.number) ==> h.extra.value.validators == vals
  {
    att := FullVote(s, |vals|);
    var v, a := InturnAt(s, s.number + 1), Notice(vals, turn);
    h := Craft(c, s, v, a, EncodeAttestation(att));
    VoteSize(att);
    CraftSealed(c, s, v, a, EncodeAttestation(att));
    CraftDecoded(c, s, v, a, EncodeAttestation(att));
    InturnIsMember(s);
  }

  lemma NextAdopts(c: Crypto, s0: Snap, vals: seq<SealingValidator>, hs: seq<Header>, s: Snap, h: Header, att: VoteAttestation)
    requires Advancing(c, s0, vals, hs, s) && 0 < s0.number && s.number + 1 < REACH && Agreeable(c) && 0 < |vals| <= 64
    requires att == FullVote(s, |vals|) && h.number == s.number + 1
    requires h.extra.Some? && h.extra.value.attestation == EncodeAttestation(att)
    ensures CheckAttestation(c, Residue(s), EncodeAttestation(att), h.number, h.time) == Ok(Some(NextVote(s)))
  {
    ResidueSpine(s0, hs, s);
    var r := Residue(s);
    assert KeysEverywhere(r, vals) && Following(s0, r) && NextVote(r) == NextVote(s);
    NextVoteAdoptable(c, s0, hs, r, vals, att, h.time);
    VoteSize(att);
    AdoptedIff(c, s0, hs, r, EncodeAttestation(att), h.number, h.time, att.data);
    assert Carries(EncodeAttestation(att), att);
  }

  lemma SpineAfter(c: Crypto, s0: Snap, hs: seq<Header>)
    requires Fresh(s0) && AllAccepted(c, s0, hs)
    ensures Spine(s0, hs, Feed(c, s0, hs))
  {
    var r := FeedIsRun(c, s0, hs);
    assert Traces(c, s0, hs, r, |hs|) && hs[..|hs|] == hs;
    SpineAlways(r, |hs|);
  }

  /** The keys and the heads after an accepted header of this kind. */
  lemma AcceptedKeeps(c: Crypto, s0: Snap, vals: seq<SealingValidator>, s: Snap, h: Header)
    requires ApplyHeader(c, s, h).Accepted? && KeysEverywhere(s, vals) && Following(s0, s) && 0 < s0.number <= s.number < REACH
    requires h.number == s.number + 1 && SortValidators(vals) == vals && (IsEpoch(h.number) && h.extra.Some? ==> h.extra.value.validators == vals)
    requires h.extra.Some? && CheckAttestation(c, Residue(s), h.extra.value.attestation, h.number, h.time) == Ok(Some(NextVote(s)))
    ensures KeysEverywhere(ApplyHeader(c, s, h).snap, vals) && Following(s0, ApplyHeader(c, s, h).snap)
    ensures ApplyHeader(c, s, h).snap.enforceInturn == s.enforceInturn
  {
    var m := ApplyIsMove(c, s, h);
    var t := ApplyHeader(c, s, h).snap;
    assert m.Take? && m.header == h by { assert HeaderOf(m)[0] == h; }
    KeysEverywhereStep(s, m, t, vals);
    AcceptedMovesHeads(c, s, h);
    NextVoteMoves(s0, s, t);
  }

  lemma AdvancingStep(c: Crypto, s0: Snap, vals: seq<SealingValidator>, turn: Byte, hs: seq<Header>, s: Snap) returns (h: Header, t: Snap)
    requires Fresh(s0) && Advancing(c, s0, vals, hs, s) && Agreeable(c) && KeyedStart(s0, vals, turn) && Increasing(AddressesOf(vals))
    requires AllLive(hs) && s0.number + |hs| + 1 < REACH
    ensures Advancing(c, s0, vals, hs + [h], t) && Live(h) && Decoded(h) && InturnHeader(c, s, h)
  {
    SameNotice(vals, turn);
    var att;
    h, att := NextHeader(c, s, vals, turn);
    NextAdopts(c, s0, vals, hs, s, h, att);
    SoFarIff(c, s0, hs, s, h);
    t := ApplyHeader(c, s, h).snap;
    AcceptedKeeps(c, s0, vals, s, h);
    LiveJoin(hs, h);
    SoFarJoin(c, s0, hs, s, h);
    SpineAfter(c, s0, hs + [h]);
  }

  lemma LiveJoin(hs: seq<Header>, h: Header)
    requires AllLive(hs) && Live(h)
    ensures AllLive(hs + [h])
  {
  }

  lemma AdvancingStart(c: Crypto, s0: Snap, vals: seq<SealingValidator>, turn: Byte)
    requires Fresh(s0) && KeyedStart(s0, vals, turn) && Increasing(AddressesOf(vals))
    ensures Advancing(c, s0, vals, [], s0)
  {
    TurningStart(s0);
    RecentAfter(c, s0, []);
    SpineAfter(c, s0, []);
  }

  /** Finality advances with the chain: for any crypto that lets the validators sign, from any keyed start
      and for any length, some decodable headers sealed in turn, through any number of epochs, are all
      accepted, each adopts the next vote, and the finalized head ends two blocks below the tip. */
  lemma {:induction false} FinalityAdvances(c: Crypto, s0: Snap, vals: seq<SealingValidator>, turn: Byte, len: nat)
    returns (hs: seq<Header>, s: Snap)
    requires Fresh(s0) && Agreeable(c) && KeyedStart(s0, vals, turn) && Increasing(AddressesOf(vals)) && s0.number + len < REACH
    ensures |hs| == len && AllAccepted(c, s0, hs) && AllLive(hs) && AllDecoded(hs) && s == Feed(c, s0, hs)
    ensures Advancing(c, s0, vals, hs, s) && s.number == s0.number + len
    ensures len > 0 ==> s.attestation.Some? && s.attestation.value.targetNumber == s.number - 1 &&
                        s.attestation.value.sourceNumber == s.number - 2 == FinalizedNumber(s)
  {
    if len == 0 {
      hs, s := [], s0;
      AdvancingStart(c, s0, vals, turn);
    } else {
      var before, mid := FinalityAdvances(c, s0, vals, turn, len - 1);
      var h;
      h, s := AdvancingStep(c, s0, vals, turn, before, mid);
      hs := before + [h];
      LiveJoin(before, h);
    }
  }
}
