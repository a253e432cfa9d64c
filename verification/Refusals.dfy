/** Why a header is refused: the first rule it breaks, and of a recovery or a vote that fails, the first reason. */
module Refusals {
  import opened Base
  import opened Vote
  import opened Headers
  import opened Snapshot
  import opened Runs
  import opened Sync
  import opened Engine
  import opened Node
  import opened Progress
  import Adoption
  import Verdict

  // ----- a vote's signature -----

  ghost predicate AnyAbove(idx: seq<nat>, n: nat) {
    exists j :: 0 <= j < |idx| && idx[j] >= n
  }

  ghost predicate AnyInvalid(c: Crypto, vals: seq<SealingValidator>, idx: seq<nat>) {
    exists j :: 0 <= j < |idx| && idx[j] < |vals| && !c.keyValid(vals[idx[j]].voteKey)
  }

  /** The first thing wrong with a vote, its voters given; None when it is signed. */
  ghost function Reason(c: Crypto, att: VoteAttestation, vals: seq<SealingValidator>, idx: seq<nat>): Option<VoteError> {
    if |att.extra| > 256 then Some(ExtraTooLong)
    else if |idx| > |vals| then Some(TooManyVotes)
    else if AnyAbove(idx, |vals|) then Some(BitOutOfRange)
    else if idx == [] then Some(NoVotes)
    else if AnyInvalid(c, vals, idx) then Some(InvalidVoteKey)
    else if 3 * |idx| < 2 * |vals| then Some(NotEnoughVotes)
    else if !Adoption.Backed(c, att, vals) then Some(BadSignature)
    else None
  }

  lemma VotersAre(bits: Word, idx: seq<nat>)
    requires Adoption.BitList(bits, idx)
    ensures |idx| == Popcount(bits)
  {
    WordShiftsOut(bits);
    BitsBelowMembers(bits, 64);
    BitsBelowCount(bits, 64);
    assert Popcount(0) == 0;
    var v := BitsBelow(bits, 64);
    assert forall a | 0 <= a < |v| :: v[a] in v;
    SortedBelow(v, 64);
    forall i: nat | Bit(bits, i)
      ensures i < 64
    {
      if 64 <= i { NoBitsAbove(bits, 64, i); }
    }
    Adoption.BitListUnique(v, idx);
  }

  lemma IndicesAre(bits: Word, n: nat, idx: seq<nat>)
    requires Adoption.BitList(bits, idx)
    ensures VotedIndices(bits, n) ==
            if |idx| > n then Err(TooManyVotes) else if AnyAbove(idx, n) then Err(BitOutOfRange) else Ok(idx)
  {
    VotersAre(bits, idx);
    VotedIndicesExact(bits, n);
    assert AnyAbove(idx, n) <==> exists i: nat :: Bit(bits, i) && i >= n by {
      if i: nat :| Bit(bits, i) && i >= n {
        assert i in idx;
      }
      if j :| 0 <= j < |idx| && idx[j] >= n {
        assert idx[j] in idx;
      }
    }
    if VotedIndices(bits, n).Ok? {
      Adoption.BitListUnique(VotedIndices(bits, n).value, idx);
    }
  }

  /** A vote's signature is refused for the first thing wrong with it. */
  lemma SignatureRefusal(c: Crypto, att: VoteAttestation, vals: seq<SealingValidator>, idx: seq<nat>)
    requires Adoption.BitList(att.voteAddressSet, idx)
    ensures var r := VerifySignature(c, att, vals);
            if Reason(c, att, vals, idx).Some? then r == Err(Reason(c, att, vals, idx).value) else r.Ok?
  {
    IndicesAre(att.voteAddressSet, |vals|, idx);
    Adoption.SignatureIff(c, att, vals);
    if |idx| <= |vals| && !AnyAbove(idx, |vals|) {
      KeysOfVoters(c, vals, idx);
    }
  }

  lemma KeysOfVoters(c: Crypto, vals: seq<SealingValidator>, idx: seq<nat>)
    requires !AnyAbove(idx, |vals|)
    ensures forall j | 0 <= j < |idx| :: idx[j] < |vals|
    ensures AnyInvalid(c, vals, idx) <==> exists i | 0 <= i < |Keys(idx, vals)| :: !c.keyValid(Keys(idx, vals)[i])
    ensures 3 * |idx| < 2 * |vals| <==> |Keys(idx, vals)| < MinVotes(|vals|)
  {
    forall j | 0 <= j < |idx|
      ensures idx[j] < |vals|
    {
    }
    var keys := Keys(idx, vals);
    if j :| 0 <= j < |idx| && !c.keyValid(vals[idx[j]].voteKey) {
      assert !c.keyValid(keys[j]);
    }
    if i :| 0 <= i < |keys| && !c.keyValid(keys[i]) {
      assert !c.keyValid(vals[idx[i]].voteKey);
    }
  }

  // ----- an attestation -----

  /** Heights a header at this height and time may carry a vote for. */
  predicate InWindow(number: nat, time: nat, target: nat) {
    target < number && (target == number - 1 || (number >= 31_302_048 && time >= 1_768_357_800 && target + 3 >= number))
  }

  /** A vote that is judged at all, for a block this client has walked. */
  ghost predicate ForWalked(s0: Snap, s: Snap, number: nat, time: nat, d: VoteData) {
    d.sourceNumber < d.targetNumber && AttestationSet(s, d.targetNumber) != [] && InWindow(number, time, d.targetNumber) &&
    s0.number <= d.targetNumber
  }

  /** Why an attestation is refused, or that its signature decides. */
  ghost function VoteReason(s0: Snap, hist: seq<Header>, s: Snap, number: nat, time: nat, d: VoteData): Option<SnapError> {
    var just := s.attestation;
    if d.sourceNumber >= d.targetNumber then Some(BadVote(SourceNotBelowTarget))
    else if AttestationSet(s, d.targetNumber) == [] then None
    else if !InWindow(number, time, d.targetNumber) then Some(AttestationTarget)
    else if d.targetNumber < s0.number || d.targetNumber > s0.number + |hist| then None
    else if BlockHash(s0, hist, d.targetNumber) != d.targetHash then Some(AttestationTargetHash)
    else if just.Some? && d.sourceNumber != just.value.targetNumber then Some(AttestationSource)
    else if just.Some? && d.sourceHash != just.value.targetHash then Some(AttestationSourceHash)
    else None
  }

  lemma WindowBounds(s0: Snap, hist: seq<Header>, s: Snap, number: nat, time: nat, target: nat)
    requires Spine(s0, hist, s) && number == s.number + 1
    ensures var w := TargetWindow(number, time); w.0 <= target <= w.1 <==> InWindow(number, time, target)
    ensures InWindow(number, time, target) ==>
              AncestorHash(s.ancestors, target) == if target < s0.number then None else Some(BlockHash(s0, hist, target))
  {
    AncestorIsBlock(s0, hist, s, target);
  }

  /** An attestation is refused for the first rule it breaks against the walked chain, and then for what is
      wrong with its signature. */
  lemma AttestationRefusal(
      c: Crypto, s0: Snap, hist: seq<Header>, s: Snap, raw: Bytes, number: nat, time: nat, att: VoteAttestation, idx: seq<nat>)
    requires Spine(s0, hist, s) && number == s.number + 1 && |raw| < U64 && raw == EncodeAttestation(att)
    requires Adoption.BitList(att.voteAddressSet, idx)
    ensures var r, d := CheckAttestation(c, s, raw, number, time), att.data;
            var first := VoteReason(s0, hist, s, number, time, d);
            var signed := Reason(c, att, AttestationSet(s, d.targetNumber), idx);
            if first.Some? then r == Err(first.value)
            else if !ForWalked(s0, s, number, time, d) then r == Ok(None)
            else if signed.Some? then r == Err(BadVote(signed.value))
            else r == Ok(Some(d))
  {
    DecodeAttestationIff(raw, att);
    WindowBounds(s0, hist, s, number, time, att.data.targetNumber);
    SignatureRefusal(c, att, AttestationSet(s, att.data.targetNumber), idx);
  }

  // ----- a header -----

  /** Why a well-sealed header is refused before its sealer's history is looked at. */
  function LinkReason(s: Snap, h: Header): Option<SnapError> {
    if h.number != s.number + 1 then Some(NumberMismatch)
    else if h.parentHash != s.hash then Some(ParentHashMismatch)
    else if h.miner !in s.validators then Some(Unauthorized)
    else if s.enforceInturn && ((h.difficulty == 2) != (InturnValidator(s) == Some(h.miner))) then Some(DifficultyMismatch)
    else None
  }

  lemma EarlyIs(s: Snap, h: Header)
    requires h.difficulty == 1 || h.difficulty == 2
    ensures EarlyError(s, h, h.miner) == LinkReason(s, h)
  {
  }

  lemma VerifiedIs(c: Crypto, s: Snap, h: Header)
    requires h.difficulty == 1 || h.difficulty == 2
    ensures var a := ApplyVerified(c, s, h, h.miner);
            if LinkReason(s, h).Some? then a == Rejected(s, LinkReason(s, h).value)
            else if SignRecently(Residue(s), h.miner) then a == Rejected(Residue(s), RecentlySigned)
            else a.Rejected? ==> a.snap == Residue(s)
  {
    EarlyIs(s, h);
    if LinkReason(s, h).None? {
      assert Forget(s, h.number) == Residue(s);
    }
  }

  /** A header is refused for its seal, then its place, then its sealer, then its difficulty, and only then for
      having sealed too recently. */
  lemma HeaderRefusal(c: Crypto, s: Snap, h: Header)
    ensures var a := ApplyHeader(c, s, h);
            if !Verdict.Sealed(c, h) then a.Rejected? && a.error.Seal? && a.snap == s
            else if LinkReason(s, h).Some? then a == Rejected(s, LinkReason(s, h).value)
            else if SignRecently(Residue(s), h.miner) then a == Rejected(Residue(s), RecentlySigned)
            else a.Rejected? ==> a.snap == Residue(s)
  {
    Verdict.SealedIff(c, h);
    var a, e := ApplyIs(c, s, h);
    if e.None? {
      VerifiedIs(c, s, h);
    }
  }

  // ----- a recovery -----

  /** What ends the search: a state within reach that neither rejoins the upstream's branch nor is lost. */
  ghost predicate FailsHere(c: Crypto, st: State, tip: nat, up: Upstream, i: nat) {
    i < |st.rollbacks| && InReach(st, i, tip) && !Rejoins(c, st, tip, up, i) && !Lost(c, st, tip, up, i) && AllLost(c, st, tip, up, i + 1)
  }

  /** A recovery that fails leaves everything as it was. Its error is that of the walk the search ended on; with
      every state lost, the replay's, or without a checkpoint the link break itself. */
  lemma RecoveryRefusal(c: Crypto, cfg: Config, st: State, b: Branch, from: nat, tip: nat, up: Upstream, err: SyncError)
    requires Inv(c, st, b, from) && Recover(c, cfg, st, tip, up, err).error.Some?
    ensures Recover(c, cfg, st, tip, up, err).state == st
    ensures var e := Recover(c, cfg, st, tip, up, err).error;
            if AllLost(c, st, tip, up, 0)
            then e == if cfg.origin.None? then Some(err) else Walk(c, cfg.origin.value, tip, cfg.maxSync, up.boot, up.replay).error
            else exists i: nat :: FailsHere(c, st, tip, up, i) &&
                   Append(c, Progress.Kept(st, i, tip), st.rollbacks[i], tip, up.rewind(st.rollbacks[i].number)).error == e
  {
    var a := Search(c, st, tip, up, |st.rollbacks|);
    ExhaustedIff(c, st, b, from, tip, up);
    if a.Stopped? {
      SearchIsNewest(c, st, tip, up, |st.rollbacks|);
      var i: nat :| EndsAt(c, st, tip, up, |st.rollbacks|, i) && WalkFrom(c, st.chain, st.rollbacks[i], tip, up).error == Some(a.error);
      WalkTold(c, st, b, from, tip, up, i);
      ReachIs(c, st, b, from, i, tip);
      LostAreSkipped(c, st, b, from, tip, up, i + 1);
      assert FailsHere(c, st, tip, up, i);
    }
  }
}
