/** BEP-126 finality over every run: two consecutive justified blocks finalize the first. */
module TwoChain {
  import opened Base
  import opened Vote
  import opened Headers
  import opened Snapshot
  import opened Runs

  /** The vote's target is a walked block (or the checkpoint) strictly below the tip. */
  ghost predicate OnChain(s0: Snap, hist: seq<Header>, d: VoteData) {
    d.sourceNumber < d.targetNumber && s0.number <= d.targetNumber < s0.number + |hist| &&
    BlockHash(s0, hist, d.targetNumber) == d.targetHash
  }

  ghost predicate OnChainAt(s0: Snap, hist: seq<Header>, votes: seq<VoteData>, i: nat)
    requires i < |votes|
  {
    OnChain(s0, hist, votes[i])
  }

  ghost predicate ExtendsAt(votes: seq<VoteData>, i: nat)
    requires i + 1 < |votes|
  {
    votes[i + 1].sourceNumber == votes[i].targetNumber && votes[i + 1].sourceHash == votes[i].targetHash
  }

  /** Vote j names this finalized block as its source, and either it is the first vote adopted or it
      targets the very next block. */
  ghost predicate Finalizes(votes: seq<VoteData>, j: nat, a: VoteData) {
    j < |votes| && a.sourceNumber == votes[j].sourceNumber && a.sourceHash == votes[j].sourceHash &&
    (j == 0 || votes[j].targetNumber == votes[j].sourceNumber + 1)
  }

  ghost predicate VoteState(s0: Snap, hist: seq<Header>, votes: seq<VoteData>, s: Snap) {
    (forall i: nat | i < |votes| :: OnChainAt(s0, hist, votes, i)) &&
    (forall i: nat | i + 1 < |votes| :: ExtendsAt(votes, i)) &&
    (votes == [] <==> s.attestation.None?) &&
    (s.attestation.Some? ==>
       var a, last := s.attestation.value, votes[|votes| - 1];
       a.targetNumber == last.targetNumber && a.targetHash == last.targetHash && a.sourceNumber < a.targetNumber &&
       exists j: nat :: Finalizes(votes, j, a))
  }

  lemma OnChainGrows(s0: Snap, hist: seq<Header>, more: seq<Header>, d: VoteData)
    requires OnChain(s0, hist, d)
    ensures OnChain(s0, hist + more, d)
  {
  }

  /** An adopted vote's target is in the ancestor ring, hence a block of the chain. */
  lemma TargetOnChain(s0: Snap, hist: seq<Header>, s: Snap, h: Header, d: VoteData)
    requires Spine(s0, hist, s) && h.number == s.number + 1 && VoteFits(s, h, d)
    ensures OnChain(s0, hist + [h], d)
  {
    AncestorIsBlock(s0, hist, s, d.targetNumber);
  }

  lemma AdoptKeeps(votes: seq<VoteData>, d: VoteData, cur: Option<VoteData>)
    requires votes == [] <==> cur.None?
    requires d.sourceNumber < d.targetNumber
    requires cur.Some? ==> cur.value.sourceNumber < cur.value.targetNumber == d.sourceNumber && exists j: nat :: Finalizes(votes, j, cur.value)
    ensures var a := AdoptAttestation(cur, d);
            a.targetNumber == d.targetNumber && a.targetHash == d.targetHash && a.sourceNumber < a.targetNumber &&
            exists j: nat :: Finalizes(votes + [d], j, a)
  {
    var a := AdoptAttestation(cur, d);
    if a == d {
      assert Finalizes(votes + [d], |votes|, a);
    } else {
      var j: nat :| Finalizes(votes, j, cur.value);
      assert Finalizes(votes + [d], j, a);
    }
  }

  lemma VoteAdopted(s0: Snap, hist: seq<Header>, votes: seq<VoteData>, s: Snap, h: Header, d: VoteData, t: Snap)
    requires VoteState(s0, hist, votes, s) && Spine(s0, hist, s)
    requires h.number == s.number + 1 && VoteFits(s, h, d) && t.attestation == Some(AdoptAttestation(s.attestation, d))
    ensures VoteState(s0, hist + [h], votes + [d], t)
  {
    var longer, all := hist + [h], votes + [d];
    TargetOnChain(s0, hist, s, h, d);
    AdoptKeeps(votes, d, s.attestation);
    forall i: nat | i < |all|
      ensures OnChainAt(s0, longer, all, i)
    {
      if i < |votes| {
        assert OnChainAt(s0, hist, votes, i);
        OnChainGrows(s0, hist, [h], votes[i]);
      }
    }
    forall i: nat | i + 1 < |all|
      ensures ExtendsAt(all, i)
    {
      if i + 1 < |votes| { assert ExtendsAt(votes, i); }
    }
  }

  lemma VoteKept(s0: Snap, hist: seq<Header>, votes: seq<VoteData>, s: Snap, more: seq<Header>, t: Snap)
    requires VoteState(s0, hist, votes, s) && t.attestation == s.attestation
    ensures VoteState(s0, hist + more, votes, t)
  {
    forall i: nat | i < |votes|
      ensures OnChainAt(s0, hist + more, votes, i)
    {
      assert OnChainAt(s0, hist, votes, i);
      OnChainGrows(s0, hist, more, votes[i]);
    }
  }

  lemma {:induction false} VotesAlways(r: Run, k: nat)
    requires IsRun(r) && k <= |r.moves|
    ensures VoteState(r.states[0], Walked(r, k), Voted(r, k), r.states[k])
  {
    if k > 0 {
      var s0, s, m, t := r.states[0], r.states[k - 1], r.moves[k - 1], r.states[k];
      VotesAlways(r, k - 1);
      SpineAlways(r, k - 1);
      assert ChainsAt(r, k - 1) && VotesAt(r, k - 1);
      if m.Take? && m.vote.Some? {
        VoteAdopted(s0, Walked(r, k - 1), Voted(r, k - 1), s, m.header, m.vote.value, t);
      } else {
        VoteKept(s0, Walked(r, k - 1), Voted(r, k - 1), s, HeaderOf(m), t);
        assert Voted(r, k) == Voted(r, k - 1);
      }
    }
  }

  // ----- main results -----

  function JustifiedNumber(s: Snap): int {
    if s.attestation.Some? then s.attestation.value.targetNumber else -1
  }

  /** Each step: adopting a vote strictly raises the justified head, anything else leaves it, and the
      finalized head never falls. */
  lemma FinalityRises(r: Run, k: nat)
    requires IsRun(r) && k < |r.moves|
    ensures FinalizedNumber(r.states[k]) <= FinalizedNumber(r.states[k + 1])
    ensures if VoteOf(r.moves[k]) != [] then JustifiedNumber(r.states[k]) < JustifiedNumber(r.states[k + 1])
            else r.states[k + 1].attestation == r.states[k].attestation
  {
    VotesAlways(r, k);
    assert VotesAt(r, k);
  }

  lemma {:induction false} FinalizedMonotone(r: Run, j: nat, k: nat)
    requires IsRun(r) && j <= k <= |r.moves|
    ensures FinalizedNumber(r.states[j]) <= FinalizedNumber(r.states[k])
  {
    if j < k {
      FinalizedMonotone(r, j, k - 1);
      FinalityRises(r, k - 1);
    }
  }

  /** Block F was the target of an adopted vote, and block F+1 of a later one whose source is F. */
  ghost predicate TwoInARow(votes: seq<VoteData>, f: nat, hash: Hash) {
    exists j: nat :: j + 1 < |votes| && votes[j].targetNumber == f && votes[j].targetHash == hash &&
                     votes[j + 1].sourceNumber == f && votes[j + 1].targetNumber == f + 1
  }

  /** Two-chain finality in every state of every run: the justified head is a walked block below the
      tip, the finalized head is below it, and every finalized head other than the first adopted
      source is a walked block F such that F and F+1 were each the target of an adopted vote. */
  lemma TwoChainFinality(r: Run, k: nat)
    requires IsRun(r) && k <= |r.moves| && r.states[k].attestation.Some?
    ensures var s0, s, hist, votes := r.states[0], r.states[k], Walked(r, k), Voted(r, k);
            var a := s.attestation.value;
            votes != [] && a.targetNumber <= s.number - 1 && a.sourceNumber <= s.number - 2 &&
            s0.number <= a.targetNumber && a.targetNumber <= s0.number + |hist| &&
            BlockHash(s0, hist, a.targetNumber) == a.targetHash &&
            ((a.sourceNumber == votes[0].sourceNumber && a.sourceHash == votes[0].sourceHash)
             || (TwoInARow(votes, a.sourceNumber, a.sourceHash) && s0.number <= a.sourceNumber <= s0.number + |hist|
                 && BlockHash(s0, hist, a.sourceNumber) == a.sourceHash))
  {
    var s0, s, hist, votes := r.states[0], r.states[k], Walked(r, k), Voted(r, k);
    VotesAlways(r, k);
    SpineAlways(r, k);
    var a := s.attestation.value;
    assert OnChainAt(s0, hist, votes, |votes| - 1);
    var j: nat :| Finalizes(votes, j, a);
    if j > 0 {
      assert ExtendsAt(votes, j - 1);
      assert OnChainAt(s0, hist, votes, j - 1);
    }
  }

  // ----- two clients -----

  /** What an adopted vote carries: an attestation accepted over the set the snapshot names. */
  lemma AdoptedIsSigned(c: Crypto, s: Snap, raw: Bytes, number: nat, time: nat, d: VoteData)
    requires CheckAttestation(c, s, raw, number, time) == Ok(Some(d))
    ensures DecodeAttestation(raw).Ok? && DecodeAttestation(raw).value.Some?
    ensures var att := DecodeAttestation(raw).value.value;
            att.data == d && VerifySignature(c, att, AttestationSet(s, d.targetNumber)).Ok? && AttestationSet(s, d.targetNumber) != []
  {
  }

  /** Any two votes adopted over the same validators were both signed by at least a third of them. */
  lemma ConflictNeedsDoubleVoters(
      c: Crypto, s: Snap, t: Snap, rawS: Bytes, rawT: Bytes, numberS: nat, numberT: nat, timeS: nat, timeT: nat, d: VoteData, e: VoteData)
    requires CheckAttestation(c, s, rawS, numberS, timeS) == Ok(Some(d))
    requires CheckAttestation(c, t, rawT, numberT, timeT) == Ok(Some(e))
    requires AttestationSet(s, d.targetNumber) == AttestationSet(t, e.targetNumber)
    ensures DecodeAttestation(rawS).Ok? && DecodeAttestation(rawS).value.Some?
    ensures DecodeAttestation(rawT).Ok? && DecodeAttestation(rawT).value.Some?
    ensures var n := |AttestationSet(s, d.targetNumber)|;
            var both := Voters(DecodeAttestation(rawS).value.value, n) * Voters(DecodeAttestation(rawT).value.value, n);
            both != {} && 3 * |both| >= n
  {
    AdoptedIsSigned(c, s, rawS, numberS, timeS, d);
    AdoptedIsSigned(c, t, rawT, numberT, timeT, e);
    QuorumIntersection(c, DecodeAttestation(rawS).value.value, DecodeAttestation(rawT).value.value, AttestationSet(s, d.targetNumber));
  }
}
