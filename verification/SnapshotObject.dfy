/** The snapshot as the source runs it: an object whose methods update its fields in place. Every
    method is tied to the value-level step of module `Snapshot`. */
module SnapshotObject {
  import opened Base
  import opened Vote
  import opened Headers
  import S = Snapshot

  ghost function Hits(recents: map<nat, Address>, leftBound: nat, signer: Address): set<nat> {
    set b | b in recents && b > leftBound && recents[b] != S.SENTINEL && recents[b] == signer
  }

  lemma VisitOne(all: set<nat>, left: set<nat>, b: nat)
    requires b in left
    ensures |all - (left - {b})| == |all - left| + if b in all then 1 else 0
  {
    assert all - (left - {b}) == if b in all then (all - left) + {b} else all - left;
  }

  /** The counting loop over the unordered history, with its saturating counter and early exit. */
  method CountLoop(recents: map<nat, Address>, leftBound: nat, signer: Address, turnLength: nat) returns (found: bool)
    ensures var n := |Hits(recents, leftBound, signer)|;
            found == (n > 0 && (if n < 255 then n else 255) >= turnLength)
  {
    var seen: nat := 0;
    var left := recents.Keys;
    ghost var all := Hits(recents, leftBound, signer);
    assert all - left == {};
    while left != {}
      invariant left <= recents.Keys
      invariant seen == (if |all - left| < 255 then |all - left| else 255)
      invariant seen == 0 || seen < turnLength
      decreases |left|
    {
      var block :| block in left;
      VisitOne(all, left, block);
      left := left - {block};
      if block <= leftBound || recents[block] == S.SENTINEL || recents[block] != signer {
        continue;
      }
      seen := if seen < 255 then seen + 1 else 255;
      if seen >= turnLength {
        SubsetSize(all - left, all);
        return true;
      }
    }
    assert all - left == all;
    return false;
  }

  /** The loop that pairs each address with its key before anything is sorted. */
  method PairLoop(addresses: seq<Address>, keys: seq<VoteKey>) returns (pairs: seq<SealingValidator>)
    requires |addresses| == |keys|
    ensures pairs == S.Zip(addresses, keys)
  {
    pairs := [];
    for i := 0 to |keys|
      invariant pairs == S.Zip(addresses, keys)[..i]
    {
      pairs := pairs + [SealingValidator(addresses[i], keys[i])];
    }
  }

  class Snapshot {
    var number: nat
    var hash: Hash
    var turnLength: nat
    var validators: seq<Address>
    var pending: Option<S.Pending>
    var enforceInturn: bool
    var recents: map<nat, Address>
    var voteSet: seq<SealingValidator>
    var prevVoteSet: seq<SealingValidator>
    var setChangedAt: nat
    var attestation: Option<VoteData>
    var lastMilli: Option<nat>
    var walkStart: nat
    var ancestors: seq<(nat, Hash)>

    function View(): S.Snap
      reads this
    {
      S.Snap(number, hash, turnLength, validators, pending, enforceInturn, recents, voteSet, prevVoteSet,
             setChangedAt, attestation, lastMilli, walkStart, ancestors)
    }

    constructor FromCheckpoint(cp: S.Checkpoint)
      ensures View() == S.FromCheckpoint(cp)
    {
      var votes: seq<SealingValidator> := [];
      if cp.voteKeys.Some? && |cp.voteKeys.value| == |cp.sealingSet| {
        votes := PairLoop(cp.sealingSet, cp.voteKeys.value);
        votes := S.SortValidators(votes);
      }
      var plain := PairLoop(cp.sealingSet, seq(|cp.sealingSet|, _ => S.NoKey()));
      assert plain == S.Unkeyed(cp.sealingSet);
      number, hash := cp.number, cp.hash;
      turnLength := S.FORK_TURN_LENGTH;
      validators := S.AddressesOf(S.SortValidators(plain));
      pending := None;
      enforceInturn := true;
      recents := map[];
      voteSet, prevVoteSet := votes, [];
      setChangedAt := 0;
      attestation, lastMilli := None, None;
      walkStart := cp.number + 1;
      ancestors := [(cp.number, cp.hash)];
    }

    method SeedTurnLength(turn: nat) returns (ok: bool)
      modifies this`turnLength
      ensures ok == S.SeedTurnLength(old(View()), turn).Some?
      ensures View() == if ok then S.SeedTurnLength(old(View()), turn).value else old(View())
    {
      if number >= walkStart {
        return false;
      }
      if turn > 0 {
        turnLength := turn;
      }
      return true;
    }

    method SignRecently(signer: Address) returns (found: bool)
      ensures found == S.SignRecently(View(), signer)
    {
      var leftBound := SatSub(number, MinerHistoryCheckLen(|validators|, turnLength));
      found := CountLoop(recents, leftBound, signer, turnLength);
      assert Hits(recents, leftBound, signer) == S.SeenBlocks(View(), signer);
    }

    /** BEP-524. */
    method PruneRecentsToFinalized()
      modifies this`recents
      ensures recents == S.PruneFinalized(old(recents), S.FinalizedNumber(old(View())))
    {
      var finalized := if attestation.Some? then attestation.value.sourceNumber else 0;
      recents := map b | b in recents && b > finalized :: recents[b];
    }

    method AdoptAttestation(data: VoteData)
      modifies this`attestation
      ensures attestation == Some(S.AdoptAttestation(old(attestation), data))
    {
      if attestation.Some? && SatAdd(data.sourceNumber, 1) != data.targetNumber {
        attestation := Some(attestation.value.(targetNumber := data.targetNumber, targetHash := data.targetHash));
      } else {
        attestation := Some(data);
      }
    }

    method ClearHistory(epochKey: nat)
      modifies this`recents
      ensures recents == map[epochKey := S.SENTINEL]
    {
      recents := map[];
      recents := recents[epochKey := S.SENTINEL];
    }

    /** BEP-404: switch to the pending set when its block comes. */
    method ActivatePending(blockNumber: nat)
      modifies this`prevVoteSet, this`voteSet, this`setChangedAt, this`validators, this`turnLength, this`pending, this`recents
      ensures View() == S.Activate(old(View()), blockNumber)
    {
      if pending.Some? && blockNumber == pending.value.activateAt {
        var p := pending.value;
        prevVoteSet := voteSet;
        voteSet := if |p.voteKeys| == |p.validators| then S.Zip(p.validators, p.voteKeys) else [];
        setChangedAt := blockNumber;
        validators := p.validators;
        turnLength := p.turnLength;
        pending := None;
        ClearHistory(S.EpochKey(blockNumber));
      }
    }

    method PushAncestor(blockNumber: nat, blockHash: Hash)
      modifies this`ancestors
      ensures ancestors == S.PushAncestor(old(ancestors), (blockNumber, blockHash))
    {
      ancestors := ancestors + [(blockNumber, blockHash)];
      if |ancestors| > K_ANCESTOR_GENERATION_DEPTH {
        ancestors := ancestors[|ancestors| - K_ANCESTOR_GENERATION_DEPTH..];
      }
    }

    method Record(h: Header, x: Extra, signer: Address, adopted: Option<VoteData>)
      modifies this`pending, this`attestation, this`recents
      ensures View() == S.Record(old(View()), h, x, signer, adopted)
    {
      if IsEpoch(h.number) {
        pending := Some(S.EpochPending(View(), h, x));
      }
      if adopted.Some? {
        AdoptAttestation(adopted.value);
      }
      recents := recents[h.number := signer];
      if h.time >= MAXWELL_TIME {
        PruneRecentsToFinalized();
      }
    }

    /** The writes, in the source's order. */
    method Commit(h: Header, x: Extra, signer: Address, adopted: Option<VoteData>)
      modifies this
      ensures View() == S.Commit(old(View()), h, x, signer, adopted)
    {
      Record(h, x, signer, adopted);
      ActivatePending(h.number);
      number := h.number;
      hash := h.hash;
      PushAncestor(h.number, h.hash);
      lastMilli := Some(MilliTimestamp(h));
    }

    /** `apply_verified`: the checks with their early exits, the one removal that precedes the last
        checks, then the writes. */
    method ApplyVerified(c: Crypto, h: Header, signer: Address) returns (error: Option<S.SnapError>)
      modifies this
      ensures var a := S.ApplyVerified(c, old(View()), h, signer);
              View() == a.snap && error == if a.Rejected? then Some(a.error) else None
    {
      var early := S.EarlyError(View(), h, signer);
      if early.Some? {
        return early;
      }
      var limit := SatAdd(S.Delay(View()), 1);
      if h.number >= limit {
        recents := recents - {h.number - limit};
      }
      assert View() == S.Forget(old(View()), h.number);
      var recently := SignRecently(signer);
      if recently {
        return Some(S.RecentlySigned);
      }
      if !S.BackoffOk(View(), h) {
        return Some(S.OutOfTurnTooEarly);
      }
      if h.extra.None? {
        return Some(S.BadExtra);
      }
      var checked := S.CheckAttestation(c, View(), h.extra.value.attestation, h.number, h.time);
      if checked.Err? {
        return Some(checked.error);
      }
      if IsEpoch(h.number) && h.extra.value.validators == [] {
        return Some(S.MissingEpochExtra);
      }
      Commit(h, h.extra.value, signer, checked.value);
      return None;
    }

    method ApplyHeader(c: Crypto, h: Header) returns (r: Result<Address, S.SnapError>)
      modifies this
      ensures var a := S.ApplyHeader(c, old(View()), h);
              View() == a.snap && r == if a.Rejected? then Err(a.error) else Ok(h.miner)
    {
      var signer := VerifySealCoinbase(c.keccak, h);
      if signer.Err? {
        return Err(S.Seal(signer.error));
      }
      var error := ApplyVerified(c, h, signer.value);
      return if error.Some? then Err(error.value) else Ok(signer.value);
    }
  }
}
