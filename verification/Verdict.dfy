/** The verdict on a header, in terms of the walked chain alone: who sealed it, whose turn it was, how often
    the sealer sealed before, how long it waited, and what its attestation says. */
module Verdict {
  import opened Base
  import opened Vote
  import opened Headers
  import opened Lex
  import opened Snapshot
  import opened Runs
  import opened Recents
  import opened Validators
  import opened Turns
  import opened Adoption
  import opened Schedule
  import opened HeaderHash

  // ----- the seal -----

  /** An epoch header announces distinct validators and a turn length of 1 to 64. */
  predicate WellLaid(h: Header) {
    h.extra.Some? &&
    (h.number % 1000 == 0 ==>
       h.extra.value.validators != [] && h.extra.value.turnLength.Some? && 1 <= h.extra.value.turnLength.value <= 64 &&
       forall i, j | 0 <= i < j < |h.extra.value.validators| ::
         h.extra.value.validators[i].address != h.extra.value.validators[j].address)
  }

  /** The seal recovers to the header's own miner, over the hash it claims. */
  predicate Sealed(c: Crypto, h: Header) {
    h.fieldsOk && WellLaid(h) && (h.difficulty == 1 || h.difficulty == 2) && h.recovered == Some(h.miner) &&
    c.keccak(Preimage(h)) == h.hash.bytes
  }

  lemma WellLaidIff(h: Header)
    ensures LayoutOk(h) <==> WellLaid(h)
  {
  }

  /** Verification succeeds exactly on a good seal, and returns who made it. */
  lemma SealedIff(c: Crypto, h: Header)
    ensures VerifySealCoinbase(c.keccak, h).Ok? <==> Sealed(c, h)
    ensures VerifySealCoinbase(c.keccak, h).Ok? ==> h.recovered == Some(VerifySealCoinbase(c.keccak, h).value)
    ensures h.fieldsOk && WellLaid(h) && (h.difficulty == 1 || h.difficulty == 2) && h.recovered.Some? && h.recovered.value != h.miner ==>
              VerifySealCoinbase(c.keccak, h) == Err(CoinbaseMismatch)
  {
    WellLaidIff(h);
  }

  /** An accepted header was sealed by a member of the set in force, and names it. */
  lemma AcceptedSigner(c: Crypto, s: Snap, h: Header)
    requires ApplyHeader(c, s, h).Accepted?
    ensures Sealed(c, h) && h.recovered == Some(h.miner) && h.miner in s.validators
  {
    AcceptFacts(c, s, h);
    SealedIff(c, h);
    var a, e := ApplyIs(c, s, h);
  }

  lemma {:induction false} AcceptedAt(c: Crypto, s0: Snap, hs: seq<Header>, i: nat)
    requires AllAccepted(c, s0, hs) && i < |hs|
    ensures AllAccepted(c, s0, hs[..i]) && ApplyHeader(c, Feed(c, s0, hs[..i]), hs[i]).Accepted?
    decreases |hs|
  {
    var n := |hs| - 1;
    AcceptedLast(c, s0, hs);
    if i < n {
      AcceptedAt(c, s0, hs[..n], i);
      assert hs[..n][..i] == hs[..i];
    }
  }

  /** Every header of every walked chain was sealed by a member of the set in force right before it, who is
      its miner. */
  lemma SealersAreMembers(c: Crypto, s0: Snap, hs: seq<Header>, i: nat)
    requires i < |Taken(c, s0, hs)|
    ensures var hist := Taken(c, s0, hs);
            Sealed(c, hist[i]) && hist[i].recovered == Some(hist[i].miner) && hist[i].miner in Feed(c, s0, hist[..i]).validators
  {
    RejectionsHarmless(c, s0, hs);
    var hist := Taken(c, s0, hs);
    AcceptedAt(c, s0, hist, i);
    AcceptedSigner(c, Feed(c, s0, hist[..i]), hist[i]);
  }

  /** An accepted header at height (r*n+i)*turnLength+o has difficulty 2 exactly when its seal recovers to
      validator i. */
  lemma SignerTellsTurn(c: Crypto, s: Snap, h: Header, r: nat, i: nat, o: nat)
    requires ApplyHeader(c, s, h).Accepted? && s.enforceInturn && s.turnLength > 0
    requires SlotOf(h.number, |s.validators|, s.turnLength, r, i, o)
    ensures h.difficulty == 2 <==> h.recovered == Some(s.validators[i])
    ensures h.difficulty == 1 || h.difficulty == 2
  {
    AcceptedSigner(c, s, h);
    DifficultyTellsTurn(c, s, h, r, i, o);
  }

  /** Block b's seal recovers to v. */
  predicate RecoveredAt(s0: Snap, hist: seq<Header>, b: nat, v: Address) {
    s0.number < b <= s0.number + |hist| && hist[b - s0.number - 1].recovered == Some(v)
  }

  /** Blocks above `low`, up to `high`, whose seal recovers to v. */
  ghost function RecoveredBy(s0: Snap, hist: seq<Header>, low: nat, high: nat, v: Address): set<nat> {
    set b: nat | low < b <= high && RecoveredAt(s0, hist, b, v)
  }

  /** Each header names the address its seal recovers to. */
  ghost predicate NamesSigner(hist: seq<Header>) {
    forall i: nat | i < |hist| :: SignerAt(hist, i)
  }

  predicate SignerAt(hist: seq<Header>, i: nat)
    requires i < |hist|
  {
    hist[i].recovered == Some(hist[i].miner)
  }

  lemma TakenNameSigners(c: Crypto, s0: Snap, hs: seq<Header>)
    ensures NamesSigner(Taken(c, s0, hs))
  {
    var hist := Taken(c, s0, hs);
    forall i: nat | i < |hist|
      ensures SignerAt(hist, i)
    {
      SealersAreMembers(c, s0, hs, i);
    }
  }

  lemma RecoveredIsSealed(s0: Snap, hist: seq<Header>, low: nat, high: nat, v: Address)
    requires NamesSigner(hist)
    ensures RecoveredBy(s0, hist, low, high, v) == SealedBy(s0, hist, low, high, v)
  {
    forall b: nat
      ensures b in RecoveredBy(s0, hist, low, high, v) <==> b in SealedBy(s0, hist, low, high, v)
    {
      if s0.number < b <= s0.number + |hist| { assert SignerAt(hist, b - s0.number - 1); }
    }
  }

  /** Where the count starts: the window of minerHistoryCheckLen blocks, cut short by the finalized block and
      by the last switch. */
  predicate Above(s: Snap, b: nat) {
    b + Delay(s) > s.number && b > s.setChangedAt && (s.attestation.Some? ==> b > s.attestation.value.sourceNumber)
  }

  ghost function SealsInWindow(s0: Snap, hist: seq<Header>, s: Snap, v: Address): set<nat> {
    set b: nat | b <= s.number && Above(s, b) && RecoveredAt(s0, hist, b, v)
  }

  lemma FloorIs(s: Snap, b: nat)
    requires b > 0
    ensures Above(s, b) <==> b > CountFloor(s)
  {
  }

  lemma WindowIsSealed(c: Crypto, s0: Snap, hs: seq<Header>, s: Snap, v: Address)
    ensures SealsInWindow(s0, Taken(c, s0, hs), s, v) == SealedBy(s0, Taken(c, s0, hs), CountFloor(s), s.number, v)
  {
    var hist := Taken(c, s0, hs);
    TakenNameSigners(c, s0, hs);
    RecoveredIsSealed(s0, hist, CountFloor(s), s.number, v);
    forall b: nat
      ensures b in SealsInWindow(s0, hist, s, v) <==> b in RecoveredBy(s0, hist, CountFloor(s), s.number, v)
    {
      if b > 0 { FloorIs(s, b); }
    }
  }

  /** A sealer is used up when it sealed turnLength blocks of the window; the all-zero address never is. */
  ghost predicate UsedUp(s0: Snap, hist: seq<Header>, s: Snap, v: Address) {
    v != SENTINEL && |SealsInWindow(s0, hist, s, v)| >= s.turnLength
  }

  /** The history check answers about recovered signers of the full walked chain. */
  lemma UsedUpIff(c: Crypto, s0: Snap, hs: seq<Header>, v: Address)
    requires Fresh(s0) && AllLive(hs)
    ensures SignRecently(Feed(c, s0, hs), v) <==> UsedUp(s0, Taken(c, s0, hs), Feed(c, s0, hs), v)
  {
    ClientRefines(c, s0, hs, v);
    WindowIsSealed(c, s0, hs, Feed(c, s0, hs), v);
  }

  // ----- the parent's clock -----

  lemma {:induction false} LastMilliIs(c: Crypto, s0: Snap, hs: seq<Header>)
    requires Fresh(s0)
    ensures var hist := Taken(c, s0, hs);
            Feed(c, s0, hs).lastMilli == if hist == [] then None else Some(MilliTimestamp(hist[|hist| - 1]))
  {
    if hs != [] {
      var init, h := hs[..|hs| - 1], hs[|hs| - 1];
      LastMilliIs(c, s0, init);
      MilliStep(c, Feed(c, s0, init), h);
    }
  }

  lemma MilliStep(c: Crypto, s: Snap, h: Header)
    ensures ApplyHeader(c, s, h).snap.lastMilli == if ApplyHeader(c, s, h).Accepted? then Some(MilliTimestamp(h)) else s.lastMilli
  {
    if ApplyHeader(c, s, h).Accepted? {
      AcceptFacts(c, s, h);
    } else {
      RejectFacts(c, s, h);
    }
  }

  // ----- turn and wait -----

  /** The sealer is validator i, and the difficulty says whether the height lies in its slot. */
  ghost predicate TurnFits(s: Snap, h: Header) {
    exists i: nat :: i < |s.validators| && SlotTold(s, h, i)
  }

  ghost predicate SlotTold(s: Snap, h: Header, i: nat)
    requires i < |s.validators|
  {
    s.validators[i] == h.miner && (h.difficulty == 2 <==> InSlot(h.number, |s.validators|, s.turnLength, i))
  }

  function Interval(time: nat): nat {
    if time >= 1_768_357_800 then 450 else if time >= 1_751_250_600 then 750 else if time >= 1_745_903_100 then 1500 else 3000
  }

  /** Out of turn, with the whole counted window walked and the validator in turn still free to seal. */
  ghost predicate MustWait(s0: Snap, hist: seq<Header>, s: Snap, h: Header)
    requires s.turnLength > 0 && s.validators != []
  {
    s.enforceInturn && hist != [] && (s.number >= s0.number + Delay(s) || s0.number == 0) && h.difficulty == 1 &&
    !UsedUp(s0, hist, s, InturnAt(s, s.number + 1))
  }

  predicate Waited(parentMilli: nat, h: Header) {
    MilliTimestamp(h) >= SatAdd(SatAdd(parentMilli, Interval(h.time)), if parentMilli / 1000 >= 1_745_903_100 then 2000 else 1000)
  }

  /** No attestation, or one that is adopted or cannot be judged here. */
  ghost predicate AttestationHolds(c: Crypto, s0: Snap, hist: seq<Header>, s: Snap, h: Header) {
    h.extra.Some? &&
    (h.extra.value.attestation == [] ||
     exists att: VoteAttestation :: Carries(h.extra.value.attestation, att) &&
       (Adoptable(c, s0, hist, s, h.number, h.time, att) || Undecided(s0, s, h.number, h.time, att)))
  }

  /** Everything a header needs, read off the walked chain. */
  ghost predicate Acceptable(c: Crypto, s0: Snap, hist: seq<Header>, s: Snap, h: Header)
    requires s.turnLength > 0 && s.validators != []
  {
    Sealed(c, h) && h.number == s0.number + |hist| + 1 && h.parentHash == BlockHash(s0, hist, s0.number + |hist|) &&
    h.miner in s.validators && (s.enforceInturn ==> TurnFits(s, h)) && !UsedUp(s0, hist, s, h.miner) &&
    (MustWait(s0, hist, s, h) ==> Waited(MilliTimestamp(hist[|hist| - 1]), h)) && AttestationHolds(c, s0, hist, s, h)
  }

  // ----- the checks, one at a time -----

  lemma EarlyIff(s: Snap, h: Header)
    ensures EarlyError(s, h, h.miner).None? <==>
            h.number == s.number + 1 && h.parentHash == s.hash && h.miner in s.validators && (h.difficulty == 1 || h.difficulty == 2) &&
            (s.enforceInturn ==> (h.difficulty == 2 <==> InturnValidator(s) == Some(h.miner)))
  {
  }

  lemma TurnIff(s: Snap, h: Header)
    requires s.turnLength > 0 && Increasing(s.validators) && h.miner in s.validators && h.number == s.number + 1
    ensures (h.difficulty == 2 <==> InturnValidator(s) == Some(h.miner)) <==> TurnFits(s, h)
  {
    var k :| 0 <= k < |s.validators| && s.validators[k] == h.miner;
    TurnSlot(s, k);
    forall i: nat | i < |s.validators|
      ensures s.validators[i] == h.miner <==> i == k
    {
      DistinctAt(s.validators, i, k);
    }
    assert TurnFits(s, h) <==> SlotTold(s, h, k);
  }

  lemma WaitIff(s0: Snap, hist: seq<Header>, s: Snap, h: Header)
    requires s.turnLength > 0 && s.validators != [] && s.walkStart == s0.number + 1
    requires s.lastMilli == if hist == [] then None else Some(MilliTimestamp(hist[|hist| - 1]))
    requires SignRecently(s, InturnAt(s, s.number + 1)) <==> UsedUp(s0, hist, s, InturnAt(s, s.number + 1))
    requires s.number >= s0.number && (h.difficulty == 1 || h.difficulty == 2)
    ensures BackoffOk(s, h) <==> (MustWait(s0, hist, s, h) ==> Waited(MilliTimestamp(hist[|hist| - 1]), h))
  {
    InturnIsMember(s);
    assert BlockIntervalMs(h.time) == Interval(h.time);
  }

  lemma LateParts(c: Crypto, s: Snap, h: Header)
    requires WellLaid(h)
    ensures LateCheck(c, s, h, h.miner).Ok? <==>
            !SignRecently(s, h.miner) && BackoffOk(s, h) && CheckAttestation(c, s, h.extra.value.attestation, h.number, h.time).Ok?
  {
  }

  lemma AttestationIff(c: Crypto, s0: Snap, hist: seq<Header>, s: Snap, h: Header)
    requires Spine(s0, hist, s) && h.number == s.number + 1 && h.extra.Some? && |h.extra.value.attestation| < U64
    ensures CheckAttestation(c, s, h.extra.value.attestation, h.number, h.time).Ok? <==> AttestationHolds(c, s0, hist, s, h)
  {
    var raw := h.extra.value.attestation;
    PassedOverIff(c, s0, hist, s, raw, h.number, h.time);
    if CheckAttestation(c, s, raw, h.number, h.time).Ok? && CheckAttestation(c, s, raw, h.number, h.time).value.Some? {
      AdoptedIff(c, s0, hist, s, raw, h.number, h.time, CheckAttestation(c, s, raw, h.number, h.time).value.value);
    }
    if att: VoteAttestation :| Carries(raw, att) && Adoptable(c, s0, hist, s, h.number, h.time, att) {
      AdoptedIff(c, s0, hist, s, raw, h.number, h.time, att.data);
    }
  }

  // ----- the history entry that leaves changes none of it -----

  lemma UsedUpSame(s0: Snap, hist: seq<Header>, s: Snap, v: Address)
    ensures UsedUp(s0, hist, Residue(s), v) == UsedUp(s0, hist, s, v)
  {
    var r := Residue(s);
    assert forall b: nat :: Above(r, b) == Above(s, b);
    assert SealsInWindow(s0, hist, r, v) == SealsInWindow(s0, hist, s, v);
  }

  lemma MustWaitSame(s0: Snap, hist: seq<Header>, s: Snap, h: Header)
    requires s.turnLength > 0 && s.validators != []
    ensures MustWait(s0, hist, Residue(s), h) == MustWait(s0, hist, s, h)
  {
    UsedUpSame(s0, hist, s, InturnAt(s, s.number + 1));
  }

  lemma AdoptableSame(c: Crypto, s0: Snap, hist: seq<Header>, s: Snap, number: nat, time: nat, att: VoteAttestation)
    ensures Adoptable(c, s0, hist, Residue(s), number, time, att) == Adoptable(c, s0, hist, s, number, time, att)
    ensures Undecided(s0, Residue(s), number, time, att) == Undecided(s0, s, number, time, att)
  {
    assert AttestationSet(Residue(s), att.data.targetNumber) == AttestationSet(s, att.data.targetNumber);
  }

  lemma HoldsSame(c: Crypto, s0: Snap, hist: seq<Header>, s: Snap, h: Header)
    ensures AttestationHolds(c, s0, hist, Residue(s), h) == AttestationHolds(c, s0, hist, s, h)
  {
    forall att: VoteAttestation
      ensures Adoptable(c, s0, hist, Residue(s), h.number, h.time, att) == Adoptable(c, s0, hist, s, h.number, h.time, att)
      ensures Undecided(s0, Residue(s), h.number, h.time, att) == Undecided(s0, s, h.number, h.time, att)
    {
      AdoptableSame(c, s0, hist, s, h.number, h.time, att);
    }
  }

  // ----- the verdict -----

  /** What is known of a client's state after any headers. */
  ghost predicate Known(c: Crypto, s0: Snap, hs: seq<Header>, hist: seq<Header>, s: Snap) {
    Fresh(s0) && AllLive(hs) && hist == Taken(c, s0, hs) && s == Feed(c, s0, hs)
  }

  lemma KnownState(c: Crypto, s0: Snap, hs: seq<Header>, hist: seq<Header>, s: Snap)
    requires Known(c, s0, hs, hist, s) && Aligned(s0)
    ensures Spine(s0, hist, s) && RecentState(s0, hist, s) && Aligned(s)
    ensures s.lastMilli == if hist == [] then None else Some(MilliTimestamp(hist[|hist| - 1]))
  {
    var r := FeedIsRun(c, s0, hs);
    assert Traces(c, s0, hs, r, |hs|) && hs[..|hs|] == hs;
    HeadersLive(c, s0, hs);
    SpineAlways(r, |hs|);
    RecentsAlways(r, |hs|);
    AlignedAlways(r, |hs|);
    LastMilliIs(c, s0, hs);
  }

  lemma UsedUpHere(c: Crypto, s0: Snap, hs: seq<Header>, hist: seq<Header>, s: Snap, v: Address)
    requires Known(c, s0, hs, hist, s) && s.number < MAX_NUMBER
    ensures SignRecently(Residue(s), v) <==> UsedUp(s0, hist, Residue(s), v)
    ensures UsedUp(s0, hist, Residue(s), v) <==> UsedUp(s0, hist, s, v)
  {
    UsedUpIff(c, s0, hs, v);
    ResidueKeepsCounts(s, v);
    UsedUpSame(s0, hist, s, v);
  }

  lemma HistorySays(c: Crypto, s0: Snap, hs: seq<Header>, hist: seq<Header>, s: Snap, h: Header)
    requires Known(c, s0, hs, hist, s) && Aligned(s0) && h.miner in s.validators && (h.difficulty == 1 || h.difficulty == 2)
    ensures s.turnLength > 0 && s.validators != []
    ensures SignRecently(Residue(s), h.miner) <==> UsedUp(s0, hist, s, h.miner)
    ensures BackoffOk(Residue(s), h) <==> (MustWait(s0, hist, s, h) ==> Waited(MilliTimestamp(hist[|hist| - 1]), h))
  {
    KnownState(c, s0, hs, hist, s);
    UsedUpHere(c, s0, hs, hist, s, h.miner);
    UsedUpHere(c, s0, hs, hist, s, InturnAt(s, s.number + 1));
    WaitIff(s0, hist, Residue(s), h);
    MustWaitSame(s0, hist, s, h);
  }

  lemma AttestationSays(c: Crypto, s0: Snap, hist: seq<Header>, s: Snap, h: Header)
    requires Spine(s0, hist, s) && h.number == s.number + 1 && h.extra.Some? && |h.extra.value.attestation| < U64
    ensures CheckAttestation(c, Residue(s), h.extra.value.attestation, h.number, h.time).Ok? <==> AttestationHolds(c, s0, hist, s, h)
  {
    ResidueSpine(s0, hist, s);
    AttestationIff(c, s0, hist, Residue(s), h);
    HoldsSame(c, s0, hist, s, h);
  }

  lemma LateIs(c: Crypto, s0: Snap, hs: seq<Header>, hist: seq<Header>, s: Snap, h: Header)
    requires Known(c, s0, hs, hist, s) && Aligned(s0) && Sealed(c, h) && h.number == s.number + 1 && h.miner in s.validators
    requires h.extra.Some? && |h.extra.value.attestation| < U64
    ensures s.turnLength > 0 && s.validators != []
    ensures LateCheck(c, Residue(s), h, h.miner).Ok? <==>
            !UsedUp(s0, hist, s, h.miner) && (MustWait(s0, hist, s, h) ==> Waited(MilliTimestamp(hist[|hist| - 1]), h))
            && AttestationHolds(c, s0, hist, s, h)
  {
    HistorySays(c, s0, hs, hist, s, h);
    KnownState(c, s0, hs, hist, s);
    AttestationSays(c, s0, hist, s, h);
    LateParts(c, Residue(s), h);
  }

  /** A header is accepted, by a client fed anything at all, exactly when the walked chain says so. */
  lemma AcceptedIff(c: Crypto, s0: Snap, hs: seq<Header>, h: Header)
    requires Fresh(s0) && Aligned(s0) && AllLive(hs) && (h.extra.Some? ==> |h.extra.value.attestation| < U64)
    ensures var s, hist := Feed(c, s0, hs), Taken(c, s0, hs);
            s.turnLength > 0 &&
            (ApplyHeader(c, s, h).Accepted? <==> s.validators != [] && Acceptable(c, s0, hist, s, h))
  {
    var s, hist := Feed(c, s0, hs), Taken(c, s0, hs);
    KnownState(c, s0, hs, hist, s);
    SealedIff(c, h);
    EarlyIff(s, h);
    if Sealed(c, h) && h.number == s.number + 1 && h.miner in s.validators {
      TurnIff(s, h);
      LateIs(c, s0, hs, hist, s, h);
    }
    AcceptedParts(c, s, h);
  }

  lemma AcceptedParts(c: Crypto, s: Snap, h: Header)
    ensures ApplyHeader(c, s, h).Accepted? <==>
            VerifySealCoinbase(c.keccak, h).Ok? && EarlyError(s, h, h.miner).None? && LateCheck(c, Residue(s), h, h.miner).Ok?
  {
    var a, e := ApplyIs(c, s, h);
    if e.None? && EarlyError(s, h, h.miner).None? {
      EarlyIff(s, h);
      assert Forget(s, h.number) == Residue(s);
    }
  }

  // ----- which refusals look like a reorg -----

  /** A header is refused as not following the chain exactly when its seal is good and its number or parent
      is not the next one. */
  lemma LinkRefusedIff(c: Crypto, s: Snap, h: Header)
    ensures var a := ApplyHeader(c, s, h);
            (a.Rejected? && LinkRefusal(a.error)) <==>
            Sealed(c, h) && (h.number != s.number + 1 || h.parentHash != s.hash)
    ensures Sealed(c, h) && (h.number != s.number + 1 || h.parentHash != s.hash) ==> ApplyHeader(c, s, h).snap == s
  {
    SealedIff(c, h);
    var a, e := ApplyIs(c, s, h);
    EarlyErrors(s, h);
    LateErrors(c, Forget(s, h.number), h);
  }

  predicate LinkRefusal(e: SnapError) {
    e == NumberMismatch || e == ParentHashMismatch
  }

  lemma EarlyErrors(s: Snap, h: Header)
    ensures EarlyError(s, h, h.miner).Some? && LinkRefusal(EarlyError(s, h, h.miner).value)
            <==> h.number != s.number + 1 || h.parentHash != s.hash
  {
  }

  lemma DecodedErrors(c: Crypto, s: Snap, raw: Bytes, number: nat, time: nat, att: VoteAttestation)
    requires DecodeAttestation(raw) == Ok(Some(att))
    ensures CheckAttestation(c, s, raw, number, time).Err? ==> !LinkRefusal(CheckAttestation(c, s, raw, number, time).error)
  {
    var verified := VerifySignature(c, att, AttestationSet(s, att.data.targetNumber));
  }

  lemma CheckErrors(c: Crypto, s: Snap, raw: Bytes, number: nat, time: nat)
    ensures CheckAttestation(c, s, raw, number, time).Err? ==> !LinkRefusal(CheckAttestation(c, s, raw, number, time).error)
  {
    var decoded := DecodeAttestation(raw);
    if decoded.Ok? && decoded.value.Some? {
      DecodedErrors(c, s, raw, number, time, decoded.value.value);
    }
  }

  lemma LateErrors(c: Crypto, s: Snap, h: Header)
    ensures LateCheck(c, s, h, h.miner).Err? ==> !LinkRefusal(LateCheck(c, s, h, h.miner).error)
  {
    if h.extra.Some? {
      CheckErrors(c, s, h.extra.value.attestation, h.number, h.time);
    }
  }
}
