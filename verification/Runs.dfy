/** Runs of a snapshot: any headers, in any order, accepted or rejected. */
module Runs {
  import opened Base
  import opened Vote
  import opened Headers
  import opened Snapshot

  /** Block numbers stay below the sentinel keys. */
  const MAX_NUMBER: nat := 0x8000_0000_0000_0000

  /** The live regime this client runs in. */
  predicate Live(h: Header) {
    h.time >= MAXWELL_TIME && h.number < MAX_NUMBER
  }

  ghost predicate AllLive(hs: seq<Header>) {
    forall i | 0 <= i < |hs| :: Live(hs[i])
  }

  /** A snapshot as bootstrap leaves it, before the first header. */
  ghost predicate Fresh(s: Snap) {
    s.pending.None? && s.recents == map[] && s.prevVoteSet == [] && s.setChangedAt == 0 &&
    s.attestation.None? && s.lastMilli.None? && s.walkStart == s.number + 1 &&
    s.ancestors == [(s.number, s.hash)] && 0 < s.turnLength <= 255 && s.number < MAX_NUMBER
  }

  lemma BootstrapIsFresh(cp: Checkpoint, turnLength: nat)
    requires cp.number < MAX_NUMBER && turnLength <= 255
    ensures Fresh(FromCheckpoint(cp))
    ensures SeedTurnLength(FromCheckpoint(cp), turnLength).Some? && Fresh(SeedTurnLength(FromCheckpoint(cp), turnLength).value)
  {
  }

  /** State after feeding headers one by one. */
  function Feed(c: Crypto, s: Snap, hs: seq<Header>): Snap {
    if hs == [] then s else ApplyHeader(c, Feed(c, s, hs[..|hs| - 1]), hs[|hs| - 1]).snap
  }

  /** The headers that were accepted, in order: the walked chain. */
  function Taken(c: Crypto, s: Snap, hs: seq<Header>): seq<Header> {
    if hs == [] then []
    else
      var last := |hs| - 1;
      Taken(c, s, hs[..last]) + if ApplyHeader(c, Feed(c, s, hs[..last]), hs[last]).Accepted? then [hs[last]] else []
  }

  /** The votes adopted along the way, in order. */
  function Adopted(c: Crypto, s: Snap, hs: seq<Header>): seq<VoteData> {
    if hs == [] then []
    else
      var last := |hs| - 1;
      Adopted(c, s, hs[..last]) + AdoptedBy(c, Feed(c, s, hs[..last]), hs[last])
  }

  ghost predicate AllAccepted(c: Crypto, s: Snap, hs: seq<Header>) {
    Taken(c, s, hs) == hs
  }

  // ----- what a verdict means -----

  /** State after the entry leaving the window is dropped. */
  function Residue(s: Snap): Snap {
    Forget(s, s.number + 1)
  }

  lemma AcceptFacts(c: Crypto, s: Snap, h: Header)
    requires ApplyHeader(c, s, h).Accepted?
    ensures h.number == s.number + 1 && h.parentHash == s.hash && h.miner in s.validators
    ensures LayoutOk(h) && c.keccak(Preimage(h)) == h.hash.bytes
    ensures !SignRecently(Residue(s), h.miner)
    ensures LateCheck(c, Residue(s), h, h.miner).Ok?
    ensures var (x, adopted) := LateCheck(c, Residue(s), h, h.miner).value;
            x == h.extra.value
            && ApplyHeader(c, s, h).snap == Commit(Residue(s), h, x, h.miner, adopted)
            && adopted.Some? == (AdoptedBy(c, s, h) != [])
            && (adopted.Some? ==> AdoptedBy(c, s, h) == [adopted.value])
  {
  }

  lemma RejectFacts(c: Crypto, s: Snap, h: Header)
    requires ApplyHeader(c, s, h).Rejected?
    ensures ApplyHeader(c, s, h).snap == s || ApplyHeader(c, s, h).snap == Residue(s)
    ensures AdoptedBy(c, s, h) == []
  {
  }

  lemma ResidueOfResidue(s: Snap)
    ensures Residue(Residue(s)) == Residue(s)
  {
    var r := Residue(s);
    assert Residue(r).recents == r.recents;
  }

  lemma EarlyIgnoresHistory(s: Snap, h: Header, signer: Address)
    ensures EarlyError(Residue(s), h, signer) == EarlyError(s, h, signer)
  {
  }

  /** Same verdict, and the same state or the same residue. */
  ghost predicate Alike(a: Applied, b: Applied) {
    (a.Accepted? && a == b) || (a.Rejected? && b.Rejected? && a.error == b.error && Residue(a.snap) == Residue(b.snap))
  }

  lemma VerifiedNeutral(c: Crypto, s: Snap, h: Header, signer: Address)
    ensures Alike(ApplyVerified(c, s, h, signer), ApplyVerified(c, Residue(s), h, signer))
    ensures ApplyVerified(c, s, h, signer).Rejected? ==> Residue(ApplyVerified(c, s, h, signer).snap) == Residue(s)
  {
    ResidueOfResidue(s);
    EarlyIgnoresHistory(s, h, signer);
    if EarlyError(s, h, signer).None? {
      assert Forget(s, h.number) == Residue(s);
      assert Forget(Residue(s), h.number) == Residue(s);
    }
  }

  /** Headers see the residue anyway: dropping the entry early changes no verdict and no result. */
  lemma ResidueIsNeutral(c: Crypto, s: Snap, h: Header)
    ensures Alike(ApplyHeader(c, s, h), ApplyHeader(c, Residue(s), h))
    ensures ApplyHeader(c, s, h).Rejected? ==> Residue(ApplyHeader(c, s, h).snap) == Residue(s)
  {
    VerifiedNeutral(c, s, h, h.miner);
    ResidueOfResidue(s);
    var a, e := ApplyIs(c, s, h);
    var b, f := ApplyIs(c, Residue(s), h);
  }

  function SealErrorOf(c: Crypto, h: Header): Option<SealError> {
    match VerifySealCoinbase(c.keccak, h)
    case Err(e) => Some(e)
    case Ok(_) => None
  }

  lemma ApplyIs(c: Crypto, s: Snap, h: Header) returns (a: Applied, e: Option<SealError>)
    ensures a == ApplyHeader(c, s, h) && e == SealErrorOf(c, h)
    ensures a == if e.Some? then Rejected(s, Seal(e.value)) else ApplyVerified(c, s, h, h.miner)
  {
    a, e := ApplyHeader(c, s, h), SealErrorOf(c, h);
  }

  lemma AdoptionIgnoresResidue(c: Crypto, s: Snap, h: Header)
    ensures AdoptedBy(c, s, h) == AdoptedBy(c, Residue(s), h)
  {
    ResidueIsNeutral(c, s, h);
    ResidueOfResidue(s);
    if ApplyHeader(c, s, h).Accepted? {
      AcceptFacts(c, s, h);
      AcceptFacts(c, Residue(s), h);
    } else {
      RejectFacts(c, s, h);
      RejectFacts(c, Residue(s), h);
    }
  }

  /** Two states that differ only in the entry about to leave behave alike. */
  lemma AlikeStep(c: Crypto, s: Snap, t: Snap, h: Header)
    requires Residue(s) == Residue(t)
    ensures Alike(ApplyHeader(c, s, h), ApplyHeader(c, t, h))
    ensures ApplyHeader(c, s, h).Rejected? ==> Residue(ApplyHeader(c, s, h).snap) == Residue(s)
    ensures AdoptedBy(c, s, h) == AdoptedBy(c, t, h)
  {
    ResidueIsNeutral(c, s, h);
    ResidueIsNeutral(c, t, h);
    AdoptionIgnoresResidue(c, s, h);
    AdoptionIgnoresResidue(c, t, h);
  }

  /** A rejected header is harmless: every later header gets the same verdict, and the state after
      the next accepted one is identical, as if the rejected header had never come. */
  lemma RejectionHarmless(c: Crypto, s: Snap, bad: Header, next: Header)
    requires ApplyHeader(c, s, bad).Rejected?
    ensures var t := ApplyHeader(c, s, bad).snap;
            var a, b := ApplyHeader(c, s, next), ApplyHeader(c, t, next);
            (a.Accepted? && a == b) || (a.Rejected? && b.Rejected? && a.error == b.error)
  {
    RejectFacts(c, s, bad);
    ResidueIsNeutral(c, s, next);
  }

  /** ... and the dropped entry was outside the window `sign_recently` counts. */
  lemma ResidueKeepsCounts(s: Snap, signer: Address)
    requires s.number < MAX_NUMBER
    ensures SeenBlocks(Residue(s), signer) == SeenBlocks(s, signer)
    ensures SignRecently(Residue(s), signer) == SignRecently(s, signer)
  {
    var r := Residue(s);
    assert LeftBound(r) == LeftBound(s);
    forall b
      ensures Counted(r, signer, b) <==> Counted(s, signer, b)
    {
    }
    assert SeenBlocks(r, signer) == SeenBlocks(s, signer);
  }

  lemma HarmlessStep(c: Crypto, s: Snap, good: seq<Header>, a: Snap, h: Header)
    requires AllAccepted(c, s, good) && Residue(a) == Residue(Feed(c, s, good))
    ensures ApplyHeader(c, a, h).Accepted? ==>
              AllAccepted(c, s, good + [h]) && Feed(c, s, good + [h]) == ApplyHeader(c, a, h).snap &&
              Adopted(c, s, good + [h]) == Adopted(c, s, good) + AdoptedBy(c, a, h)
    ensures ApplyHeader(c, a, h).Rejected? ==> Residue(ApplyHeader(c, a, h).snap) == Residue(a) && AdoptedBy(c, a, h) == []
  {
    AlikeStep(c, a, Feed(c, s, good), h);
    if ApplyHeader(c, a, h).Accepted? {
      assert (good + [h])[..|good|] == good;
    } else {
      RejectFacts(c, a, h);
    }
  }

  /** Feeding any headers is feeding only the accepted ones, over a whole run. */
  lemma {:induction false} RejectionsHarmless(c: Crypto, s: Snap, hs: seq<Header>)
    ensures var good := Taken(c, s, hs);
            AllAccepted(c, s, good) && Residue(Feed(c, s, hs)) == Residue(Feed(c, s, good))
            && Adopted(c, s, hs) == Adopted(c, s, good)
    ensures hs != [] && ApplyHeader(c, Feed(c, s, hs[..|hs| - 1]), hs[|hs| - 1]).Accepted? ==>
            Feed(c, s, hs) == Feed(c, s, Taken(c, s, hs))
  {
    if hs != [] {
      var init, h := hs[..|hs| - 1], hs[|hs| - 1];
      RejectionsHarmless(c, s, init);
      var good := Taken(c, s, init);
      HarmlessStep(c, s, good, Feed(c, s, init), h);
      if ApplyHeader(c, Feed(c, s, init), h).Accepted? {
        assert Taken(c, s, hs) == good + [h];
      } else {
        assert Taken(c, s, hs) == good;
      }
    }
  }

  // ----- moves: what one header can do, cryptography aside, one aspect of the state at a time -----

  datatype Move = Take(header: Header, extra: Extra, vote: Option<VoteData>) | Drop | Stay

  /** Number, hash and ancestors. */
  ghost predicate Chains(s: Snap, m: Move, t: Snap) {
    if m.Take? then
      var h := m.header;
      h.number == s.number + 1 && h.parentHash == s.hash && LayoutOk(h) && m.extra == h.extra.value &&
      t.number == h.number && t.hash == h.hash && t.ancestors == PushAncestor(s.ancestors, (h.number, h.hash)) &&
      t.walkStart == s.walkStart && t.enforceInturn == s.enforceInturn
    else
      t.number == s.number && t.hash == s.hash && t.ancestors == s.ancestors &&
      t.walkStart == s.walkStart && t.enforceInturn == s.enforceInturn
  }

  /** The pending switch a header looks at. */
  function PendingAt(s: Snap, h: Header, x: Extra): Option<Pending> {
    if IsEpoch(h.number) then Some(EpochPending(s, h, x)) else s.pending
  }

  predicate Switches(pending: Option<Pending>, number: nat) {
    pending.Some? && pending.value.activateAt == number
  }

  ghost predicate SameEpochs(s: Snap, t: Snap) {
    t.validators == s.validators && t.turnLength == s.turnLength && t.setChangedAt == s.setChangedAt &&
    t.prevVoteSet == s.prevVoteSet && t.voteSet == s.voteSet
  }

  /** The epoch fields after a header at `number` that looks at this pending switch. */
  ghost predicate Switched(s: Snap, number: nat, pending: Option<Pending>, t: Snap) {
    if Switches(pending, number) then
      var p := pending.value;
      t.pending.None? && t.validators == p.validators && t.turnLength == p.turnLength
      && t.setChangedAt == number && t.prevVoteSet == s.voteSet
      && t.voteSet == (if |p.voteKeys| == |p.validators| then Zip(p.validators, p.voteKeys) else [])
    else
      t.pending == pending && SameEpochs(s, t)
  }

  ghost predicate Announces(s: Snap, m: Move, t: Snap) {
    if m.Take? then Switched(s, m.header.number, PendingAt(s, m.header, m.extra), t)
    else t.pending == s.pending && SameEpochs(s, t)
  }

  /** What an adopted vote is known to satisfy. */
  ghost predicate VoteFits(s: Snap, h: Header, d: VoteData) {
    d.sourceNumber < d.targetNumber < h.number &&
    AncestorHash(s.ancestors, d.targetNumber) == Some(d.targetHash) &&
    (s.attestation.Some? ==> d.sourceNumber == s.attestation.value.targetNumber && d.sourceHash == s.attestation.value.targetHash)
  }

  ghost predicate Votes(s: Snap, m: Move, t: Snap) {
    if m.Take? && m.vote.Some? then
      VoteFits(s, m.header, m.vote.value) && t.attestation == Some(AdoptAttestation(s.attestation, m.vote.value))
    else t.attestation == s.attestation
  }

  /** The sealer is authorised and the history moves on. */
  ghost predicate Seals(s: Snap, m: Move, t: Snap) {
    match m
    case Stay => t.recents == s.recents
    case Drop => t.recents == Residue(s).recents
    case Take(h, x, _) =>
      h.miner in s.validators && !SignRecently(Residue(s), h.miner) &&
      if Switches(PendingAt(s, h, x), h.number) then t.recents == map[EpochKey(h.number) := SENTINEL]
      else h.time >= MAXWELL_TIME ==> t.recents == PruneFinalized(Residue(s).recents[h.number := h.miner], FinalizedNumber(t))
  }

  /** A state that differs from s in the fields `Record` writes only. */
  ghost predicate Kept(s: Snap, t: Snap) {
    SameEpochs(s, t) && t.number == s.number && t.hash == s.hash && t.enforceInturn == s.enforceInturn &&
    t.walkStart == s.walkStart && t.ancestors == s.ancestors
  }

  lemma RecordFields(s: Snap, h: Header, x: Extra, vote: Option<VoteData>)
    ensures var t := Record(Residue(s), h, x, h.miner, vote);
            Kept(s, t) && t.pending == PendingAt(s, h, x) &&
            t.attestation == (if vote.Some? then Some(AdoptAttestation(s.attestation, vote.value)) else s.attestation) &&
            (h.time >= MAXWELL_TIME ==> t.recents == PruneFinalized(Residue(s).recents[h.number := h.miner], FinalizedNumber(t)))
  {
  }

  lemma ActivateFields(s: Snap, t: Snap, number: nat)
    requires Kept(s, t)
    ensures var u := Activate(t, number);
            Switched(s, number, t.pending, u) && u.attestation == t.attestation && u.number == s.number &&
            u.hash == s.hash && u.walkStart == s.walkStart && u.enforceInturn == s.enforceInturn && u.ancestors == s.ancestors &&
            u.recents == if Switches(t.pending, number) then map[EpochKey(number) := SENTINEL] else t.recents
  {
  }

  /** Everything a legal step establishes. */
  ghost predicate Step(s: Snap, m: Move, t: Snap) {
    Chains(s, m, t) && Announces(s, m, t) && Votes(s, m, t) && Seals(s, m, t)
  }

  lemma CommitIsStep(s: Snap, h: Header, vote: Option<VoteData>)
    requires h.number == s.number + 1 && h.parentHash == s.hash && LayoutOk(h)
    requires h.miner in s.validators && !SignRecently(Residue(s), h.miner)
    requires vote.Some? ==> VoteFits(s, h, vote.value)
    ensures Step(s, Take(h, h.extra.value, vote), Commit(Residue(s), h, h.extra.value, h.miner, vote))
  {
    RecordFields(s, h, h.extra.value, vote);
    ActivateFields(s, Record(Residue(s), h, h.extra.value, h.miner, vote), h.number);
  }

  function HeaderOf(m: Move): seq<Header> {
    if m.Take? then [m.header] else []
  }

  function VoteOf(m: Move): seq<VoteData> {
    if m.Take? && m.vote.Some? then [m.vote.value] else []
  }

  lemma ApplyIsMove(c: Crypto, s: Snap, h: Header) returns (m: Move)
    ensures Step(s, m, ApplyHeader(c, s, h).snap)
    ensures HeaderOf(m) == if ApplyHeader(c, s, h).Accepted? then [h] else []
    ensures VoteOf(m) == AdoptedBy(c, s, h)
  {
    if ApplyHeader(c, s, h).Accepted? {
      AcceptFacts(c, s, h);
      var (x, adopted) := LateCheck(c, Residue(s), h, h.miner).value;
      if adopted.Some? {
        AdoptedFits(c, s, h, adopted.value);
      }
      m := Take(h, x, adopted);
      CommitIsStep(s, h, adopted);
    } else {
      RejectFacts(c, s, h);
      m := if ApplyHeader(c, s, h).snap == s then Stay else Drop;
      assert Residue(s) == s.(recents := Residue(s).recents);
    }
  }

  lemma CheckedVoteFits(c: Crypto, s: Snap, raw: Bytes, number: nat, time: nat, d: VoteData)
    requires CheckAttestation(c, s, raw, number, time) == Ok(Some(d))
    ensures d.sourceNumber < d.targetNumber <= SatSub(number, 1)
    ensures AncestorHash(s.ancestors, d.targetNumber) == Some(d.targetHash)
    ensures s.attestation.Some? ==> d.sourceNumber == s.attestation.value.targetNumber && d.sourceHash == s.attestation.value.targetHash
  {
  }

  lemma AdoptedFits(c: Crypto, s: Snap, h: Header, d: VoteData)
    requires h.number == s.number + 1
    requires LateCheck(c, Residue(s), h, h.miner).Ok? && LateCheck(c, Residue(s), h, h.miner).value.1 == Some(d)
    ensures VoteFits(s, h, d)
  {
    CheckedVoteFits(c, Residue(s), h.extra.value.attestation, h.number, h.time, d);
  }

  // ----- runs of moves -----

  /** states[i] --ms[i]--> states[i + 1]. */
  datatype Run = Run(states: seq<Snap>, moves: seq<Move>)

  ghost predicate ChainsAt(r: Run, i: nat)
    requires i < |r.moves| && i + 1 < |r.states|
  {
    Chains(r.states[i], r.moves[i], r.states[i + 1])
  }

  ghost predicate AnnouncesAt(r: Run, i: nat)
    requires i < |r.moves| && i + 1 < |r.states|
  {
    Announces(r.states[i], r.moves[i], r.states[i + 1])
  }

  ghost predicate VotesAt(r: Run, i: nat)
    requires i < |r.moves| && i + 1 < |r.states|
  {
    Votes(r.states[i], r.moves[i], r.states[i + 1])
  }

  ghost predicate SealsAt(r: Run, i: nat)
    requires i < |r.moves| && i + 1 < |r.states|
  {
    Seals(r.states[i], r.moves[i], r.states[i + 1])
  }

  /** The aspects are separate so that each proof opens only the one it is about. */
  ghost predicate IsRun(r: Run) {
    |r.states| == |r.moves| + 1 && Fresh(r.states[0]) &&
    (forall i: nat | i < |r.moves| :: ChainsAt(r, i)) && (forall i: nat | i < |r.moves| :: AnnouncesAt(r, i)) &&
    (forall i: nat | i < |r.moves| :: VotesAt(r, i)) && (forall i: nat | i < |r.moves| :: SealsAt(r, i))
  }

  /** Headers walked after k moves. */
  function Walked(r: Run, k: nat): seq<Header>
    requires k <= |r.moves|
  {
    if k == 0 then [] else Walked(r, k - 1) + HeaderOf(r.moves[k - 1])
  }

  lemma {:induction false} WalkedPrefix(r: Run, j: nat, k: nat)
    requires j <= k <= |r.moves|
    ensures Walked(r, j) <= Walked(r, k)
  {
    if j < k { WalkedPrefix(r, j, k - 1); }
  }

  /** Votes adopted after k moves. */
  function Voted(r: Run, k: nat): seq<VoteData>
    requires k <= |r.moves|
  {
    if k == 0 then [] else Voted(r, k - 1) + VoteOf(r.moves[k - 1])
  }

  /** After k headers the run is where feeding them leaves the client. */
  ghost predicate Traces(c: Crypto, s: Snap, hs: seq<Header>, r: Run, k: nat)
    requires k <= |hs| && |r.moves| == |hs| && |r.states| == |hs| + 1
  {
    r.states[k] == Feed(c, s, hs[..k]) && Walked(r, k) == Taken(c, s, hs[..k]) && Voted(r, k) == Adopted(c, s, hs[..k])
  }

  /** Every run of the client, whatever it is fed, is a run of legal moves through the same states. */
  lemma {:induction false} FeedIsRun(c: Crypto, s: Snap, hs: seq<Header>) returns (r: Run)
    requires Fresh(s)
    ensures IsRun(r) && |r.moves| == |hs| && r.states[0] == s
    ensures forall k: nat | k <= |hs| :: Traces(c, s, hs, r, k)
  {
    if hs == [] {
      r := Run([s], []);
      assert Traces(c, s, hs, r, 0);
    } else {
      var n := |hs| - 1;
      var before := FeedIsRun(c, s, hs[..n]);
      assert Traces(c, s, hs[..n], before, n);
      var m, t := LastMove(c, s, hs, before.states[n]);
      r := Run(before.states + [t], before.moves + [m]);
      RunGrows(before, r);
      forall k: nat | k <= |hs|
        ensures Traces(c, s, hs, r, k)
      {
        if k <= n {
          assert Traces(c, s, hs[..n], before, k);
          TraceKept(c, s, hs, before, r, k);
        } else {
          assert hs[..n][..n] == hs[..n] && hs[..k] == hs;
          TraceLast(before, r, n, Taken(c, s, hs), Adopted(c, s, hs));
        }
      }
    }
  }

  lemma LastMove(c: Crypto, s: Snap, hs: seq<Header>, before: Snap) returns (m: Move, t: Snap)
    requires hs != [] && before == Feed(c, s, hs[..|hs| - 1][..|hs| - 1])
    ensures t == Feed(c, s, hs) && Step(before, m, t)
    ensures Taken(c, s, hs) == Taken(c, s, hs[..|hs| - 1]) + HeaderOf(m)
    ensures Adopted(c, s, hs) == Adopted(c, s, hs[..|hs| - 1]) + VoteOf(m)
  {
    var n := |hs| - 1;
    assert hs[..n][..n] == hs[..n];
    m := ApplyIsMove(c, before, hs[n]);
    t := Feed(c, s, hs);
  }

  lemma TraceKept(c: Crypto, s: Snap, hs: seq<Header>, a: Run, b: Run, k: nat)
    requires hs != [] && k < |hs| && |b.moves| == |hs| && |b.states| == |hs| + 1
    requires |a.moves| == |hs| - 1 && |a.states| == |hs| && a.states <= b.states && a.moves <= b.moves
    requires Traces(c, s, hs[..|hs| - 1], a, k)
    ensures Traces(c, s, hs, b, k)
  {
    assert hs[..k] == hs[..|hs| - 1][..k];
    SamePrefix(a, b, k);
  }

  lemma TraceLast(a: Run, b: Run, n: nat, taken: seq<Header>, votes: seq<VoteData>)
    requires |a.moves| == n && |b.moves| == n + 1 && a.moves <= b.moves
    requires taken == Walked(a, n) + HeaderOf(b.moves[n]) && votes == Voted(a, n) + VoteOf(b.moves[n])
    ensures Walked(b, n + 1) == taken && Voted(b, n + 1) == votes
  {
    SamePrefix(a, b, n);
  }

  lemma RunGrows(a: Run, b: Run)
    requires IsRun(a) && |b.states| == |a.states| + 1 && |b.moves| == |a.moves| + 1
    requires a.states <= b.states && a.moves <= b.moves
    requires Step(a.states[|a.moves|], b.moves[|a.moves|], b.states[|a.states|])
    ensures IsRun(b)
  {
    forall i: nat | i < |b.moves|
      ensures ChainsAt(b, i) && AnnouncesAt(b, i) && VotesAt(b, i) && SealsAt(b, i)
    {
      if i < |a.moves| {
        SameStep(a, b, i);
        assert ChainsAt(a, i) && AnnouncesAt(a, i) && VotesAt(a, i) && SealsAt(a, i);
      }
    }
  }

  lemma SameStep(a: Run, b: Run, i: nat)
    requires i < |a.moves| && i < |b.moves| && i + 1 < |a.states| && i + 1 < |b.states|
    requires a.states <= b.states && a.moves <= b.moves
    ensures ChainsAt(a, i) == ChainsAt(b, i) && AnnouncesAt(a, i) == AnnouncesAt(b, i)
    ensures VotesAt(a, i) == VotesAt(b, i) && SealsAt(a, i) == SealsAt(b, i)
  {
    assert b.states[i] == a.states[i] && b.states[i + 1] == a.states[i + 1] && b.moves[i] == a.moves[i];
  }

  lemma {:induction false} SamePrefix(a: Run, b: Run, k: nat)
    requires k <= |a.moves| && a.moves <= b.moves
    ensures Walked(a, k) == Walked(b, k) && Voted(a, k) == Voted(b, k)
  {
    if k > 0 { SamePrefix(a, b, k - 1); }
  }

  // ----- the spine: numbers, hashes and the ancestor ring -----

  /** Hash of block n of the walked chain; the checkpoint is block s0.number. */
  function BlockHash(s0: Snap, hist: seq<Header>, n: nat): Hash
    requires s0.number <= n <= s0.number + |hist|
  {
    if n == s0.number then s0.hash else hist[n - s0.number - 1].hash
  }

  ghost predicate LinkedAt(s0: Snap, hist: seq<Header>, i: nat)
    requires i < |hist|
  {
    hist[i].number == s0.number + 1 + i && hist[i].parentHash == BlockHash(s0, hist, s0.number + i)
  }

  ghost predicate Linked(s0: Snap, hist: seq<Header>) {
    forall i: nat | i < |hist| :: LinkedAt(s0, hist, i)
  }

  function Lowest(s0: Snap, n: nat): nat {
    if n < s0.number + 2 then s0.number else n - 2
  }

  ghost predicate Spine(s0: Snap, hist: seq<Header>, s: Snap) {
    var n := s0.number + |hist|;
    Linked(s0, hist) && s.number == n && s.hash == BlockHash(s0, hist, n) &&
    s.walkStart == s0.walkStart && s.enforceInturn == s0.enforceInturn && Ring(s0, hist, s.ancestors)
  }

  /** The ring of the newest three blocks. */
  ghost predicate Ring(s0: Snap, hist: seq<Header>, ancestors: seq<(nat, Hash)>) {
    var n := s0.number + |hist|;
    |ancestors| == n - Lowest(s0, n) + 1 &&
    forall i | 0 <= i < |ancestors| ::
      ancestors[i] == (Lowest(s0, n) + i, BlockHash(s0, hist, Lowest(s0, n) + i))
  }

  lemma PushedRing(ancestors: seq<(nat, Hash)>, a: (nat, Hash))
    requires |ancestors| <= 3
    ensures var t := PushAncestor(ancestors, a);
            var drop := if |ancestors| == 3 then 1 else 0;
            |t| == |ancestors| + 1 - drop && t[|t| - 1] == a && forall i | 0 <= i < |t| - 1 :: t[i] == ancestors[i + drop]
  {
  }

  lemma HashKept(s0: Snap, hist: seq<Header>, h: Header, n: nat)
    requires s0.number <= n <= s0.number + |hist|
    ensures BlockHash(s0, hist + [h], n) == BlockHash(s0, hist, n)
    ensures BlockHash(s0, hist + [h], s0.number + |hist| + 1) == h.hash
  {
  }

  lemma LowestMoves(s0: Snap, n: nat, len: nat)
    requires s0.number <= n && len == n - Lowest(s0, n) + 1
    ensures len <= 3 && Lowest(s0, n + 1) == Lowest(s0, n) + if len == 3 then 1 else 0
  {
  }

  /** An entry that stays in the ring. */
  lemma RingOld(s0: Snap, hist: seq<Header>, h: Header, ancestors: seq<(nat, Hash)>, i: nat)
    requires Ring(s0, hist, ancestors) && i < |ancestors|
    ensures var n := Lowest(s0, s0.number + |hist|) + i;
            s0.number <= n <= s0.number + |hist| && ancestors[i] == (n, BlockHash(s0, hist + [h], n))
  {
    HashKept(s0, hist, h, Lowest(s0, s0.number + |hist|) + i);
  }

  lemma RingStep(s0: Snap, hist: seq<Header>, h: Header, ancestors: seq<(nat, Hash)>)
    requires Ring(s0, hist, ancestors) && h.number == s0.number + |hist| + 1
    ensures Ring(s0, hist + [h], PushAncestor(ancestors, (h.number, h.hash)))
  {
    var n, len := s0.number + |hist|, |ancestors|;
    LowestMoves(s0, n, len);
    PushedRing(ancestors, (h.number, h.hash));
    HashKept(s0, hist, h, n);
    RingJoin(s0, hist, h, ancestors, PushAncestor(ancestors, (h.number, h.hash)), if len == 3 then 1 else 0);
  }

  lemma RingJoin(s0: Snap, hist: seq<Header>, h: Header, ancestors: seq<(nat, Hash)>, t: seq<(nat, Hash)>, drop: nat)
    requires Ring(s0, hist, ancestors) && h.number == s0.number + |hist| + 1
    requires t != [] && |t| == |ancestors| + 1 - drop && t[|t| - 1] == (h.number, h.hash)
    requires forall i | 0 <= i < |t| - 1 :: t[i] == ancestors[i + drop]
    requires Lowest(s0, s0.number + |hist| + 1) == Lowest(s0, s0.number + |hist|) + drop
    requires BlockHash(s0, hist + [h], s0.number + |hist| + 1) == h.hash
    ensures Ring(s0, hist + [h], t)
  {
    var low := Lowest(s0, s0.number + |hist| + 1);
    forall i: nat | i < |t|
      ensures low + i <= h.number && t[i] == (low + i, BlockHash(s0, hist + [h], low + i))
    {
      if i < |t| - 1 {
        RingOld(s0, hist, h, ancestors, i + drop);
      }
    }
  }

  lemma LinkedStep(s0: Snap, hist: seq<Header>, h: Header)
    requires Linked(s0, hist) && h.number == s0.number + |hist| + 1
    requires h.parentHash == BlockHash(s0, hist, s0.number + |hist|)
    ensures Linked(s0, hist + [h])
  {
    forall i: nat | i <= |hist|
      ensures LinkedAt(s0, hist + [h], i)
    {
      if i < |hist| { assert LinkedAt(s0, hist, i); }
    }
  }

  lemma SpineStep(s0: Snap, hist: seq<Header>, s: Snap, m: Move, t: Snap)
    requires Spine(s0, hist, s) && Chains(s, m, t)
    ensures Spine(s0, hist + HeaderOf(m), t)
  {
    if m.Take? {
      RingStep(s0, hist, m.header, s.ancestors);
      LinkedStep(s0, hist, m.header);
    } else {
      assert hist + HeaderOf(m) == hist;
    }
  }

  /** Inside the window the lookup never misses a block at or above the checkpoint. */
  lemma {:induction false} AncestorFound(ancestors: seq<(nat, Hash)>, low: nat, n: nat)
    requires forall i | 0 <= i < |ancestors| :: ancestors[i].0 == low + i
    ensures low <= n < low + |ancestors| ==> AncestorHash(ancestors, n) == Some(ancestors[n - low].1)
    ensures !(low <= n < low + |ancestors|) ==> AncestorHash(ancestors, n) == None
  {
    if ancestors != [] {
      AncestorFound(ancestors[..|ancestors| - 1], low, n);
    }
  }

  /** A target the ring knows is a block of the walked chain with that hash. */
  lemma AncestorIsBlock(s0: Snap, hist: seq<Header>, s: Snap, n: nat)
    requires Spine(s0, hist, s)
    ensures Lowest(s0, s.number) <= n <= s.number ==> AncestorHash(s.ancestors, n) == Some(BlockHash(s0, hist, n))
    ensures !(Lowest(s0, s.number) <= n <= s.number) ==> AncestorHash(s.ancestors, n) == None
  {
    AncestorFound(s.ancestors, Lowest(s0, s.number), n);
  }

  /** After two walked headers every block of the attestation window is in the ring. */
  lemma TargetNeverMissed(s0: Snap, hist: seq<Header>, s: Snap, target: nat, time: nat)
    requires Spine(s0, hist, s) && |hist| >= 2
    requires TargetWindow(s.number + 1, time).0 <= target <= TargetWindow(s.number + 1, time).1
    ensures target <= s.number && AncestorHash(s.ancestors, target) == Some(BlockHash(s0, hist, target))
  {
    AncestorIsBlock(s0, hist, s, target);
  }

  lemma {:induction false} SpineAlways(r: Run, k: nat)
    requires IsRun(r) && k <= |r.moves|
    ensures Spine(r.states[0], Walked(r, k), r.states[k])
  {
    if k > 0 {
      SpineAlways(r, k - 1);
      assert ChainsAt(r, k - 1);
      SpineStep(r.states[0], Walked(r, k - 1), r.states[k - 1], r.moves[k - 1], r.states[k]);
    }
  }

  lemma {:induction false} HeadersLive(c: Crypto, s0: Snap, hs: seq<Header>)
    requires AllLive(hs)
    ensures AllLive(Taken(c, s0, hs))
  {
    if hs != [] {
      HeadersLive(c, s0, hs[..|hs| - 1]);
    }
  }
}
