/** Accountable safety: two clients of one validator set can only be led to contradict a finalized
    block if a third of the set signed two conflicting votes, or two header hashes collide. */
module Accountable {
  import opened Base
  import opened Vote
  import opened Headers
  import opened Snapshot
  import opened Runs
  import opened TwoChain

  // ----- conflicting votes -----

  /** One vote's span strictly encloses the other's. */
  predicate Surrounds(d: VoteData, e: VoteData) {
    d.sourceNumber < e.sourceNumber && e.targetNumber < d.targetNumber
  }

  /** The two votes no honest validator casts. */
  predicate Conflict(d: VoteData, e: VoteData) {
    (d.targetNumber == e.targetNumber && d.targetHash != e.targetHash) || Surrounds(d, e) || Surrounds(e, d)
  }

  /** The block is on the chain walked from the checkpoint. */
  predicate OnWalk(s0: Snap, hist: seq<Header>, n: nat, hash: Hash) {
    s0.number <= n <= s0.number + |hist| && BlockHash(s0, hist, n) == hash
  }

  /** A walked chain and the votes adopted along it. */
  ghost predicate VotesOn(s0: Snap, hist: seq<Header>, votes: seq<VoteData>) {
    Linked(s0, hist) && (forall i: nat | i < |votes| :: OnChainAt(s0, hist, votes, i)) &&
    forall i: nat | i + 1 < |votes| :: ExtendsAt(votes, i)
  }

  /** First vote that targets height f or more. */
  lemma {:induction false} FirstReaching(votes: seq<VoteData>, f: nat, k: nat) returns (i: nat)
    requires k < |votes| && votes[k].targetNumber >= f
    ensures i <= k && votes[i].targetNumber >= f && (i > 0 ==> votes[i - 1].targetNumber < f)
    decreases k
  {
    if k > 0 && votes[k - 1].targetNumber >= f {
      i := FirstReaching(votes, f, k - 1);
    } else {
      i := k;
    }
  }

  /** Each header's hash is that of its preimage. */
  ghost predicate HashedAt(keccak: Hasher, hist: seq<Header>, i: nat)
    requires i < |hist|
  {
    keccak(Preimage(hist[i])) == hist[i].hash.bytes
  }

  ghost predicate Hashed(keccak: Hasher, hist: seq<Header>) {
    forall i: nat | i < |hist| :: HashedAt(keccak, hist, i)
  }

  /** Any header a machine can hold. */
  ghost predicate HeaderFitsAt(hist: seq<Header>, i: nat)
    requires i < |hist|
  {
    |Preimage(hist[i])| < U64
  }

  ghost predicate HeadersFit(hist: seq<Header>) {
    forall i: nat | i < |hist| :: HeaderFitsAt(hist, i)
  }

  /** The two walks hold different headers with one hash. */
  ghost predicate HeadersCollide(keccak: Hasher, a: seq<Header>, b: seq<Header>) {
    exists i: nat, j: nat :: i < |a| && j < |b| && Collide(keccak, Preimage(a[i]), Preimage(b[j]))
  }

  lemma SameChild(keccak: Hasher, s0: Snap, a: seq<Header>, b: seq<Header>, n: nat)
    requires Linked(s0, a) && Linked(s0, b) && Hashed(keccak, a) && Hashed(keccak, b) && HeadersFit(a)
    requires s0.number < n <= s0.number + |a| && n <= s0.number + |b|
    requires BlockHash(s0, a, n) == BlockHash(s0, b, n)
    ensures BlockHash(s0, a, n - 1) == BlockHash(s0, b, n - 1) || HeadersCollide(keccak, a, b)
  {
    var i := n - s0.number - 1;
    assert LinkedAt(s0, a, i) && LinkedAt(s0, b, i) && HashedAt(keccak, a, i) && HashedAt(keccak, b, i) && HeaderFitsAt(a, i);
    if Preimage(a[i]) == Preimage(b[i]) {
      PreimageNamesParent(a[i], b[i]);
    } else {
      assert Collide(keccak, Preimage(a[i]), Preimage(b[i]));
    }
  }

  ghost predicate ConflictIn(a: seq<VoteData>, b: seq<VoteData>, i: nat, j: nat) {
    i < |a| && j < |b| && Conflict(a[i], b[j])
  }

  /** A vote that targets a block above both votes that finalized F conflicts with them if and only if it
      starts below F. */
  lemma HighVoteConflictsIff(just: VoteData, fin: VoteData, e: VoteData)
    requires just.sourceNumber < just.targetNumber == fin.sourceNumber && fin.targetNumber == just.targetNumber + 1
    requires e.sourceNumber < e.targetNumber && e.targetNumber > fin.targetNumber
    ensures Conflict(just, e) || Conflict(fin, e) <==> e.sourceNumber < just.targetNumber
  {
  }

  /** A vote that reaches over a finalized block from below conflicts with one of the two votes that
      finalized it, unless it agrees with them. */
  lemma ReachingConflicts(just: VoteData, fin: VoteData, e: VoteData)
    requires fin.sourceNumber == just.targetNumber && fin.targetNumber == just.targetNumber + 1
    requires e.sourceNumber < just.targetNumber <= e.targetNumber
    requires e.targetNumber == just.targetNumber ==> e.targetHash != just.targetHash
    requires e.targetNumber == fin.targetNumber ==> e.targetHash != fin.targetHash
    ensures Conflict(if e.targetNumber == just.targetNumber then just else fin, e)
  {
  }

  /** The first vote of a list to reach height f starts below it. */
  lemma StartsBelow(s0: Snap, hist: seq<Header>, votes: seq<VoteData>, f: nat, j: nat)
    requires VotesOn(s0, hist, votes) && j < |votes| && votes[0].sourceNumber < f
    requires j > 0 ==> votes[j - 1].targetNumber < f
    ensures votes[j].sourceNumber < f && OnWalk(s0, hist, votes[j].targetNumber, votes[j].targetHash)
  {
    assert OnChainAt(s0, hist, votes, j);
    if j > 0 {
      assert ExtendsAt(votes, j - 1);
    }
  }

  /** On a chain without F, no block is the child that finalized F. */
  lemma NoSuchChild(keccak: Hasher, s0: Snap, ha: seq<Header>, hb: seq<Header>, f: nat, fh: Hash, ch: Hash)
    requires Linked(s0, ha) && Linked(s0, hb) && Hashed(keccak, ha) && Hashed(keccak, hb) && HeadersFit(ha)
    requires OnWalk(s0, ha, f, fh) && OnWalk(s0, ha, f + 1, ch) && !OnWalk(s0, hb, f, fh)
    ensures !OnWalk(s0, hb, f + 1, ch) || HeadersCollide(keccak, ha, hb)
  {
    if OnWalk(s0, hb, f + 1, ch) {
      SameChild(keccak, s0, ha, hb, f + 1);
    }
  }

  /** The votes alone: block F justified by a[x] and finalized by a[x + 1], and some b[k] at or above its
      height on a chain without F, force two conflicting votes. */
  lemma VotesConflict(keccak: Hasher, s0: Snap, ha: seq<Header>, a: seq<VoteData>, x: nat, hb: seq<Header>, b: seq<VoteData>, k: nat)
    returns (i: nat, j: nat)
    requires VotesOn(s0, ha, a) && VotesOn(s0, hb, b) && Hashed(keccak, ha) && Hashed(keccak, hb) && HeadersFit(ha)
    requires x + 1 < |a| && a[x + 1].targetNumber == a[x].targetNumber + 1
    requires k < |b| && b[k].targetNumber >= a[x].targetNumber && b[0].sourceNumber < a[x].targetNumber
    requires !OnWalk(s0, hb, a[x].targetNumber, a[x].targetHash)
    ensures ConflictIn(a, b, i, j) || HeadersCollide(keccak, ha, hb)
  {
    var just, fin := a[x], a[x + 1];
    var f := just.targetNumber;
    assert OnChainAt(s0, ha, a, x) && OnChainAt(s0, ha, a, x + 1) && ExtendsAt(a, x);
    NoSuchChild(keccak, s0, ha, hb, f, just.targetHash, fin.targetHash);
    j := FirstReaching(b, f, k);
    StartsBelow(s0, hb, b, f, j);
    i := if b[j].targetNumber == f then x else x + 1;
    if !HeadersCollide(keccak, ha, hb) {
      ReachingConflicts(just, fin, b[j]);
    }
  }

  // ----- adopted votes are signed by the set in force -----

  ghost predicate Signed(c: Crypto, vals: seq<SealingValidator>, d: VoteData) {
    exists att: VoteAttestation :: att.data == d && VerifySignature(c, att, vals).Ok?
  }

  /** Both generations the snapshot can check against are these keys, or none at all. */
  predicate SameKeys(s: Snap, vals: seq<SealingValidator>) {
    s.voteSet == vals && (s.prevVoteSet == [] || s.prevVoteSet == vals)
  }

  lemma AdoptedOne(c: Crypto, s: Snap, h: Header, vals: seq<SealingValidator>)
    requires SameKeys(s, vals)
    ensures forall d | d in AdoptedBy(c, s, h) :: Signed(c, vals, d)
  {
    if ApplyHeader(c, s, h).Accepted? {
      AcceptFacts(c, s, h);
      var (x, adopted) := LateCheck(c, Residue(s), h, h.miner).value;
      if adopted.Some? {
        CheckedIsSigned(c, Residue(s), x.attestation, h, adopted.value, vals);
      }
    }
  }

  lemma CheckedIsSigned(c: Crypto, s: Snap, raw: Bytes, h: Header, d: VoteData, vals: seq<SealingValidator>)
    requires SameKeys(s, vals) && CheckAttestation(c, s, raw, h.number, h.time) == Ok(Some(d))
    ensures Signed(c, vals, d)
  {
    AdoptedIsSigned(c, s, raw, h.number, h.time, d);
    assert AttestationSet(s, d.targetNumber) == vals;
  }

  ghost predicate SignedAt(c: Crypto, vals: seq<SealingValidator>, votes: seq<VoteData>, i: nat)
    requires i < |votes|
  {
    Signed(c, vals, votes[i])
  }

  /** The keys are still those at the start after k headers. */
  ghost predicate StillAt(c: Crypto, s0: Snap, hs: seq<Header>, k: nat)
    requires k <= |hs|
  {
    SameKeys(Feed(c, s0, hs[..k]), s0.voteSet)
  }

  lemma StillPrefix(c: Crypto, s0: Snap, hs: seq<Header>, k: nat, n: nat)
    requires k <= n <= |hs| && StillAt(c, s0, hs, k)
    ensures StillAt(c, s0, hs[..n], k)
  {
    assert hs[..n][..k] == hs[..k];
  }

  lemma {:induction false} AdoptedSigned(c: Crypto, s0: Snap, hs: seq<Header>)
    requires forall k: nat | k <= |hs| :: StillAt(c, s0, hs, k)
    ensures forall i: nat | i < |Adopted(c, s0, hs)| :: SignedAt(c, s0.voteSet, Adopted(c, s0, hs), i)
  {
    if hs != [] {
      var n := |hs| - 1;
      var init := hs[..n];
      forall k: nat | k <= n
        ensures StillAt(c, s0, init, k)
      {
        StillPrefix(c, s0, hs, k, n);
      }
      AdoptedSigned(c, s0, init);
      assert StillAt(c, s0, hs, n);
      AdoptedOne(c, Feed(c, s0, init), hs[n], s0.voteSet);
      SignedJoin(c, s0.voteSet, Adopted(c, s0, init), AdoptedBy(c, Feed(c, s0, init), hs[n]));
    }
  }

  lemma SignedJoin(c: Crypto, vals: seq<SealingValidator>, x: seq<VoteData>, y: seq<VoteData>)
    requires forall i: nat | i < |x| :: SignedAt(c, vals, x, i)
    requires forall d | d in y :: Signed(c, vals, d)
    ensures forall i: nat | i < |x + y| :: SignedAt(c, vals, x + y, i)
  {
    forall i: nat | i < |x + y|
      ensures SignedAt(c, vals, x + y, i)
    {
      if i < |x| {
        assert SignedAt(c, vals, x, i);
      } else {
        assert (x + y)[i] in y;
      }
    }
  }

  lemma {:induction false} TakenHashed(c: Crypto, s0: Snap, hs: seq<Header>)
    ensures Hashed(c.keccak, Taken(c, s0, hs))
  {
    if hs != [] {
      var n := |hs| - 1;
      TakenHashed(c, s0, hs[..n]);
      if ApplyHeader(c, Feed(c, s0, hs[..n]), hs[n]).Accepted? {
        AcceptFacts(c, Feed(c, s0, hs[..n]), hs[n]);
        HashedJoin(c.keccak, Taken(c, s0, hs[..n]), hs[n]);
      } else {
        assert Taken(c, s0, hs) == Taken(c, s0, hs[..n]);
      }
    }
  }

  lemma HashedJoin(keccak: Hasher, x: seq<Header>, h: Header)
    requires Hashed(keccak, x) && keccak(Preimage(h)) == h.hash.bytes
    ensures Hashed(keccak, x + [h])
  {
    forall i: nat | i < |x + [h]|
      ensures HashedAt(keccak, x + [h], i)
    {
      if i < |x| { assert HashedAt(keccak, x, i); }
    }
  }

  // ----- clients -----

  /** A client's whole run under one set of keys, through any number of epochs that announce it again. */
  ghost predicate OneSet(c: Crypto, s0: Snap, hs: seq<Header>) {
    Fresh(s0) && forall k: nat | k <= |hs| :: StillAt(c, s0, hs, k)
  }

  /** Everything the votes argument needs of a client. */
  lemma ClientFacts(c: Crypto, s0: Snap, hs: seq<Header>)
    requires OneSet(c, s0, hs)
    ensures VotesOn(s0, Taken(c, s0, hs), Adopted(c, s0, hs)) && Hashed(c.keccak, Taken(c, s0, hs))
    ensures forall i: nat | i < |Adopted(c, s0, hs)| :: SignedAt(c, s0.voteSet, Adopted(c, s0, hs), i)
  {
    var r := FeedIsRun(c, s0, hs);
    assert Traces(c, s0, hs, r, |hs|) && hs[..|hs|] == hs;
    VotesAlways(r, |hs|);
    SpineAlways(r, |hs|);
    TakenHashed(c, s0, hs);
    AdoptedSigned(c, s0, hs);
  }

  /** The keys in force and the keys about to be. */
  predicate KeysKept(s: Snap, vals: seq<SealingValidator>) {
    SameKeys(s, vals) &&
    (s.pending.Some? ==> |s.pending.value.voteKeys| == |s.pending.value.validators| &&
                         Zip(s.pending.value.validators, s.pending.value.voteKeys) == vals)
  }

  /** An epoch header that announces these keys again, in any order. */
  ghost predicate Reannounces(h: Header, vals: seq<SealingValidator>) {
    IsEpoch(h.number) && h.extra.Some? ==> SortValidators(h.extra.value.validators) == vals
  }

  lemma KeysStep(s: Snap, m: Move, t: Snap, vals: seq<SealingValidator>)
    requires KeysKept(s, vals) && Chains(s, m, t) && Announces(s, m, t) && (m.Take? ==> Reannounces(m.header, vals))
    ensures KeysKept(t, vals)
  {
    if m.Take? && IsEpoch(m.header.number) {
      ZipUnzips(SortValidators(m.extra.validators));
    }
  }

  ghost predicate ReannouncesAt(r: Run, k: nat)
    requires k < |r.moves| && r.states != []
  {
    r.moves[k].Take? ==> Reannounces(r.moves[k].header, r.states[0].voteSet)
  }

  lemma {:induction false} KeysAlways(r: Run, k: nat)
    requires IsRun(r) && k <= |r.moves| && forall i: nat | i < |r.moves| :: ReannouncesAt(r, i)
    ensures KeysKept(r.states[k], r.states[0].voteSet)
  {
    if k > 0 {
      KeysAlways(r, k - 1);
      assert ChainsAt(r, k - 1) && AnnouncesAt(r, k - 1) && ReannouncesAt(r, k - 1);
      KeysStep(r.states[k - 1], r.moves[k - 1], r.states[k], r.states[0].voteSet);
    }
  }

  lemma {:induction false} MoveIsWalked(r: Run, i: nat, k: nat)
    requires i < k <= |r.moves| && r.moves[i].Take?
    ensures r.moves[i].header in Walked(r, k)
  {
    if i + 1 < k {
      MoveIsWalked(r, i, k - 1);
    }
  }

  /** A client sees one set of keys whenever every epoch header it accepted announces the checkpoint's. */
  lemma ReannouncedIsOneSet(c: Crypto, s0: Snap, hs: seq<Header>)
    requires Fresh(s0) && forall h | h in Taken(c, s0, hs) :: Reannounces(h, s0.voteSet)
    ensures OneSet(c, s0, hs)
  {
    var r := FeedIsRun(c, s0, hs);
    assert Traces(c, s0, hs, r, |hs|) && hs[..|hs|] == hs;
    forall i: nat | i < |r.moves|
      ensures ReannouncesAt(r, i)
    {
      if r.moves[i].Take? { MoveIsWalked(r, i, |r.moves|); }
    }
    forall k: nat | k <= |hs|
      ensures StillAt(c, s0, hs, k)
    {
      assert Traces(c, s0, hs, r, k);
      KeysAlways(r, k);
    }
  }

  /** Votes d and e conflict, and at least a third of the set signed both. */
  ghost predicate Accused(c: Crypto, vals: seq<SealingValidator>, d: VoteData, e: VoteData, a: VoteAttestation, b: VoteAttestation) {
    Conflict(d, e) && a.data == d && b.data == e && VerifySignature(c, a, vals).Ok? && VerifySignature(c, b, vals).Ok? &&
    var both := Voters(a, |vals|) * Voters(b, |vals|);
    both != {} && 3 * |both| >= |vals|
  }

  ghost predicate DoubleVoters(c: Crypto, vals: seq<SealingValidator>, x: seq<VoteData>, y: seq<VoteData>) {
    exists i: nat, j: nat, a: VoteAttestation, b: VoteAttestation ::
      ConflictIn(x, y, i, j) && Accused(c, vals, x[i], y[j], a, b)
  }

  lemma Accuse(c: Crypto, vals: seq<SealingValidator>, x: seq<VoteData>, y: seq<VoteData>, i: nat, j: nat)
    requires ConflictIn(x, y, i, j) && Signed(c, vals, x[i]) && Signed(c, vals, y[j])
    ensures DoubleVoters(c, vals, x, y)
  {
    var a: VoteAttestation :| a.data == x[i] && VerifySignature(c, a, vals).Ok?;
    var b: VoteAttestation :| b.data == y[j] && VerifySignature(c, b, vals).Ok?;
    QuorumIntersection(c, a, b, vals);
    assert Accused(c, vals, x[i], y[j], a, b);
  }

  /** Accountable safety. Two clients start at one checkpoint, see one set of keys, and are fed anything.
      If one finalizes block F by two consecutive justified blocks, and the other adopts a vote for a
      block at F's height or above on a chain without F, having started to justify below F, then at
      least a third of the validators signed two conflicting votes, or two header hashes collide. */
  lemma AccountableSafety(c: Crypto, s0: Snap, ours: seq<Header>, theirs: seq<Header>, f: nat, fh: Hash, k: nat)
    requires OneSet(c, s0, ours) && OneSet(c, s0, theirs) && HeadersFit(Taken(c, s0, ours))
    requires TwoInARow(Adopted(c, s0, ours), f, fh) && !OnWalk(s0, Taken(c, s0, theirs), f, fh)
    requires k < |Adopted(c, s0, theirs)| && Adopted(c, s0, theirs)[k].targetNumber >= f
    requires Adopted(c, s0, theirs)[0].sourceNumber < f
    ensures DoubleVoters(c, s0.voteSet, Adopted(c, s0, ours), Adopted(c, s0, theirs))
            || HeadersCollide(c.keccak, Taken(c, s0, ours), Taken(c, s0, theirs))
  {
    ClientFacts(c, s0, ours);
    ClientFacts(c, s0, theirs);
    SafetyOf(c, s0, Taken(c, s0, ours), Adopted(c, s0, ours), Taken(c, s0, theirs), Adopted(c, s0, theirs), f, fh, k);
  }

  lemma SafetyOf(c: Crypto, s0: Snap, ha: seq<Header>, a: seq<VoteData>, hb: seq<Header>, b: seq<VoteData>, f: nat, fh: Hash, k: nat)
    requires VotesOn(s0, ha, a) && VotesOn(s0, hb, b) && Hashed(c.keccak, ha) && Hashed(c.keccak, hb) && HeadersFit(ha)
    requires forall i: nat | i < |a| :: SignedAt(c, s0.voteSet, a, i)
    requires forall i: nat | i < |b| :: SignedAt(c, s0.voteSet, b, i)
    requires TwoInARow(a, f, fh) && !OnWalk(s0, hb, f, fh) && k < |b| && b[k].targetNumber >= f && b[0].sourceNumber < f
    ensures DoubleVoters(c, s0.voteSet, a, b) || HeadersCollide(c.keccak, ha, hb)
  {
    var x: nat :| x + 1 < |a| && a[x].targetNumber == f && a[x].targetHash == fh &&
                  a[x + 1].sourceNumber == f && a[x + 1].targetNumber == f + 1;
    var i, j := VotesConflict(c.keccak, s0, ha, a, x, hb, b, k);
    if ConflictIn(a, b, i, j) {
      assert SignedAt(c, s0.voteSet, a, i) && SignedAt(c, s0.voteSet, b, j);
      Accuse(c, s0.voteSet, a, b, i, j);
    }
  }

  /** Two finalized blocks, neither on the other's chain, accuse a third of the set likewise. */
  lemma TwoFinalizedConflict(c: Crypto, s0: Snap, ours: seq<Header>, theirs: seq<Header>, f: nat, fh: Hash, g: nat, gh: Hash)
    requires OneSet(c, s0, ours) && OneSet(c, s0, theirs) && HeadersFit(Taken(c, s0, ours)) && HeadersFit(Taken(c, s0, theirs))
    requires TwoInARow(Adopted(c, s0, ours), f, fh) && TwoInARow(Adopted(c, s0, theirs), g, gh)
    requires !OnWalk(s0, Taken(c, s0, theirs), f, fh) && !OnWalk(s0, Taken(c, s0, ours), g, gh)
    requires Adopted(c, s0, ours)[0].sourceNumber < g && Adopted(c, s0, theirs)[0].sourceNumber < f
    ensures DoubleVoters(c, s0.voteSet, Adopted(c, s0, ours), Adopted(c, s0, theirs))
            || DoubleVoters(c, s0.voteSet, Adopted(c, s0, theirs), Adopted(c, s0, ours))
            || HeadersCollide(c.keccak, Taken(c, s0, ours), Taken(c, s0, theirs))
            || HeadersCollide(c.keccak, Taken(c, s0, theirs), Taken(c, s0, ours))
  {
    if f <= g {
      var k := Reaching(Adopted(c, s0, theirs), g, gh);
      AccountableSafety(c, s0, ours, theirs, f, fh, k);
    } else {
      var k := Reaching(Adopted(c, s0, ours), f, fh);
      AccountableSafety(c, s0, theirs, ours, g, gh, k);
    }
  }

  lemma Reaching(votes: seq<VoteData>, f: nat, fh: Hash) returns (k: nat)
    requires TwoInARow(votes, f, fh)
    ensures k < |votes| && votes[k].targetNumber == f
  {
    k :| k + 1 < |votes| && votes[k].targetNumber == f && votes[k].targetHash == fh &&
         votes[k + 1].sourceNumber == f && votes[k + 1].targetNumber == f + 1;
  }
}
