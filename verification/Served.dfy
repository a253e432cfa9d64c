/** The head that reads resolve to: always a block of the local chain, and it never moves backwards. */
module Served {
  import opened Base
  import opened Vote
  import opened Headers
  import opened Snapshot
  import opened Runs
  import opened TwoChain
  import opened Finality
  import opened Sync
  import opened Node

  // ----- which block it is -----

  ghost predicate Holds(chain: seq<Block>, k: nat, head: SafeHead) {
    k < |chain| && chain[k].number == head.number && chain[k].hash == head.hash && chain[k].stateRoot == head.stateRoot
  }

  lemma {:induction false} FindIsMember(chain: seq<Block>, number: nat, hash: Hash)
    ensures match FindBlock(chain, number, hash)
            case Some(b) => b in chain && b.number == number && b.hash == hash
            case None => forall b | b in chain :: b.number != number || b.hash != hash
  {
    if chain != [] && !(chain[0].number == number && chain[0].hash == hash) {
      FindIsMember(chain[1..], number, hash);
      assert chain == [chain[0]] + chain[1..];
    }
  }

  /** Whatever the snapshot claims, the head served is a block of the local chain with that block's
      state root, at or above confirmation depth. */
  lemma HeadIsLocal(fast: bool, st: State) returns (k: nat)
    requires HeadsOf(fast, st).Ok?
    ensures var h := HeadsOf(fast, st).value; Holds(st.chain, k, h.read) && h.read.number >= h.conf.number
  {
    var conf := NewestSafe(st.chain, N_SEAL).value;
    k := Pivot(st.chain, MinDistinctSealers(N_SEAL)) - 1;
    if fast && st.snap.attestation.Some? {
      var a := st.snap.attestation.value;
      FindIsMember(st.chain, a.sourceNumber, a.sourceHash);
      var found := FindBlock(st.chain, a.sourceNumber, a.sourceHash);
      if a.sourceNumber > conf.number && found.Some? {
        k :| k < |st.chain| && st.chain[k] == found.value;
      }
    }
  }

  /** Block k is the finalized one, above confirmation depth. */
  predicate FinalizedAt(st: State, conf: SafeHead, k: nat) {
    k < |st.chain| && st.snap.attestation.Some? && st.chain[k].number == st.snap.attestation.value.sourceNumber &&
    st.chain[k].hash == st.snap.attestation.value.sourceHash && st.chain[k].number > conf.number
  }

  /** Reads resolve to confirmation depth, 15 of 21 sealers, unless fast finality is on and the chain holds the
      finalized block above it: then to that block. */
  lemma ReadIs(fast: bool, st: State)
    requires HeadsOf(fast, st).Ok?
    ensures var h := HeadsOf(fast, st).value;
            NewestSafe(st.chain, 21) == Some(h.conf) && h.conf.requiredSealers == 15 &&
            if fast && exists k: nat :: FinalizedAt(st, h.conf, k)
            then exists k: nat :: FinalizedAt(st, h.conf, k) && Holds(st.chain, k, h.read)
            else h.read == h.conf
  {
    var conf := NewestSafe(st.chain, N_SEAL).value;
    if fast && st.snap.attestation.Some? {
      var a := st.snap.attestation.value;
      var found := FindBlock(st.chain, a.sourceNumber, a.sourceHash);
      FindIsMember(st.chain, a.sourceNumber, a.sourceHash);
      if found.Some? && a.sourceNumber > conf.number {
        var k :| 0 <= k < |st.chain| && st.chain[k] == found.value;
        assert FinalizedAt(st, conf, k) && Holds(st.chain, k, HeadsOf(fast, st).value.read);
      }
      if k: nat :| FinalizedAt(st, conf, k) {
        assert st.chain[k] in st.chain;
      }
    }
  }

  // ----- confirmation depth over growth and ageing -----

  /** The later window is the earlier one, grown at its end and aged at its front. */
  lemma WindowMoves(b: Branch, from: nat, more: seq<Header>, from': nat) returns (grown: seq<Block>)
    requires from <= from' <= |b.hist| + |more| && from <= |b.hist|
    ensures |grown| == |more| && Full(Extend(b, more))[from'..] == (Full(b)[from..] + grown)[from' - from..]
  {
    grown := Full(Extend(b, more))[|b.hist| + 1..];
    assert Full(Extend(b, more)) == Full(b) + grown;
  }

  ghost predicate Consecutive(chain: seq<Block>, first: nat) {
    forall i: nat | i < |chain| :: chain[i].number == first + i
  }

  /** Confirmation depth never falls while blocks are appended and old ones age out. */
  lemma ConfirmationRises(chain: seq<Block>, grown: seq<Block>, d: nat, later: seq<Block>, first: nat)
    requires d <= |chain + grown| && later == (chain + grown)[d..]
    requires Consecutive(chain, first) && Consecutive(later, first + d)
    requires NewestSafe(chain, N_SEAL).Some? && NewestSafe(later, N_SEAL).Some?
    ensures NewestSafe(chain, N_SEAL).value.number <= NewestSafe(later, N_SEAL).value.number
  {
    var t := MinDistinctSealers(N_SEAL);
    AppendRaisesPivot(chain, grown, t);
    DropShiftsPivot(chain + grown, d, t);
  }

  // ----- finality over growth -----

  /** The finalized head is the first adopted source, or a block of the branch. */
  ghost predicate Anchored(b: Branch, first: VoteData, a: VoteData) {
    a.sourceNumber >= first.sourceNumber &&
    ((a.sourceNumber == first.sourceNumber && a.sourceHash == first.sourceHash) || OnBranch(b, a))
  }

  ghost predicate OnBranch(b: Branch, a: VoteData) {
    b.base.number <= a.sourceNumber <= b.base.number + |b.hist| &&
    BlockHash(b.base, b.hist, a.sourceNumber) == a.sourceHash
  }

  lemma {:induction false} TargetsRise(votes: seq<VoteData>, j: nat)
    requires forall i: nat | i < |votes| :: votes[i].sourceNumber < votes[i].targetNumber
    requires forall i: nat | i + 1 < |votes| :: ExtendsAt(votes, i)
    requires j < |votes|
    ensures votes[0].sourceNumber < votes[j].targetNumber
  {
    if j > 0 {
      TargetsRise(votes, j - 1);
      assert ExtendsAt(votes, j - 1);
    }
  }

  /** Where the finalized head of a run's state can be, against the first vote the run adopted. */
  lemma AnchoredAt(r: Run, k: nat, b: Branch)
    requires IsRun(r) && k <= |r.moves| && r.states[k].attestation.Some?
    requires b.base == r.states[0] && b.hist == Walked(r, k)
    ensures Voted(r, k) != [] && Anchored(b, Voted(r, k)[0], r.states[k].attestation.value)
    ensures var a, first := r.states[k].attestation.value, Voted(r, k)[0];
            !(a.sourceNumber == first.sourceNumber && a.sourceHash == first.sourceHash) ==> OnBranch(b, a) && a.sourceNumber > first.sourceNumber
  {
    var s0, hist, votes := r.states[0], Walked(r, k), Voted(r, k);
    TwoChainFinality(r, k);
    VotesAlways(r, k);
    var a := r.states[k].attestation.value;
    forall i: nat | i < |votes|
      ensures votes[i].sourceNumber < votes[i].targetNumber
    {
      assert OnChainAt(s0, hist, votes, i);
    }
    if TwoInARow(votes, a.sourceNumber, a.sourceHash) {
      var j: nat :| j + 1 < |votes| && votes[j].targetNumber == a.sourceNumber && votes[j].targetHash == a.sourceHash &&
                    votes[j + 1].sourceNumber == a.sourceNumber && votes[j + 1].targetNumber == a.sourceNumber + 1;
      TargetsRise(votes, j);
    }
  }

  lemma {:induction false} VotedGrows(r: Run, j: nat, k: nat)
    requires j <= k <= |r.moves|
    ensures Voted(r, j) <= Voted(r, k)
  {
    if j < k { VotedGrows(r, j, k - 1); }
  }

  /** If the earlier finalized head was on the branch, the later one is on the longer branch and not
      below it. */
  lemma FinalizedStays(r: Run, j: nat, k: nat, b: Branch, longer: Branch)
    requires IsRun(r) && j <= k <= |r.moves| && r.states[j].attestation.Some?
    requires b.base == r.states[0] && b.hist == Walked(r, j) && longer.base == b.base && longer.hist == Walked(r, k)
    requires b.hist <= longer.hist && OnBranch(b, r.states[j].attestation.value)
    ensures r.states[k].attestation.Some?
    ensures var a, z := r.states[j].attestation.value, r.states[k].attestation.value;
            OnBranch(longer, z) && a.sourceNumber <= z.sourceNumber
  {
    VotesAlways(r, j);
    VotesAlways(r, k);
    VotedGrows(r, j, k);
    AnchoredAt(r, j, b);
    AnchoredAt(r, k, longer);
    FinalizedMonotone(r, j, k);
    var a, z, first := r.states[j].attestation.value, r.states[k].attestation.value, Voted(r, j)[0];
    assert Voted(r, k)[0] == first;
    if z.sourceNumber == first.sourceNumber && z.sourceHash == first.sourceHash {
      assert a.sourceNumber == z.sourceNumber && a.sourceHash == z.sourceHash;
    }
  }

  // ----- the main result -----

  lemma RunOf(c: Crypto, b: Branch, more: seq<Header>) returns (r: Run)
    requires WellBooted(b) && AllAccepted(c, b.base, b.hist) && AllAccepted(c, b.base, b.hist + more)
    ensures IsRun(r) && |r.moves| == |b.hist| + |more| && r.states[0] == b.base
    ensures r.states[|b.hist|] == Feed(c, b.base, b.hist) && Walked(r, |b.hist|) == b.hist
    ensures r.states[|r.moves|] == Feed(c, b.base, b.hist + more) && Walked(r, |r.moves|) == b.hist + more
  {
    var all := b.hist + more;
    r := FeedIsRun(c, b.base, all);
    assert Traces(c, b.base, all, r, |b.hist|) && Traces(c, b.base, all, r, |all|);
    assert all[..|b.hist|] == b.hist && all[..|all|] == all;
  }

  lemma FinalityKept(c: Crypto, b: Branch, more: seq<Header>, s: Snap, t: Snap)
    requires WellBooted(b) && Tracks(c, b, s) && Tracks(c, Extend(b, more), t)
    requires s.attestation.Some? && OnBranch(b, s.attestation.value)
    ensures t.attestation.Some? && OnBranch(Extend(b, more), t.attestation.value)
    ensures s.attestation.value.sourceNumber <= t.attestation.value.sourceNumber
  {
    var r := RunOf(c, b, more);
    ResidueKeepsHead(s, r.states[|b.hist|]);
    ResidueKeepsHead(t, r.states[|r.moves|]);
    FinalizedStays(r, |b.hist|, |r.moves|, b, Extend(b, more));
  }

  ghost predicate HashAt(b: Branch, from: nat, chain: seq<Block>, i: nat)
    requires i < |chain| && from + |chain| == |b.hist| + 1
  {
    chain[i].hash == BlockHash(b.base, b.hist, b.base.number + from + i)
  }

  lemma WindowOf(b: Branch, f: Snap, from: nat, chain: seq<Block>)
    requires WellBooted(b) && Spine(b.base, b.hist, f) && from <= |b.hist| && chain == Full(b)[from..]
    ensures Consecutive(chain, b.base.number + from) && from + |chain| == |b.hist| + 1
    ensures forall i: nat | i < |chain| :: HashAt(b, from, chain, i)
  {
    forall i: nat | i < |chain|
      ensures chain[i].number == b.base.number + from + i && HashAt(b, from, chain, i)
    {
      FullAt(b, f, from + i);
    }
  }

  lemma WindowHashes(c: Crypto, b: Branch, from: nat, chain: seq<Block>, s: Snap)
    requires Follows(c, b, from, chain, s)
    ensures Consecutive(chain, b.base.number + from) && from + |chain| == |b.hist| + 1
    ensures forall i: nat | i < |chain| :: HashAt(b, from, chain, i)
  {
    var f := SpineHead(c, b, s);
    WindowOf(b, f, from, chain);
  }

  /** In the window, finding the finalized block is its being on the branch. */
  lemma FoundIff(b: Branch, from: nat, chain: seq<Block>, a: VoteData)
    requires from + |chain| == |b.hist| + 1 && chain != [] && Consecutive(chain, b.base.number + from)
    requires forall i: nat | i < |chain| :: HashAt(b, from, chain, i)
    requires a.sourceNumber >= b.base.number + from
    ensures FindBlock(chain, a.sourceNumber, a.sourceHash).Some? <==> OnBranch(b, a)
  {
    FindIsMember(chain, a.sourceNumber, a.sourceHash);
    var k := a.sourceNumber - b.base.number - from;
    if k < |chain| {
      assert HashAt(b, from, chain, k);
      assert chain[k].number == a.sourceNumber && chain[k] in chain;
    }
  }

  lemma SafeAboveFloor(chain: seq<Block>, first: nat)
    requires Consecutive(chain, first) && NewestSafe(chain, N_SEAL).Some?
    ensures NewestSafe(chain, N_SEAL).value.number >= first && chain != [] && FirstNumber(chain) == first
  {
    assert chain[0].number == first;
  }

  lemma ConsecutiveOf(c: Crypto, b: Branch, from: nat, chain: seq<Block>, s: Snap)
    requires Follows(c, b, from, chain, s)
    ensures Consecutive(chain, b.base.number + from) && from <= |b.hist| && chain == Full(b)[from..]
  {
    FollowsShape(c, b, from, chain, s);
  }

  lemma ConfNeverFalls(c: Crypto, b: Branch, from: nat, st: State, more: seq<Header>, from': nat, later: State)
    requires Follows(c, b, from, st.chain, st.snap) && Follows(c, Extend(b, more), from', later.chain, later.snap) && from <= from'
    requires NewestSafe(st.chain, N_SEAL).Some? && NewestSafe(later.chain, N_SEAL).Some?
    ensures NewestSafe(st.chain, N_SEAL).value.number <= NewestSafe(later.chain, N_SEAL).value.number
  {
    ConsecutiveOf(c, b, from, st.chain, st.snap);
    ConsecutiveOf(c, Extend(b, more), from', later.chain, later.snap);
    var grown := WindowMoves(b, from, more, from');
    ConfirmationRises(st.chain, grown, from' - from, later.chain, b.base.number + from);
  }

  /** A finalized block once on the branch keeps the fast head at or above it. */
  lemma FastHeadStays(c: Crypto, b: Branch, from: nat, st: State, more: seq<Header>, from': nat, later: State)
    requires Follows(c, b, from, st.chain, st.snap) && Follows(c, Extend(b, more), from', later.chain, later.snap)
    requires st.snap.attestation.Some? && OnBranch(b, st.snap.attestation.value)
    requires NewestSafe(later.chain, N_SEAL).Some?
    ensures st.snap.attestation.value.sourceNumber <= FastHead(later.chain, later.snap, NewestSafe(later.chain, N_SEAL).value).number
  {
    var longer := Extend(b, more);
    FinalityKept(c, b, more, st.snap, later.snap);
    WindowHashes(c, longer, from', later.chain, later.snap);
    SafeAboveFloor(later.chain, b.base.number + from');
    var z := later.snap.attestation.value;
    if z.sourceNumber > NewestSafe(later.chain, N_SEAL).value.number {
      FoundIff(longer, from', later.chain, z);
      FindIsMember(later.chain, z.sourceNumber, z.sourceHash);
    }
  }

  /** A fast head above confirmation depth is the finalized block, on the branch. */
  lemma FastHeadOnBranch(c: Crypto, b: Branch, from: nat, st: State)
    requires Follows(c, b, from, st.chain, st.snap) && NewestSafe(st.chain, N_SEAL).Some?
    ensures var conf := NewestSafe(st.chain, N_SEAL).value;
            var head := FastHead(st.chain, st.snap, conf);
            head == conf || (st.snap.attestation.Some? && OnBranch(b, st.snap.attestation.value)
                             && head.number == st.snap.attestation.value.sourceNumber)
  {
    var conf := NewestSafe(st.chain, N_SEAL).value;
    WindowHashes(c, b, from, st.chain, st.snap);
    SafeAboveFloor(st.chain, b.base.number + from);
    if st.snap.attestation.Some? && st.snap.attestation.value.sourceNumber > conf.number {
      var a := st.snap.attestation.value;
      FoundIff(b, from, st.chain, a);
      FindIsMember(st.chain, a.sourceNumber, a.sourceHash);
    }
  }

  /** In numbers: the fast head is the finalized block exactly when that is on the branch and newer than
      confirmation depth. */
  lemma ReadNumber(c: Crypto, fast: bool, b: Branch, from: nat, st: State)
    requires Follows(c, b, from, st.chain, st.snap) && HeadsOf(fast, st).Ok?
    ensures var h, a := HeadsOf(fast, st).value, st.snap.attestation;
            h.read.number == if fast && a.Some? && OnBranch(b, a.value) && a.value.sourceNumber > h.conf.number
                             then a.value.sourceNumber else h.conf.number
  {
    var conf, a := NewestSafe(st.chain, N_SEAL).value, st.snap.attestation;
    WindowHashes(c, b, from, st.chain, st.snap);
    SafeAboveFloor(st.chain, b.base.number + from);
    if a.Some? && a.value.sourceNumber > conf.number {
      FoundIff(b, from, st.chain, a.value);
      FindIsMember(st.chain, a.value.sourceNumber, a.value.sourceHash);
    }
  }

  /** The served head never moves backwards while the branch only grows, whatever happens in between
      and however many old blocks age out of the window. */
  lemma HeadNeverFalls(c: Crypto, fast: bool, b: Branch, from: nat, st: State, more: seq<Header>, from': nat, later: State)
    requires Follows(c, b, from, st.chain, st.snap) && Follows(c, Extend(b, more), from', later.chain, later.snap) && from <= from'
    requires HeadsOf(fast, st).Ok? && HeadsOf(fast, later).Ok?
    ensures HeadsOf(fast, st).value.read.number <= HeadsOf(fast, later).value.read.number
  {
    ConfNeverFalls(c, b, from, st, more, from', later);
    var k := HeadIsLocal(fast, later);
    if fast {
      FastHeadOnBranch(c, b, from, st);
      if FastHead(st.chain, st.snap, NewestSafe(st.chain, N_SEAL).value) != NewestSafe(st.chain, N_SEAL).value {
        FastHeadStays(c, b, from, st, more, from', later);
      }
    }
  }

  // ----- over sequences of refreshes -----

  /** A refresh that did not have to recover: the append itself did not break the link. */
  predicate NoRecovery(c: Crypto, st: State, call: Call) {
    var a := Append(c, st.chain, st.snap, call.tip, call.up.append);
    a.error.Some? ==> !IsLinkErr(a.error.value)
  }

  ghost predicate Quiet(c: Crypto, cfg: Config, st: State, calls: seq<Call>) {
    forall i: nat | i < |calls| :: QuietAt(c, cfg, st, calls, i)
  }

  ghost predicate QuietAt(c: Crypto, cfg: Config, st: State, calls: seq<Call>, i: nat)
    requires i < |calls|
  {
    NoRecovery(c, Calls(c, cfg, st, calls[..i]), calls[i])
  }

  /** Without recovery a resync only grows the branch, and only ages the window. */
  lemma QuietStep(c: Crypto, cfg: Config, st: State, b: Branch, from: nat, call: Call) returns (more: seq<Header>, from': nat)
    requires Follows(c, b, from, st.chain, st.snap) && NoRecovery(c, st, call)
    ensures var r := Resync(c, cfg, st, call.tip, call.up).state;
            from <= from' && Follows(c, Extend(b, more), from', r.chain, r.snap)
  {
    if call.tip > SatAdd(LastNumber(st.chain), cfg.maxSync) {
      more, from' := [], from;
      ExtendNone(b);
    } else {
      more, from' := AppendFollows(c, b, from, st.chain, st.snap, call.tip, call.up.append);
    }
  }

  lemma {:induction false} QuietRun(c: Crypto, cfg: Config, st: State, b: Branch, from: nat, calls: seq<Call>)
    returns (more: seq<Header>, from': nat)
    requires Follows(c, b, from, st.chain, st.snap) && Quiet(c, cfg, st, calls)
    ensures var r := Calls(c, cfg, st, calls); from <= from' && Follows(c, Extend(b, more), from', r.chain, r.snap)
  {
    if calls == [] {
      more, from' := [], from;
      ExtendNone(b);
    } else {
      var n := |calls| - 1;
      QuietPrefix(c, cfg, st, calls);
      var early, mid := QuietRun(c, cfg, st, b, from, calls[..n]);
      var tail, later := QuietStep(c, cfg, Calls(c, cfg, st, calls[..n]), Extend(b, early), mid, calls[n]);
      more, from' := early + tail, later;
      ExtendTwice(b, early, tail);
    }
  }

  lemma QuietPrefix(c: Crypto, cfg: Config, st: State, calls: seq<Call>)
    requires calls != [] && Quiet(c, cfg, st, calls)
    ensures var n := |calls| - 1; Quiet(c, cfg, st, calls[..n]) && NoRecovery(c, Calls(c, cfg, st, calls[..n]), calls[n])
  {
    var n := |calls| - 1;
    assert QuietAt(c, cfg, st, calls, n);
    forall i: nat | i < n
      ensures QuietAt(c, cfg, st, calls[..n], i)
    {
      assert QuietAt(c, cfg, st, calls, i);
      assert calls[..n][..i] == calls[..i];
    }
  }

  /** Across any run of refreshes without reorg recovery, failed ones included, a later served head is
      never below an earlier one. */
  lemma ServedHeadMonotone(c: Crypto, cfg: Config, st: State, b: Branch, from: nat, calls: seq<Call>)
    requires Follows(c, b, from, st.chain, st.snap) && Quiet(c, cfg, st, calls)
    requires HeadsOf(cfg.fast, st).Ok? && HeadsOf(cfg.fast, Calls(c, cfg, st, calls)).Ok?
    ensures HeadsOf(cfg.fast, st).value.read.number <= HeadsOf(cfg.fast, Calls(c, cfg, st, calls)).value.read.number
  {
    var more, from' := QuietRun(c, cfg, st, b, from, calls);
    HeadNeverFalls(c, cfg.fast, b, from, st, more, from', Calls(c, cfg, st, calls));
  }
}
