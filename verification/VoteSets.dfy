/** One generation of vote keys: when the two sets the snapshot keeps answer as the full history. */
module VoteSets {
  import opened Base
  import opened Vote
  import opened Headers
  import opened Snapshot
  import opened Runs
  import opened Epochs

  ghost predicate ConstantBelow(base: nat, eras: Eras) {
    forall e: int :: e <= base ==> eras(e) == eras(base)
  }

  /** Activation of the set before the one in force: the last height at which two generations back
      was still current. Nothing happened when that epoch block lies below the checkpoint. */
  function SecondActivation(base: nat, eras: Eras, n: nat): int {
    var e := GoverningEpoch(base, eras, n) - EPOCH_LENGTH;
    if e > base then Activation(eras, e) else 0
  }

  /** Delays shorter than an epoch place every activation between its epoch block and the next. */
  lemma ActivationRange(eras: Eras, e: int, bound: nat)
    requires ShortDelays(eras, bound)
    ensures e <= Activation(eras, e) <= e + bound
  {
    assert EraDelay(eras(e - EPOCH_LENGTH)) <= bound;
  }

  lemma GoverningLater(base: nat, eras: Eras, m: nat, n: nat)
    requires ShortDelays(eras, EPOCH_LENGTH - 1) && base <= m <= n && ConstantBelow(base, eras)
    requires m >= Activation(eras, GoverningEpoch(base, eras, n)) || GoverningEpoch(base, eras, n) <= base
    ensures Governing(base, eras, m) == Governing(base, eras, n)
  {
    var e := GoverningEpoch(base, eras, n);
    ActivationRange(eras, e, EPOCH_LENGTH - 1);
    ActivationRange(eras, NewestEpoch(m), EPOCH_LENGTH - 1);
    ActivationRange(eras, NewestEpoch(n), EPOCH_LENGTH - 1);
  }

  /** Just before an activation the set in force is that of the previous epoch, unless the height is
      also before that epoch's own activation. */
  lemma GoverningBefore(base: nat, eras: Eras, m: nat, n: nat)
    requires ShortDelays(eras, EPOCH_LENGTH - 1) && base <= m <= n <= m + 3 && ConstantBelow(base, eras)
    requires GoverningEpoch(base, eras, n) > base && m < Activation(eras, GoverningEpoch(base, eras, n))
    ensures var e := GoverningEpoch(base, eras, n);
            Governing(base, eras, m) ==
            if m < SecondActivation(base, eras, n) then eras(e - 2 * EPOCH_LENGTH) else eras(e - EPOCH_LENGTH)
  {
    var e := GoverningEpoch(base, eras, n);
    ActivationRange(eras, e, EPOCH_LENGTH - 1);
    ActivationRange(eras, e - EPOCH_LENGTH, EPOCH_LENGTH - 1);
    assert NewestEpoch(m) == e || NewestEpoch(m) == e - EPOCH_LENGTH;
  }

  /** The exact reach of one generation: for a target in the window the answer is the set held after
      block target-1 if and only if that block is not older than the second newest activation, or
      the two oldest sets coincide. */
  lemma OneGenerationExact(base: nat, eras: Eras, s: Snap, target: nat)
    requires EpochState(base, eras, s.number, s) && ShortDelays(eras, EPOCH_LENGTH - 1) && ConstantBelow(base, eras)
    requires base + 1 <= target && s.number - 2 <= target <= s.number
    ensures var e := GoverningEpoch(base, eras, s.number);
            AttestationSet(s, target) == Governing(base, eras, target - 1).voteSet
            <==> SecondActivation(base, eras, s.number) <= target - 1
                 || eras(e - EPOCH_LENGTH).voteSet == eras(e - 2 * EPOCH_LENGTH).voteSet
  {
    var n, m := s.number, target - 1;
    var e := GoverningEpoch(base, eras, n);
    ActivationRange(eras, e, EPOCH_LENGTH - 1);
    ActivationRange(eras, e - EPOCH_LENGTH, EPOCH_LENGTH - 1);
    if e > base && m < Activation(eras, e) {
      GoverningBefore(base, eras, m, n);
    } else {
      GoverningLater(base, eras, m, n);
    }
  }

  /** With every delay at most 997 the second newest activation is always outside the window. */
  lemma WindowReach(base: nat, eras: Eras, s: Snap, target: nat)
    requires EpochState(base, eras, s.number, s) && ShortDelays(eras, 997) && ConstantBelow(base, eras)
    requires base + 1 <= target && s.number - 2 <= target <= s.number
    ensures AttestationSet(s, target) == Governing(base, eras, target - 1).voteSet
  {
    var e := GoverningEpoch(base, eras, s.number);
    ActivationRange(eras, e, 997);
    ActivationRange(eras, e - EPOCH_LENGTH, 997);
    OneGenerationExact(base, eras, s, target);
  }

  // ----- over every run -----

  lemma TableBelow(s0: Snap, hist: seq<Header>)
    ensures ConstantBelow(s0.number, ErasOf(s0, hist))
  {
  }

  lemma RunNumber(r: Run, k: nat)
    requires IsRun(r) && k <= |r.moves|
    ensures r.states[k].number == r.states[0].number + |Walked(r, k)|
  {
    SpineAlways(r, k);
  }

  lemma RunVoteSet(r: Run, k: nat)
    requires IsRun(r) && k <= |r.moves| && ShortDelays(ErasOf(r.states[0], Walked(r, k)), EPOCH_LENGTH - 1)
    ensures r.states[k].voteSet ==
            Governing(r.states[0].number, ErasOf(r.states[0], Walked(r, k)), r.states[k].number).voteSet
  {
    EpochsAlways(r, k);
  }

  /** The set in force at any earlier moment of a run, read off the chain walked since. */
  lemma HeldVoteSet(r: Run, j: nat, k: nat)
    requires IsRun(r) && j <= k <= |r.moves| && ShortDelays(ErasOf(r.states[0], Walked(r, k)), EPOCH_LENGTH - 1)
    ensures r.states[j].voteSet ==
            Governing(r.states[0].number, ErasOf(r.states[0], Walked(r, k)), r.states[j].number).voteSet
  {
    EarlierTable(r, j, k);
    RunVoteSet(r, j);
    GoverningAgrees(r.states[0].number, ErasOf(r.states[0], Walked(r, j)), ErasOf(r.states[0], Walked(r, k)), r.states[j].number);
  }

  lemma GoverningAgrees(base: nat, a: Eras, b: Eras, n: nat)
    requires Agree(a, b, n)
    ensures Governing(base, a, n) == Governing(base, b, n)
  {
    var e := NewestEpoch(n);
    assert a(e) == b(e) && a(e - EPOCH_LENGTH) == b(e - EPOCH_LENGTH);
  }

  /** The table at an earlier moment is the start of the later one. */
  lemma EarlierTable(r: Run, j: nat, k: nat)
    requires IsRun(r) && j <= k <= |r.moves| && ShortDelays(ErasOf(r.states[0], Walked(r, k)), EPOCH_LENGTH - 1)
    ensures ShortDelays(ErasOf(r.states[0], Walked(r, j)), EPOCH_LENGTH - 1)
    ensures Agree(ErasOf(r.states[0], Walked(r, j)), ErasOf(r.states[0], Walked(r, k)), r.states[j].number)
  {
    var part, hist := Walked(r, j), Walked(r, k);
    WalkedPrefix(r, j, k);
    assert hist == part + hist[|part|..];
    ShortDelaysPrefix(r.states[0], part, hist[|part|..], EPOCH_LENGTH - 1);
    RunNumber(r, j);
  }

  /** One generation of vote keys is enough: in every run, for every target of the window whose
      predecessor was walked, the set the attestation is checked against is the vote set the
      client held right after block target-1. */
  lemma OneGenerationEnough(r: Run, j: nat, k: nat, target: nat)
    requires IsRun(r) && j <= k <= |r.moves| && ShortDelays(ErasOf(r.states[0], Walked(r, k)), 997)
    requires r.states[j].number == target - 1 && r.states[k].number - 2 <= target <= r.states[k].number
    ensures AttestationSet(r.states[k], target) == r.states[j].voteSet
  {
    EpochsAlways(r, k);
    RunNumber(r, j);
    TableBelow(r.states[0], Walked(r, k));
    WindowReach(r.states[0].number, ErasOf(r.states[0], Walked(r, k)), r.states[k], target);
    HeldVoteSet(r, j, k);
  }

  // ----- delays of a whole epoch or more -----

  /** A pending switch was announced at the newest epoch block, under the set still in force. */
  predicate PendingTimed(s: Snap) {
    s.pending.Some? ==> s.pending.value.activateAt == NewestEpoch(s.number) + Delay(s)
  }

  lemma PendingStep(s: Snap, m: Move, t: Snap)
    requires PendingTimed(s) && Chains(s, m, t) && Announces(s, m, t)
    ensures PendingTimed(t)
  {
  }

  lemma {:induction false} PendingAlways(r: Run, k: nat)
    requires IsRun(r) && k <= |r.moves|
    ensures PendingTimed(r.states[k])
  {
    if k > 0 {
      PendingAlways(r, k - 1);
      assert ChainsAt(r, k - 1) && AnnouncesAt(r, k - 1);
      PendingStep(r.states[k - 1], r.moves[k - 1], r.states[k]);
    }
  }

  lemma FrozenStep(s0: Snap, s: Snap, m: Move, t: Snap)
    requires SameEpochs(s0, s) && PendingTimed(s) && Delay(s0) >= EPOCH_LENGTH && Chains(s, m, t) && Announces(s, m, t)
    ensures SameEpochs(s0, t)
  {
  }

  lemma {:induction false} FrozenFrom(r: Run, j: nat, k: nat)
    requires IsRun(r) && j <= k <= |r.moves| && Delay(r.states[j]) >= EPOCH_LENGTH
    ensures SameEpochs(r.states[j], r.states[k])
  {
    if j < k {
      FrozenFrom(r, j, k - 1);
      PendingAlways(r, k - 1);
      assert ChainsAt(r, k - 1) && AnnouncesAt(r, k - 1);
      FrozenStep(r.states[j], r.states[k - 1], r.moves[k - 1], r.states[k]);
    }
  }

  /** Once minerHistoryCheckLen of the set in force reaches a whole epoch, at any point of any run, each
      epoch header overwrites the pending switch before it is due, and the validator set never
      changes again. */
  lemma LongDelayFreezesTheSet(c: Crypto, s0: Snap, hs: seq<Header>, more: seq<Header>)
    requires Fresh(s0) && Delay(Feed(c, s0, hs)) >= EPOCH_LENGTH
    ensures SameEpochs(Feed(c, s0, hs), Feed(c, s0, hs + more))
  {
    var all := hs + more;
    var r := FeedIsRun(c, s0, all);
    assert Traces(c, s0, all, r, |hs|) && all[..|hs|] == hs;
    assert Traces(c, s0, all, r, |all|) && all[..|all|] == all;
    FrozenFrom(r, |hs|, |all|);
  }

  // ----- the bootstrap answer -----

  lemma SeedValue(n: nat, newer: Header, older: Header)
    requires LayoutOk(newer) && LayoutOk(older) && IsEpoch(newer.number) && newer.number == older.number + EPOCH_LENGTH
    requires newer.number <= n < newer.number + EPOCH_LENGTH && n < MAX_NUMBER && EraDelay(HeaderEra(older)) < EPOCH_LENGTH
    ensures IsEpoch(older.number)
    ensures EpochSeedAt(n, newer, older) ==
            var at := newer.number + EraDelay(HeaderEra(older));
            if n >= at then Active(newer.number, HeaderEra(newer).turnLength) else PendingActivation(newer.number, at)
  {
  }

  /** For a snapshot that walked both newest epoch headers, reading them back at bootstrap reports
      the turn length it runs with, or the activation height it waits for. */
  lemma SeedMatchesWalk(r: Run, k: nat)
    requires IsRun(r) && k <= |r.moves| && ShortDelays(ErasOf(r.states[0], Walked(r, k)), EPOCH_LENGTH - 1)
    requires r.states[k].number < MAX_NUMBER && NewestEpoch(r.states[k].number) > r.states[0].number + EPOCH_LENGTH
    ensures var s0, s, hist := r.states[0], r.states[k], Walked(r, k);
            var i := NewestEpoch(s.number) - s0.number - 1;
            i < |hist| &&
            EpochSeedAt(s.number, hist[i], hist[i - EPOCH_LENGTH]) ==
            if s.pending.None? then Active(NewestEpoch(s.number), s.turnLength)
            else PendingActivation(NewestEpoch(s.number), s.pending.value.activateAt)
  {
    RunNumber(r, k);
    RunPending(r, k);
    SeedOfState(r.states[0], Walked(r, k), r.states[k]);
  }

  /** Pending with its height, or active with its turn length. */
  ghost predicate PendingOrActive(eras: Eras, n: nat, s: Snap) {
    var at := Activation(eras, NewestEpoch(n));
    if n >= at then s.pending.None? && s.turnLength == eras(NewestEpoch(n)).turnLength
    else s.pending.Some? && s.pending.value.activateAt == at
  }

  lemma RunPending(r: Run, k: nat)
    requires IsRun(r) && k <= |r.moves| && ShortDelays(ErasOf(r.states[0], Walked(r, k)), EPOCH_LENGTH - 1)
    requires NewestEpoch(r.states[k].number) > r.states[0].number
    ensures PendingOrActive(ErasOf(r.states[0], Walked(r, k)), r.states[k].number, r.states[k])
    ensures Layouts(r.states[0], Walked(r, k))
  {
    EpochsAlways(r, k);
  }

  lemma EraWalked(s0: Snap, hist: seq<Header>, e: int)
    requires Layouts(s0, hist) && s0.number < e <= s0.number + |hist| && IsEpoch(e)
    ensures LayoutOk(hist[e - s0.number - 1]) && hist[e - s0.number - 1].number == e
    ensures ErasOf(s0, hist)(e) == HeaderEra(hist[e - s0.number - 1])
  {
    EraKeyed(s0, hist, e);
  }

  lemma SeedOfState(s0: Snap, hist: seq<Header>, s: Snap)
    requires PendingOrActive(ErasOf(s0, hist), s.number, s) && Layouts(s0, hist)
    requires ShortDelays(ErasOf(s0, hist), EPOCH_LENGTH - 1) && s.number == s0.number + |hist| < MAX_NUMBER
    requires NewestEpoch(s.number) > s0.number + EPOCH_LENGTH
    ensures var i := NewestEpoch(s.number) - s0.number - 1;
            EpochSeedAt(s.number, hist[i], hist[i - EPOCH_LENGTH]) ==
            if s.pending.None? then Active(NewestEpoch(s.number), s.turnLength)
            else PendingActivation(NewestEpoch(s.number), s.pending.value.activateAt)
  {
    var e, eras := NewestEpoch(s.number), ErasOf(s0, hist);
    EraWalked(s0, hist, e);
    EraWalked(s0, hist, e - EPOCH_LENGTH);
    assert EraDelay(eras(e - EPOCH_LENGTH)) <= EPOCH_LENGTH - 1;
    SeedValue(s.number, hist[e - s0.number - 1], hist[e - EPOCH_LENGTH - s0.number - 1]);
  }

  /** The two headers are the newest epoch headers at or below the checkpoint, one epoch apart. */
  predicate NewestTwo(checkpoint: nat, epoch: Header, prev: Header) {
    epoch.number % 1000 == 0 && epoch.number <= checkpoint < epoch.number + 1000 && epoch.number == prev.number + 1000 &&
    epoch.extra.Some? && epoch.extra.value.validators != [] && prev.extra.Some? && prev.extra.value.validators != []
  }

  function ByteOr8(turn: Option<Byte>): nat {
    if turn.Some? then turn.value else 8
  }

  /** The bootstrap answer is given exactly for the two newest epoch headers: active with the newer one's turn
      length once (n/2+1)*turnLength-1 blocks of the older set have passed, else the height it waits for. */
  lemma SeedIff(checkpoint: nat, epoch: Header, prev: Header)
    requires epoch.number + WaitOf(prev) < U64
    ensures EpochSeedAt(checkpoint, epoch, prev) ==
            if !NewestTwo(checkpoint, epoch, prev) then SeedError
            else if checkpoint >= epoch.number + WaitOf(prev) then Active(epoch.number, ByteOr8(epoch.extra.value.turnLength))
            else PendingActivation(epoch.number, epoch.number + WaitOf(prev))
  {
    if prev.extra.Some? {
      TimesIsProduct(|prev.extra.value.validators| / 2 + 1, ByteOr8(prev.extra.value.turnLength));
    }
  }

  /** Blocks the set of an epoch header holds back the next one: (n/2+1)*turnLength-1. */
  function WaitOf(prev: Header): nat {
    if prev.extra.None? || prev.extra.value.validators == [] || ByteOr8(prev.extra.value.turnLength) == 0 then 0
    else (|prev.extra.value.validators| / 2 + 1) * ByteOr8(prev.extra.value.turnLength) - 1
  }

  /** A turn length is installed before the first header alone, and a zero is ignored. */
  lemma SeedInstalls(s: Snap, turn: nat)
    ensures s.number >= s.walkStart <==> SeedTurnLength(s, turn).None?
    ensures s.number < s.walkStart ==>
              SeedTurnLength(s, turn).value.turnLength == (if turn > 0 then turn else s.turnLength) &&
              SeedTurnLength(s, turn).value == s.(turnLength := SeedTurnLength(s, turn).value.turnLength)
  {
  }
}
