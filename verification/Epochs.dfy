/** Which validator set governs at each height, in closed form over the walked headers, and the
    proof that the snapshot's small epoch state always holds it. */
module Epochs {
  import opened Base
  import opened Vote
  import opened Headers
  import opened Snapshot
  import opened Runs

  /** A validator set with its keys and turn length. */
  datatype Era = Era(addresses: seq<Address>, voteSet: seq<SealingValidator>, turnLength: nat)

  function BaseEra(s0: Snap): Era {
    Era(s0.validators, s0.voteSet, s0.turnLength)
  }

  function HeaderEra(h: Header): Era
    requires h.extra.Some? && h.extra.value.turnLength.Some?
  {
    var vals := SortValidators(h.extra.value.validators);
    Era(AddressesOf(vals), vals, h.extra.value.turnLength.value)
  }

  /** The set announced at epoch block e, or the checkpoint's when e was not walked. */
  function EraOf(s0: Snap, hist: seq<Header>, e: int): Era {
    var i := e - s0.number - 1;
    if 0 <= i < |hist| && hist[i].extra.Some? && hist[i].extra.value.turnLength.Some?
    then HeaderEra(hist[i]) else BaseEra(s0)
  }

  /** Era announced at each block; the timing rules below hold for any such table. */
  type Eras = int -> Era

  function ErasOf(s0: Snap, hist: seq<Header>): Eras {
    e => EraOf(s0, hist, e)
  }

  function EraDelay(era: Era): nat {
    MinerHistoryCheckLen(|era.addresses|, era.turnLength)
  }

  function NewestEpoch(n: nat): nat {
    n - n % EPOCH_LENGTH
  }

  /** Height at which epoch block e's set takes over, fixed by the set before it. */
  function Activation(eras: Eras, e: int): int {
    e + EraDelay(eras(e - EPOCH_LENGTH))
  }

  /** The newest epoch block at or below n was walked and its set is in force. */
  predicate IsActive(base: nat, eras: Eras, n: nat) {
    NewestEpoch(n) > base && Activation(eras, NewestEpoch(n)) <= n
  }

  /** The newest epoch block whose set is in force at height n (it may lie below the checkpoint). */
  function GoverningEpoch(base: nat, eras: Eras, n: nat): int {
    if IsActive(base, eras, n) then NewestEpoch(n) else NewestEpoch(n) - EPOCH_LENGTH
  }

  function Governing(base: nat, eras: Eras, n: nat): Era {
    eras(GoverningEpoch(base, eras, n))
  }

  /** Every set's activation delay is at most `bound`. */
  ghost predicate ShortDelays(eras: Eras, bound: nat) {
    forall e: int :: EraDelay(eras(e)) <= bound
  }

  function PendingOf(eras: Eras, e: nat): Pending {
    Pending(e, e + EraDelay(eras(e - EPOCH_LENGTH)), eras(e).addresses, KeysOf(eras(e).voteSet), eras(e).turnLength)
  }

  /** The snapshot's epoch fields at height n, field by field. */
  ghost predicate EpochState(base: nat, eras: Eras, n: nat, s: Snap) {
    var e := GoverningEpoch(base, eras, n);
    s.validators == eras(e).addresses && s.voteSet == eras(e).voteSet && s.turnLength == eras(e).turnLength &&
    s.pending == (if NewestEpoch(n) > base && !IsActive(base, eras, n) then Some(PendingOf(eras, NewestEpoch(n))) else None) &&
    s.setChangedAt == (if e > base then Activation(eras, e) else 0) &&
    (e > base ==> s.prevVoteSet == eras(e - EPOCH_LENGTH).voteSet)
  }

  ghost predicate Agree(a: Eras, b: Eras, n: nat) {
    forall e: int :: e <= n ==> a(e) == b(e)
  }

  ghost predicate Keyed(era: Era) {
    |era.addresses| == |era.voteSet| && Zip(era.addresses, KeysOf(era.voteSet)) == era.voteSet
  }

  lemma PlainStep(base: nat, eras: Eras, longer: Eras, n: nat, s: Snap, t: Snap)
    requires EpochState(base, eras, n, s) && base <= n && !IsEpoch(n + 1) && Agree(eras, longer, n)
    requires NewestEpoch(n) > base ==> Keyed(eras(NewestEpoch(n)))
    requires Switched(s, n + 1, s.pending, t)
    ensures EpochState(base, longer, n + 1, t)
  {
    var e := NewestEpoch(n);
    assert NewestEpoch(n + 1) == e;
    assert eras(e) == longer(e) && eras(e - EPOCH_LENGTH) == longer(e - EPOCH_LENGTH);
    assert eras(e - 2 * EPOCH_LENGTH) == longer(e - 2 * EPOCH_LENGTH);
  }

  /** One block before an epoch block the previous epoch's set is in force. */
  lemma BeforeEpoch(base: nat, eras: Eras, n: nat)
    requires ShortDelays(eras, EPOCH_LENGTH - 1) && IsEpoch(n + 1)
    requires forall e: int :: e <= base ==> eras(e) == eras(base)
    ensures NewestEpoch(n) == n + 1 - EPOCH_LENGTH
    ensures Governing(base, eras, n) == eras(n + 1 - EPOCH_LENGTH)
    ensures NewestEpoch(n) > base <==> IsActive(base, eras, n)
  {
    var e := NewestEpoch(n);
    assert EraDelay(eras(e - EPOCH_LENGTH)) <= EPOCH_LENGTH - 1;
  }

  lemma EpochStep(base: nat, eras: Eras, longer: Eras, n: nat, s: Snap, t: Snap)
    requires EpochState(base, eras, n, s) && base <= n && IsEpoch(n + 1) && Agree(eras, longer, n)
    requires ShortDelays(eras, EPOCH_LENGTH - 1) && Keyed(longer(n + 1))
    requires forall e: int :: e <= base ==> eras(e) == eras(base)
    requires var era := longer(n + 1);
             Switched(s, n + 1, Some(Pending(n + 1, n + 1 + Delay(s), era.addresses, KeysOf(era.voteSet), era.turnLength)), t)
    ensures EpochState(base, longer, n + 1, t)
  {
    var e := n + 1 - EPOCH_LENGTH;
    BeforeEpoch(base, eras, n);
    assert NewestEpoch(n + 1) == n + 1;
    assert eras(e) == longer(e) && eras(e - EPOCH_LENGTH) == longer(e - EPOCH_LENGTH);
    assert Delay(s) == EraDelay(longer(e));
  }

  // ----- the table of a walked chain -----

  ghost predicate Layouts(s0: Snap, hist: seq<Header>) {
    forall i | 0 <= i < |hist| :: LayoutOk(hist[i]) && hist[i].number == s0.number + 1 + i
  }

  lemma TableGrows(s0: Snap, hist: seq<Header>, h: Header)
    ensures Agree(ErasOf(s0, hist), ErasOf(s0, hist + [h]), s0.number + |hist|)
    ensures forall e: int :: e <= s0.number ==> ErasOf(s0, hist)(e) == ErasOf(s0, hist)(s0.number)
  {
  }

  lemma EraKeyed(s0: Snap, hist: seq<Header>, e: int)
    requires Layouts(s0, hist) && s0.number < e <= s0.number + |hist| && IsEpoch(e)
    ensures EraOf(s0, hist, e) == HeaderEra(hist[e - s0.number - 1]) && Keyed(EraOf(s0, hist, e))
  {
    var h := hist[e - s0.number - 1];
    assert LayoutOk(h);
    ZipUnzips(SortValidators(h.extra.value.validators));
  }

  lemma NewestKeyed(s0: Snap, hist: seq<Header>, n: nat)
    requires Layouts(s0, hist) && n == s0.number + |hist|
    ensures NewestEpoch(n) > s0.number ==> Keyed(ErasOf(s0, hist)(NewestEpoch(n)))
  {
    if NewestEpoch(n) > s0.number {
      EraKeyed(s0, hist, NewestEpoch(n));
    }
  }

  lemma TakePlain(s0: Snap, hist: seq<Header>, s: Snap, h: Header, t: Snap)
    requires EpochState(s0.number, ErasOf(s0, hist), s.number, s) && Layouts(s0, hist)
    requires s.number == s0.number + |hist| && h.number == s.number + 1 && !IsEpoch(h.number)
    requires Switched(s, h.number, s.pending, t)
    ensures EpochState(s0.number, ErasOf(s0, hist + [h]), h.number, t)
  {
    TableGrows(s0, hist, h);
    NewestKeyed(s0, hist, s.number);
    PlainStep(s0.number, ErasOf(s0, hist), ErasOf(s0, hist + [h]), s.number, s, t);
  }

  lemma TakeEpoch(s0: Snap, hist: seq<Header>, s: Snap, h: Header, t: Snap)
    requires EpochState(s0.number, ErasOf(s0, hist), s.number, s) && Layouts(s0, hist + [h])
    requires ShortDelays(ErasOf(s0, hist), EPOCH_LENGTH - 1)
    requires s.number == s0.number + |hist| && h.number == s.number + 1 && IsEpoch(h.number) && LayoutOk(h)
    requires Switched(s, h.number, Some(EpochPending(s, h, h.extra.value)), t)
    ensures EpochState(s0.number, ErasOf(s0, hist + [h]), h.number, t)
  {
    TableGrows(s0, hist, h);
    EraKeyed(s0, hist + [h], h.number);
    EpochStep(s0.number, ErasOf(s0, hist), ErasOf(s0, hist + [h]), s.number, s, t);
  }

  lemma EpochsTake(s0: Snap, hist: seq<Header>, s: Snap, h: Header, t: Snap)
    requires EpochState(s0.number, ErasOf(s0, hist), s.number, s) && Layouts(s0, hist)
    requires ShortDelays(ErasOf(s0, hist), EPOCH_LENGTH - 1)
    requires s.number == s0.number + |hist| && h.number == s.number + 1 && LayoutOk(h)
    requires Switched(s, h.number, PendingAt(s, h, h.extra.value), t)
    ensures EpochState(s0.number, ErasOf(s0, hist + [h]), h.number, t) && Layouts(s0, hist + [h])
  {
    if IsEpoch(h.number) {
      TakeEpoch(s0, hist, s, h, t);
    } else {
      TakePlain(s0, hist, s, h, t);
    }
  }

  lemma EpochsStep(s0: Snap, hist: seq<Header>, s: Snap, m: Move, t: Snap)
    requires EpochState(s0.number, ErasOf(s0, hist), s.number, s) && Layouts(s0, hist)
    requires ShortDelays(ErasOf(s0, hist), EPOCH_LENGTH - 1)
    requires s.number == s0.number + |hist| && Chains(s, m, t) && Announces(s, m, t)
    ensures EpochState(s0.number, ErasOf(s0, hist + HeaderOf(m)), t.number, t) && Layouts(s0, hist + HeaderOf(m))
  {
    if m.Take? {
      EpochsTake(s0, hist, s, m.header, t);
    } else {
      assert hist + HeaderOf(m) == hist;
    }
  }

  lemma ShortDelaysPrefix(s0: Snap, hist: seq<Header>, more: seq<Header>, bound: nat)
    requires ShortDelays(ErasOf(s0, hist + more), bound)
    ensures ShortDelays(ErasOf(s0, hist), bound)
  {
    forall e: int
      ensures EraDelay(ErasOf(s0, hist)(e)) <= bound
    {
      assert EraDelay(ErasOf(s0, hist + more)(e)) <= bound;
      assert EraDelay(ErasOf(s0, hist + more)(-1)) <= bound;
    }
  }

  lemma {:induction false} EpochsAlways(r: Run, k: nat)
    requires IsRun(r) && k <= |r.moves| && ShortDelays(ErasOf(r.states[0], Walked(r, k)), EPOCH_LENGTH - 1)
    ensures EpochState(r.states[0].number, ErasOf(r.states[0], Walked(r, k)), r.states[k].number, r.states[k])
    ensures Layouts(r.states[0], Walked(r, k))
  {
    if k > 0 {
      var s0 := r.states[0];
      ShortDelaysPrefix(s0, Walked(r, k - 1), HeaderOf(r.moves[k - 1]), EPOCH_LENGTH - 1);
      EpochsAlways(r, k - 1);
      SpineAlways(r, k - 1);
      assert ChainsAt(r, k - 1) && AnnouncesAt(r, k - 1);
      EpochsStep(s0, Walked(r, k - 1), r.states[k - 1], r.moves[k - 1], r.states[k]);
    }
  }

  // ----- main results -----

  /** Epoch activation is exact. At every state of every run, whatever headers were fed, the active
      set and turn length are those of the newest epoch block E of the walked chain with
      E + minerHistoryCheckLen(set in force before E) at or below the height, else the checkpoint's;
      a switch is pending exactly when the newest epoch block is not yet in force. */
  lemma ActivationExact(c: Crypto, s0: Snap, hs: seq<Header>)
    requires Fresh(s0) && ShortDelays(ErasOf(s0, Taken(c, s0, hs)), EPOCH_LENGTH - 1)
    ensures EpochState(s0.number, ErasOf(s0, Taken(c, s0, hs)), Feed(c, s0, hs).number, Feed(c, s0, hs))
  {
    var r := FeedIsRun(c, s0, hs);
    assert Traces(c, s0, hs, r, |hs|) && hs[..|hs|] == hs;
    EpochsAlways(r, |hs|);
  }
}
