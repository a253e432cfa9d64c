/** Runs that exist: headers any crypto accepts, with every field as the client decodes it, and the walk
    they make when each is sealed in turn. */
module Honest {
  import opened Base
  import opened Vote
  import opened Headers
  import opened Fields
  import opened Snapshot
  import opened Runs
  import opened Recents
  import opened Validators
  import opened Schedule

  // ----- a header the rules accept -----

  /** Block numbers the crafted clock can reach. */
  const REACH: nat := 0x4_0000_0000_0000

  function Clock(n: nat): nat {
    FERMI_TIME + 10 * n
  }

  /** What an epoch header announces. */
  datatype Notice = Notice(validators: seq<SealingValidator>, turnLength: Byte)

  predicate GoodNotice(a: Notice) {
    0 < |a.validators| <= 255 && DistinctAddresses(a.validators) && 0 < a.turnLength <= MAX_TURN_LENGTH
  }

  /** What the next header's extraData holds: the announcement on epoch headers only. */
  function ExtraFor(number: nat, a: Notice, attestation: Bytes): (x: Extra)
    requires IsEpoch(number) ==> GoodNotice(a)
    ensures Announceable(x, IsEpoch(number))
  {
    if IsEpoch(number) then Extra(a.validators, Some(a.turnLength), attestation) else Extra([], None, attestation)
  }

  /** The next header on a snapshot, ten seconds after its parent, its hash still open. */
  function Draft(s: Snap, v: Address, a: Notice, attestation: Bytes): Header
    requires s.number + 1 < REACH && (IsEpoch(s.number + 1) ==> GoodNotice(a))
  {
    var n := s.number + 1;
    var x := ExtraFor(n, a, attestation);
    Header(s.hash, EmptyUncleHash(), v, Zeros(32), Zeros(32), Zeros(32), Zeros(256), ExpectedDifficulty(s, v), n,
           30_000_000, 0, Clock(n), ExtraBytes(x, IsEpoch(n)), Zeros(32), Zeros(8),
           if n >= LONDON_BLOCK then Some(0) else None, None, None, None, Some(Zeros(32)), None,
           Hash(Zeros(32)), Some(v), true, Some(x))
  }

  function Craft(c: Crypto, s: Snap, v: Address, a: Notice, attestation: Bytes): Header
    requires s.number + 1 < REACH && (IsEpoch(s.number + 1) ==> GoodNotice(a))
  {
    var d := Draft(s, v, a, attestation);
    d.(hash := Hash(c.keccak(Preimage(d))))
  }

  lemma PreimageOpen(d: Header, x: Hash)
    ensures Preimage(d.(hash := x)) == Preimage(d)
  {
    assert OptionalItems(d.(hash := x)) == OptionalItems(d);
  }

  /** The clock has not run past the crafted one. */
  predicate ClockOk(s: Snap) {
    s.lastMilli.Some? ==> s.lastMilli.value <= Clock(s.number) * 1000
  }

  lemma CraftedTime(s: Snap, h: Header)
    requires s.number + 1 < REACH && h.time == Clock(s.number + 1) && h.mixHash == Zeros(32)
    ensures MilliTimestamp(h) == Clock(s.number + 1) * 1000
  {
    assert h.mixHash[30..] == [0, 0];
    assert [0, 0][..1] == [0] && [0][..0] == [];
    assert FromBe([0]) == 0 && FromBe([0, 0]) == 0;
  }

  lemma CraftUnsealed(s: Snap, h: Header)
    requires s.number + 1 < REACH && h.number == s.number + 1 && h.time == Clock(s.number + 1) && h.mixHash == Zeros(32)
    requires |h.extraData| <= EXTRA_MAX && h.uncles == EmptyUncleHash() && h.gasLimit == 30_000_000 && h.gasUsed == 0
    requires h.baseFee == (if h.number >= LONDON_BLOCK then Some(0) else None)
    requires h.beaconRoot == Some(Zeros(32)) && h.withdrawalsRoot.None? && h.nonce == Zeros(8)
    ensures UnsealedFields(h)
  {
    CraftedTime(s, h);
  }

  lemma DecodedFrom(h: Header, x: Extra)
    requires Announceable(x, IsEpoch(h.number)) && h.extra == Some(x) && h.extraData == ExtraBytes(x, IsEpoch(h.number))
    requires UnsealedFields(h)
    ensures Decoded(h)
  {
    ExtraReads(x, IsEpoch(h.number));
  }

  /** The header is one the client can be given: its derived fields are what its bytes say. */
  lemma CraftDecoded(c: Crypto, s: Snap, v: Address, a: Notice, attestation: Bytes)
    requires s.number + 1 < REACH && (IsEpoch(s.number + 1) ==> GoodNotice(a)) && |attestation| <= 1000
    ensures Decoded(Craft(c, s, v, a, attestation))
  {
    var h, x := Craft(c, s, v, a, attestation), ExtraFor(s.number + 1, a, attestation);
    ExtraReads(x, IsEpoch(s.number + 1));
    CraftUnsealed(s, h);
    DecodedFrom(h, x);
  }

  lemma CraftSealed(c: Crypto, s: Snap, v: Address, a: Notice, attestation: Bytes)
    requires s.number + 1 < REACH && (IsEpoch(s.number + 1) ==> GoodNotice(a))
    ensures VerifySealCoinbase(c.keccak, Craft(c, s, v, a, attestation)) == Ok(v)
  {
    var d := Draft(s, v, a, attestation);
    PreimageOpen(d, Hash(c.keccak(Preimage(d))));
    assert LayoutOk(d);
  }

  lemma CraftEarly(c: Crypto, s: Snap, v: Address, a: Notice, attestation: Bytes)
    requires IsEpoch(s.number + 1) ==> GoodNotice(a)
    requires s.number + 1 < REACH && v in s.validators
    ensures EarlyError(s, Craft(c, s, v, a, attestation), v).None?
  {
  }

  lemma CraftBackoff(c: Crypto, s: Snap, v: Address, a: Notice, attestation: Bytes)
    requires IsEpoch(s.number + 1) ==> GoodNotice(a)
    requires s.number + 1 < REACH && ClockOk(s)
    ensures BackoffOk(Residue(s), Craft(c, s, v, a, attestation))
  {
    CraftedTime(s, Craft(c, s, v, a, attestation));
  }

  lemma CraftLate(c: Crypto, s: Snap, v: Address, a: Notice)
    requires s.number + 1 < REACH && ClockOk(s) && !SignRecently(Residue(s), v) && (IsEpoch(s.number + 1) ==> GoodNotice(a))
    ensures var h := Craft(c, s, v, a, []); LateCheck(c, Residue(s), h, v) == Ok((h.extra.value, None))
  {
    CraftBackoff(c, s, v, a, []);
  }

  /** Any member of the set that has not sealed too recently can seal the next header, for any crypto. */
  lemma CraftAccepted(c: Crypto, s: Snap, v: Address, a: Notice) returns (h: Header, t: Snap)
    requires s.number + 1 < REACH && ClockOk(s) && v in s.validators && !SignRecently(Residue(s), v)
    requires IsEpoch(s.number + 1) ==> GoodNotice(a)
    ensures h == Craft(c, s, v, a, []) && ApplyHeader(c, s, h) == Accepted(t) && t == Commit(Residue(s), h, h.extra.value, v, None)
    ensures Decoded(h)
    ensures Step(s, Take(h, h.extra.value, None), t) && ClockOk(t) && t.enforceInturn == s.enforceInturn
  {
    h := Craft(c, s, v, a, []);
    CraftSealed(c, s, v, a, []);
    CraftEarly(c, s, v, a, []);
    CraftLate(c, s, v, a);
    t := Commit(Residue(s), h, h.extra.value, v, None);
    Applies(c, s, h, v);
    CommitIsStep(s, h, None);
    CraftedTime(s, h);
    CraftDecoded(c, s, v, a, []);
  }

  lemma Applies(c: Crypto, s: Snap, h: Header, v: Address)
    requires VerifySealCoinbase(c.keccak, h) == Ok(v) && EarlyError(s, h, v).None?
    requires LateCheck(c, Residue(s), h, v) == Ok((h.extra.value, None)) && h.number == s.number + 1
    ensures ApplyHeader(c, s, h) == Accepted(Commit(Residue(s), h, h.extra.value, v, None))
  {
    assert Forget(s, h.number) == Residue(s);
  }

  // ----- the honest schedule -----

  /** What every state of the crafted walk satisfies. */
  ghost predicate OnSchedule(s0: Snap, hist: seq<Header>, s: Snap) {
    Turning(s0, hist, s) && ClockOk(s)
  }

  /** The validator in turn seals, and the rules accept it. */
  lemma HonestStep(c: Crypto, s0: Snap, hist: seq<Header>, s: Snap, a: Notice) returns (h: Header, t: Snap)
    requires OnSchedule(s0, hist, s) && RecentState(s0, hist, s) && s.number + 1 < REACH && GoodNotice(a)
    ensures h == Craft(c, s, InturnAt(s, s.number + 1), a, []) && ApplyHeader(c, s, h) == Accepted(t)
    ensures OnSchedule(s0, hist + [h], t) && Live(h) && Decoded(h)
  {
    var v := InturnAt(s, s.number + 1);
    InturnNeverRecent(s0, hist, s);
    InturnIsMember(s);
    ResidueKeepsCounts(s, v);
    h, t := CraftAccepted(c, s, v, a);
    var m := Take(h, h.extra.value, None);
    TurningStep(s0, hist, s, m, t);
  }

  /** The header the validator in turn seals next. */
  function HonestNext(c: Crypto, s: Snap, plan: nat -> Notice): seq<Header> {
    if s.turnLength > 0 && s.validators != [] && s.number + 1 < REACH && GoodNotice(plan(s.number + 1))
    then [Craft(c, s, InturnAt(s, s.number + 1), plan(s.number + 1), [])]
    else []
  }

  /** `len` headers, each sealed by the validator in turn; block n announces plan(n). */
  function HonestWalk(c: Crypto, s0: Snap, plan: nat -> Notice, len: nat): seq<Header> {
    if len == 0 then []
    else HonestWalk(c, s0, plan, len - 1) + HonestNext(c, Feed(c, s0, HonestWalk(c, s0, plan, len - 1)), plan)
  }

  /** Block i of the walk carries its number and its announcement. */
  ghost predicate PlannedAt(s0: Snap, plan: nat -> Notice, hs: seq<Header>, i: nat)
    requires i < |hs|
  {
    var a := plan(s0.number + 1 + i);
    Live(hs[i]) && Decoded(hs[i]) && hs[i].number == s0.number + 1 + i && hs[i].extra.Some? &&
    if IsEpoch(s0.number + 1 + i) then hs[i].extra.value == Extra(a.validators, Some(a.turnLength), [])
    else hs[i].extra.value == Extra([], None, [])
  }

  ghost predicate Planned(s0: Snap, plan: nat -> Notice, hs: seq<Header>) {
    forall i: nat | i < |hs| :: PlannedAt(s0, plan, hs, i)
  }

  ghost predicate GoodPlan(plan: nat -> Notice) {
    forall n: nat :: GoodNotice(plan(n))
  }

  lemma PlannedLive(s0: Snap, plan: nat -> Notice, hs: seq<Header>)
    requires Planned(s0, plan, hs)
    ensures AllLive(hs)
  {
    forall i | 0 <= i < |hs|
      ensures Live(hs[i])
    {
      assert PlannedAt(s0, plan, hs, i);
    }
  }

  lemma PlannedMore(c: Crypto, s0: Snap, plan: nat -> Notice, hs: seq<Header>, s: Snap, v: Address)
    requires Planned(s0, plan, hs) && s.number == s0.number + |hs| && s.number + 1 < REACH && GoodNotice(plan(s.number + 1))
    ensures Planned(s0, plan, hs + [Craft(c, s, v, plan(s.number + 1), [])])
  {
    CraftDecoded(c, s, v, plan(s.number + 1), []);
    var all := hs + [Craft(c, s, v, plan(s.number + 1), [])];
    forall i: nat | i < |all|
      ensures PlannedAt(s0, plan, all, i)
    {
      if i < |hs| { assert PlannedAt(s0, plan, hs, i); }
    }
  }

  /** An honest walk so far, and the state it has reached. */
  ghost predicate Walking(c: Crypto, s0: Snap, plan: nat -> Notice, hs: seq<Header>, s: Snap) {
    AllAccepted(c, s0, hs) && s == Feed(c, s0, hs) && Planned(s0, plan, hs) && OnSchedule(s0, hs, s)
  }

  lemma WalkingRecent(c: Crypto, s0: Snap, plan: nat -> Notice, hs: seq<Header>, s: Snap)
    requires Fresh(s0) && Walking(c, s0, plan, hs, s)
    ensures RecentState(s0, hs, s) && s.number == s0.number + |hs|
  {
    PlannedLive(s0, plan, hs);
    RecentAfter(c, s0, hs);
  }

  /** One honest header: what it is, that it is accepted, and where it leaves the client. */
  ghost predicate HonestlyTo(c: Crypto, s0: Snap, plan: nat -> Notice, hs: seq<Header>, s: Snap, h: Header, t: Snap) {
    s.turnLength > 0 && s.validators != [] && s.number + 1 < REACH && s.number == s0.number + |hs| &&
    GoodNotice(plan(s.number + 1)) && h == Craft(c, s, InturnAt(s, s.number + 1), plan(s.number + 1), []) && ApplyHeader(c, s, h) == Accepted(t) &&
    OnSchedule(s0, hs + [h], t)
  }

  lemma HonestlyNext(c: Crypto, s0: Snap, plan: nat -> Notice, hs: seq<Header>, s: Snap) returns (h: Header, t: Snap)
    requires OnSchedule(s0, hs, s) && RecentState(s0, hs, s) && s.number + 1 < REACH && GoodPlan(plan)
    ensures HonestlyTo(c, s0, plan, hs, s, h, t)
  {
    h, t := HonestStep(c, s0, hs, s, plan(s.number + 1));
  }

  lemma WalkingJoin(c: Crypto, s0: Snap, plan: nat -> Notice, hs: seq<Header>, s: Snap, h: Header, t: Snap)
    requires Walking(c, s0, plan, hs, s) && HonestlyTo(c, s0, plan, hs, s, h, t)
    ensures Walking(c, s0, plan, hs + [h], t)
  {
    FeedOne(c, s0, hs, h, t);
    PlannedMore(c, s0, plan, hs, s, InturnAt(s, s.number + 1));
  }

  lemma HonestNextIs(c: Crypto, s0: Snap, plan: nat -> Notice, hs: seq<Header>, s: Snap, h: Header, t: Snap)
    requires HonestlyTo(c, s0, plan, hs, s, h, t)
    ensures HonestNext(c, s, plan) == [h]
  {
  }

  lemma WalkingStep(c: Crypto, s0: Snap, plan: nat -> Notice, hs: seq<Header>, s: Snap) returns (h: Header, t: Snap)
    requires Fresh(s0) && GoodPlan(plan) && Walking(c, s0, plan, hs, s) && s0.number + |hs| + 1 < REACH
    ensures Walking(c, s0, plan, hs + [h], t) && HonestNext(c, s, plan) == [h]
  {
    WalkingRecent(c, s0, plan, hs, s);
    h, t := HonestlyNext(c, s0, plan, hs, s);
    WalkingJoin(c, s0, plan, hs, s, h, t);
    HonestNextIs(c, s0, plan, hs, s, h, t);
  }

  lemma WalkingStart(c: Crypto, s0: Snap, plan: nat -> Notice)
    requires Fresh(s0) && Aligned(s0) && s0.validators != []
    ensures Walking(c, s0, plan, [], s0)
  {
  }

  lemma WalkGrows(c: Crypto, s0: Snap, plan: nat -> Notice, len: nat, hs: seq<Header>, s: Snap, h: Header)
    requires len > 0 && hs == HonestWalk(c, s0, plan, len - 1) && s == Feed(c, s0, hs) && HonestNext(c, s, plan) == [h]
    ensures HonestWalk(c, s0, plan, len) == hs + [h]
  {
  }

  /** Such runs exist, of any length: for any crypto, from any aligned start, through any number of epochs
      and set switches, these headers, one by the validator in turn per height, are all accepted. */
  lemma {:induction false} HonestWalkAccepted(c: Crypto, s0: Snap, plan: nat -> Notice, len: nat) returns (s: Snap)
    requires Fresh(s0) && Aligned(s0) && s0.validators != [] && GoodPlan(plan) && s0.number + len < REACH
    ensures |HonestWalk(c, s0, plan, len)| == len && Walking(c, s0, plan, HonestWalk(c, s0, plan, len), s)
  {
    if len == 0 {
      s := s0;
      WalkingStart(c, s0, plan);
    } else {
      var before := HonestWalkAccepted(c, s0, plan, len - 1);
      var hs := HonestWalk(c, s0, plan, len - 1);
      var h;
      h, s := WalkingStep(c, s0, plan, hs, before);
      WalkGrows(c, s0, plan, len, hs, before, h);
    }
  }
}
