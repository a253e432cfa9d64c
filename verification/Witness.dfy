/** Runs that show the exceptions are real: for any crypto, headers the rules accept reach them. */
module Witness {
  import opened Base
  import opened Vote
  import opened Headers
  import opened Lex
  import opened Snapshot
  import opened Runs
  import opened Recents
  import opened Diversity
  import opened Validators
  import opened Epochs
  import opened VoteSets
  import opened Finality
  import opened Sync
  import opened Engine
  import opened Fields
  import opened Schedule
  import opened Honest
  import opened Node
  import opened Progress

  /** A snapshot as a checkpoint boot leaves it. */
  function FreshAt(number: nat, validators: seq<Address>, votes: seq<SealingValidator>, turn: nat): Snap {
    Snap(number, Hash(Zeros(32)), turn, validators, None, true, map[], votes, [], 0, None, None, number + 1,
         [(number, Hash(Zeros(32)))])
  }

  function Named(i: Byte): Address {
    Address(Zeros(19) + [i])
  }

  lemma NamedRise(i: Byte, j: Byte)
    requires i < j
    ensures Less(Named(i).bytes, Named(j).bytes)
  {
    var a, b := Named(i).bytes, Named(j).bytes;
    assert a[..19] == b[..19];
    SharedIs(a, b, 19);
  }

  // ----- the sentinel as a sealer -----

  /** A walk the all-zero address seals alone. */
  ghost predicate AloneAt(hs: seq<Header>, i: nat)
    requires i < |hs|
  {
    hs[i].miner == SENTINEL && Live(hs[i]) && Decoded(hs[i])
  }

  ghost predicate Alone(c: Crypto, s0: Snap, hs: seq<Header>, s: Snap) {
    AllAccepted(c, s0, hs) && s == Feed(c, s0, hs) && forall i: nat | i < |hs| :: AloneAt(hs, i)
  }

  /** No switch can come before the window from the start is full. */
  ghost predicate NoSwitchYet(s0: Snap, s: Snap) {
    SameEpochs(s0, s) && s.attestation.None? && ClockOk(s) &&
    (s.pending.Some? ==> s.pending.value.activateAt > s0.number + Delay(s0) + 1)
  }

  function AnyNotice(): Notice {
    Notice([SealingValidator(SENTINEL, NoKey())], 1)
  }

  lemma AloneStep(c: Crypto, s0: Snap, s: Snap) returns (h: Header, t: Snap)
    requires NoSwitchYet(s0, s) && SENTINEL in s.validators && !IsEpoch(s0.number + 1)
    requires s0.number <= s.number <= s0.number + Delay(s0) && s.number + 1 < REACH
    ensures ApplyHeader(c, s, h) == Accepted(t) && h.miner == SENTINEL && Live(h) && Decoded(h)
    ensures NoSwitchYet(s0, t) && t.number == s.number + 1
  {
    SentinelUncounted(Residue(s));
    h, t := CraftAccepted(c, s, SENTINEL, AnyNotice());
    NoSwitchYetStep(s0, s, h, h.extra.value, t);
  }

  lemma NoSwitchYetStep(s0: Snap, s: Snap, h: Header, x: Extra, t: Snap)
    requires NoSwitchYet(s0, s) && !IsEpoch(s0.number + 1) && s0.number <= s.number <= s0.number + Delay(s0)
    requires Chains(s, Take(h, x, None), t) && Announces(s, Take(h, x, None), t) && Votes(s, Take(h, x, None), t) && ClockOk(t)
    ensures NoSwitchYet(s0, t)
  {
    assert Delay(s) == Delay(s0);
  }

  lemma AloneJoin(c: Crypto, s0: Snap, hs: seq<Header>, s: Snap, h: Header, t: Snap)
    requires Alone(c, s0, hs, s) && ApplyHeader(c, s, h) == Accepted(t) && h.miner == SENTINEL && Live(h) && Decoded(h)
    ensures Alone(c, s0, hs + [h], t)
  {
    FeedOne(c, s0, hs, h, t);
    forall i: nat | i < |hs + [h]|
      ensures AloneAt(hs + [h], i)
    {
      if i < |hs| { assert AloneAt(hs, i); }
    }
  }

  lemma {:induction false} AloneWalk(c: Crypto, s0: Snap, len: nat) returns (hs: seq<Header>, s: Snap)
    requires Fresh(s0) && SENTINEL in s0.validators && !IsEpoch(s0.number + 1)
    requires len <= Delay(s0) + 1 && s0.number + len < REACH
    ensures |hs| == len && Alone(c, s0, hs, s) && NoSwitchYet(s0, s) && s.number == s0.number + len
  {
    if len == 0 {
      hs, s := [], s0;
    } else {
      var before, mid := AloneWalk(c, s0, len - 1);
      var h;
      h, s := AloneStep(c, s0, mid);
      AloneJoin(c, s0, before, mid, h, s);
      hs := before + [h];
    }
  }

  lemma {:induction false} OccAll(w: seq<Address>, v: Address)
    requires forall i | 0 <= i < |w| :: w[i] == v
    ensures Occ(w, v) == |w|
  {
    if w != [] { OccAll(w[..|w| - 1], v); }
  }

  /** Every window of the walk is sealed by the all-zero address alone. */
  lemma AloneWindow(s0: Snap, hist: seq<Header>, a: nat, len: nat)
    requires s0.number <= a && a + len <= s0.number + |hist| && forall i: nat | i < |hist| :: AloneAt(hist, i)
    ensures forall i | 0 <= i < len :: WindowSealers(s0, hist, a, len)[i] == SENTINEL
    ensures |SealedBy(s0, hist, a, a + len, SENTINEL)| == len
  {
    var w := WindowSealers(s0, hist, a, len);
    forall i | 0 <= i < len
      ensures w[i] == SENTINEL
    {
      assert AloneAt(hist, a + i - s0.number);
      assert w[i] == Sealer(s0, hist, a + 1 + i);
    }
    OccAll(w, SENTINEL);
    OccIsSealedBy(s0, hist, a, len, SENTINEL);
  }

  lemma OnlyOne(w: seq<Address>, v: Address)
    requires forall i | 0 <= i < |w| :: w[i] == v
    ensures |set x | x in w| <= 1
  {
    assert (set x | x in w) <= {v};
    SubsetSize(set x | x in w, {v});
  }

  /** With the all-zero address among at least two validators both rules fail, whatever the crypto: some
      accepted headers fill a whole quiet window from that one sealer, who has sealed turnLength
      counted blocks and still does not count as having signed recently. */
  lemma SentinelEscapes(c: Crypto, s0: Snap) returns (hs: seq<Header>, s: Snap)
    requires Fresh(s0) && |s0.validators| >= 2 && SENTINEL in s0.validators && !IsEpoch(s0.number + 1)
    requires s0.number + Delay(s0) + 1 < REACH
    ensures AllAccepted(c, s0, hs) && AllLive(hs) && AllDecoded(hs) && s == Feed(c, s0, hs) && QuietWindow(s0, s, s0.number)
    ensures s.number == s0.number + |hs| && Delay(s) + 1 <= |hs|
    ensures var w := WindowSealers(s0, hs, s0.number, Delay(s) + 1); |set x | x in w| < |s.validators| / 2 + 1
    ensures !SignRecently(s, SENTINEL) && |SealedBy(s0, hs, CountFloor(s), s.number, SENTINEL)| >= s.turnLength
  {
    var d := Delay(s0);
    hs, s := AloneWalk(c, s0, d + 1);
    assert Delay(s) == d;
    forall i | 0 <= i < |hs|
      ensures Live(hs[i]) && Decoded(hs[i])
    {
      assert AloneAt(hs, i);
    }
    AloneWindow(s0, hs, s0.number, d + 1);
    OnlyOne(WindowSealers(s0, hs, s0.number, d + 1), SENTINEL);
    LongEnough(s0);
    AloneWindow(s0, hs, s0.number + 1, d);
    SentinelUncounted(s);
  }

  lemma LongEnough(s: Snap)
    requires |s.validators| >= 2 && s.turnLength > 0
    ensures Delay(s) >= s.turnLength
  {
    TimesIsProduct(|s.validators| / 2 + 1, s.turnLength);
    assert (|s.validators| / 2 + 1) * s.turnLength >= 2 * s.turnLength;
  }

  lemma StartIsFresh(number: nat, validators: seq<Address>, votes: seq<SealingValidator>, turn: nat)
    requires number < MAX_NUMBER && 0 < turn <= 255
    ensures Fresh(FreshAt(number, validators, votes, turn))
  {
  }

  /** n validators named 0, 1, 2, ...; the first is the all-zero address. */
  function Crowd(n: nat): (s: seq<Address>)
    requires n <= 256
    ensures |s| == n
  {
    seq(n, i requires 0 <= i < n => Named(i))
  }

  lemma CrowdIncreasing(n: nat)
    requires n <= 256
    ensures Increasing(Crowd(n)) && (n > 0 ==> Crowd(n)[0] == SENTINEL)
  {
    var s := Crowd(n);
    forall i: nat, j: nat | i < j < |s|
      ensures LessAt(s, i, j)
    {
      NamedRise(i, j);
    }
    assert SENTINEL.bytes == Zeros(19) + [0];
  }

  /** Such a start exists: two validators, one of them the all-zero address. */
  lemma SentinelStart() returns (s0: Snap)
    ensures Fresh(s0) && |s0.validators| >= 2 && SENTINEL in s0.validators && Aligned(s0) && !IsEpoch(s0.number + 1)
    ensures s0.number + Delay(s0) + 1 < REACH
  {
    s0 := FreshAt(1, Crowd(2), [], 1);
    StartIsFresh(1, Crowd(2), [], 1);
    CrowdIncreasing(2);
    TimesIsProduct(2, 1);
  }

  // ----- a snapshot that is not the fold -----

  /** A header refused for its attestation alone got as far as the history. */
  lemma BadVoteRejected(c: Crypto, s: Snap, v: Address, a: Notice) returns (bad: Header)
    requires s.number + 1 < REACH && ClockOk(s) && v in s.validators && !SignRecently(Residue(s), v) && GoodNotice(a)
    ensures bad == Craft(c, s, v, a, [0]) && Decoded(bad) && ApplyHeader(c, s, bad).Rejected?
    ensures s.number + 1 >= SatAdd(Delay(s), 1) && s.number + 1 - SatAdd(Delay(s), 1) in s.recents ==> ReachesHistory(c, s, bad)
  {
    bad := Craft(c, s, v, a, [0]);
    CraftSealed(c, s, v, a, [0]);
    CraftEarly(c, s, v, a, [0]);
    CraftBackoff(c, s, v, a, [0]);
    NoSuchVote(c, Residue(s), bad.number, bad.time);
    CraftDecoded(c, s, v, a, [0]);
  }

  lemma NoSuchVote(c: Crypto, s: Snap, number: nat, time: nat)
    ensures CheckAttestation(c, s, [0], number, time).Err?
  {
  }

  lemma NothingRecent(s: Snap, v: Address)
    requires s.recents == map[]
    ensures !SignRecently(s, v)
  {
    assert SeenBlocks(s, v) == {};
  }

  /** One lone validator, one block walked. */
  lemma OneBlock(c: Crypto, a: Notice) returns (s0: Snap, h: Header, s: Snap)
    requires GoodNotice(a)
    ensures Fresh(s0) && s0.number == 1 && ApplyHeader(c, s0, h) == Accepted(s) && h == Craft(c, s0, Named(1), a, []) && Decoded(h)
    ensures ClockOk(s) && s.number == 2 && s.validators == [Named(1)] && Delay(s) == 0 && s.recents == map[2 := Named(1)]
  {
    var v := Named(1);
    s0 := FreshAt(1, [v], [], 1);
    StartIsFresh(1, [v], [], 1);
    assert Residue(s0).recents == map[];
    NothingRecent(Residue(s0), v);
    h, s := CraftAccepted(c, s0, v, a);
    OneRecent(s0, h, s, v);
  }

  lemma OneRecent(s0: Snap, h: Header, s: Snap, v: Address)
    requires Fresh(s0) && s0.number == 1 && s0.validators == [v] && s0.turnLength == 1
    requires h.number == 2 && h.miner == v && h.time >= MAXWELL_TIME && h.extra.Some?
    requires Step(s0, Take(h, h.extra.value, None), s)
    ensures s.number == 2 && s.validators == [v] && Delay(s) == 0 && s.recents == map[2 := v]
  {
    TimesIsProduct(1, 1);
    assert Residue(s0).recents == map[];
    assert FinalizedNumber(s) == 0;
  }

  /** The snapshot need not be the fold, entry for entry: some refused append drops the entry that was
      about to leave, and a later call that sees no header succeeds with the difference. */
  lemma StaleSnapshot(c: Crypto) returns (b: Branch, chain: seq<Block>, s: Snap, bad: Header)
    ensures Follows(c, b, 0, chain, s) && IsFold(c, b, s) && AllDecoded(b.hist) && Decoded(bad)
    ensures var refused := Append(c, chain, s, s.number + 1, Headers([bad]));
            refused.error.Some? && refused.chain == chain && !IsFold(c, b, refused.snap) &&
            var noop := Append(c, chain, refused.snap, s.number, Failed);
            noop.error.None? && !IsFold(c, b, noop.snap)
  {
    var s0, h;
    s0, h, s := OneBlock(c, AnyNotice());
    b := Branch(s0, Block(1, s0.hash, Zeros(32), Named(1), 0, 0, None), [h]);
    chain := [b.genesis, BlockOf(h)];
    OneFollows(c, s0, h, s, b, chain);
    bad := StaleHeader(c, s);
    StaleAfter(c, b, chain, s, h, bad);
  }

  lemma StaleHeader(c: Crypto, s: Snap) returns (bad: Header)
    requires ClockOk(s) && s.number == 2 && s.validators == [Named(1)] && Delay(s) == 0 && s.recents == map[2 := Named(1)]
    ensures bad == Craft(c, s, Named(1), AnyNotice(), [0]) && Decoded(bad) && ApplyHeader(c, s, bad).Rejected? && ReachesHistory(c, s, bad)
  {
    assert Residue(s).recents == map[];
    NothingRecent(Residue(s), Named(1));
    bad := BadVoteRejected(c, s, Named(1), AnyNotice());
  }

  lemma StaleAfter(c: Crypto, b: Branch, chain: seq<Block>, s: Snap, h: Header, bad: Header)
    requires IsFold(c, b, s) && ApplyHeader(c, s, bad).Rejected? && ReachesHistory(c, s, bad)
    requires chain != [] && chain[|chain| - 1] == BlockOf(h)
    requires h.number == s.number == 2 && h.time == Clock(2) && h.mixHash == Zeros(32) && h.gasLimit == 30_000_000
    requires bad.time == Clock(3) && bad.mixHash == Zeros(32) && bad.gasLimit == 30_000_000
    ensures var refused := Append(c, chain, s, s.number + 1, Headers([bad]));
            refused.error.Some? && refused.chain == chain && !IsFold(c, b, refused.snap) &&
            var noop := Append(c, chain, refused.snap, s.number, Failed);
            noop.error.None? && !IsFold(c, b, noop.snap)
  {
    StaleIff(c, b, s, bad);
    Refuses(c, chain, s, h, bad);
  }

  lemma OneFollows(c: Crypto, s0: Snap, h: Header, s: Snap, b: Branch, chain: seq<Block>)
    requires Fresh(s0) && ApplyHeader(c, s0, h) == Accepted(s) && b == Branch(s0, b.genesis, [h]) && WellBooted(b)
    requires chain == [b.genesis, BlockOf(h)]
    ensures Follows(c, b, 0, chain, s) && IsFold(c, b, s)
  {
    assert AllAccepted(c, s0, []);
    FeedOne(c, s0, [], h, s);
    assert [] + [h] == [h];
    assert Full(b) == chain;
  }

  lemma Refuses(c: Crypto, chain: seq<Block>, s: Snap, h: Header, bad: Header)
    requires chain != [] && chain[|chain| - 1] == BlockOf(h) && ApplyHeader(c, s, bad).Rejected?
    requires h.number == s.number == 2 && h.time == Clock(2) && h.mixHash == Zeros(32) && h.gasLimit == 30_000_000
    requires bad.time == Clock(3) && bad.mixHash == Zeros(32) && bad.gasLimit == 30_000_000
    ensures var r := Append(c, chain, s, s.number + 1, Headers([bad]));
            r.error.Some? && r.chain == chain && r.snap == ApplyHeader(c, s, bad).snap
  {
    CraftedTime(s.(number := 1), h);
    CraftedTime(s, bad);
    var next := AppendOneCases(c, chain, s, bad);
    assert CascadingOk(BlockOf(h).milli, BlockOf(h).gasLimit, bad);
  }

  // ----- a reorg that is not recovered from -----

  /** The same header a hundred seconds late. */
  function Late(c: Crypto, h: Header): Header
    requires h.time + 100 < U64
  {
    var d := h.(time := h.time + 100);
    d.(hash := Hash(c.keccak(Preimage(d))))
  }

  lemma LateSealed(c: Crypto, h: Header)
    requires h.time + 100 < U64 && VerifySealCoinbase(c.keccak, h).Ok?
    ensures VerifySealCoinbase(c.keccak, Late(c, h)) == Ok(h.miner)
  {
    var d := h.(time := h.time + 100);
    PreimageOpen(d, Hash(c.keccak(Preimage(d))));
  }

  /** With no parent clock to wait for, it is accepted as well. */
  lemma LateAccepted(c: Crypto, s: Snap, h: Header)
    requires h.time + 100 < U64 && s.lastMilli.None? && ApplyHeader(c, s, h).Accepted?
    requires h.extra.Some? && h.extra.value.attestation == []
    ensures ApplyHeader(c, s, Late(c, h)).Accepted?
  {
    AcceptFacts(c, s, h);
    LateSealed(c, h);
    assert Forget(s, h.number) == Residue(s);
    var a, e := ApplyIs(c, s, h);
    var late, f := ApplyIs(c, s, Late(c, h));
  }

  lemma LateDecoded(c: Crypto, h: Header)
    requires h.time + 100 < U64 && Decoded(h) && h.mixHash == Zeros(32) && h.number < REACH && h.time == Clock(h.number)
    requires h.fieldsOk && h.beaconRoot == Some(Zeros(32))
    ensures Decoded(Late(c, h)) && MilliTimestamp(Late(c, h)) == MilliTimestamp(h) + 100_000
  {
    assert h.mixHash[30..] == [0, 0];
    assert [0, 0][..1] == [0] && [0][..0] == [];
    assert FromBe([0]) == 0 && FromBe([0, 0]) == 0;
  }

  /** A node on a block that was sealed late, an upstream on its sibling and that block's child: the retained
      state would rejoin, but the child is too early for the late block and recovery never starts. */
  ghost predicate Missed(c: Crypto, cfg: Config, st: State, b: Branch, up: Upstream) {
    Inv(c, st, b, 0) && AllDecoded(b.hist) && up.append.Headers? && AllDecoded(up.append.headers) &&
    WinsAt(c, st, 3, up, 0) && Resync(c, cfg, st, 3, up) == Resynced(st, Err(Cascading))
  }

  lemma Siblings(c: Crypto) returns (s0: Snap, late: Header, first: Header, s: Snap, second: Header)
    ensures Fresh(s0) && s0.number == 1
    ensures ApplyHeader(c, s0, first) == Accepted(s) && ApplyHeader(c, s, second).Accepted? && ApplyHeader(c, s0, late).Accepted?
    ensures Decoded(late) && Decoded(first) && Decoded(second)
    ensures first.gasLimit == second.gasLimit == late.gasLimit == 30_000_000
    ensures MilliTimestamp(first) + 450 <= MilliTimestamp(second) < MilliTimestamp(late)
    ensures first.time >= FERMI_TIME && second.time >= FERMI_TIME
    ensures MilliTimestamp(late) < U64 / 2
  {
    s0, first, s := OneBlock(c, AnyNotice());
    assert Residue(s).recents == map[];
    NothingRecent(Residue(s), Named(1));
    var t;
    second, t := CraftAccepted(c, s, Named(1), AnyNotice());
    late := Late(c, first);
    LateAccepted(c, s0, first);
    CraftedTime(s0, first);
    CraftedTime(s, second);
    LateDecoded(c, first);
  }

  /** What the client promises to recover from is missed here, for any crypto. */
  lemma EarlyForkMissed(c: Crypto, cfg: Config) returns (st: State, b: Branch, up: Upstream)
    requires cfg.maxSync > 0
    ensures Missed(c, cfg, st, b, up)
  {
    var s0, late, first, s, second := Siblings(c);
    up := Upstream(Headers([second]), (n: nat) => Headers([first, second]), NoBoot(), Failed);
    st, b := LateNode(c, s0, late);
    BothPass(c, b.genesis, s0, first, s, second);
    StartWins(c, st, b, [first, second], up);
    SecondIsEarly(c, cfg, st, late, second, up);
  }

  lemma LateNode(c: Crypto, s0: Snap, late: Header) returns (st: State, b: Branch)
    requires Fresh(s0) && s0.number == 1 && ApplyHeader(c, s0, late).Accepted? && Decoded(late)
    ensures Inv(c, st, b, 0) && AllDecoded(b.hist) && st.chain == [b.genesis, BlockOf(late)] && st.rollbacks == [s0]
    ensures b.base == s0 && b.genesis.number == 1 && b.genesis.gasLimit == 0 && late.number == 2
  {
    var s := ApplyHeader(c, s0, late).snap;
    b := Branch(s0, Block(1, s0.hash, Zeros(32), Named(1), 0, 0, None), [late]);
    st := State([b.genesis, BlockOf(late)], s, [s0]);
    AcceptFacts(c, s0, late);
    OneFollows(c, s0, late, s, b, st.chain);
    StartIsPoint(c, b, s0);
  }

  lemma StartWins(c: Crypto, st: State, b: Branch, hs: seq<Header>, up: Upstream)
    requires |st.chain| == 2 && st.chain[0] == b.genesis && st.chain[0].number == 1 && st.chain[1].number == 2
    requires |st.rollbacks| == 1 && st.rollbacks[0].number == 1 && up.rewind(1) == Headers(hs)
    requires PassBelow(c, [b.genesis], st.rollbacks[0], hs, |hs|)
    ensures WinsAt(c, st, 3, up, 0)
  {
    assert Progress.Kept(st, 0, 3) == [b.genesis];
  }

  function NoBoot(): BootReply {
    BootReply(None, None, None)
  }

  lemma StartIsPoint(c: Crypto, b: Branch, s0: Snap)
    requires WellBooted(b) && b.base == s0
    ensures Points(c, b, [s0])
  {
    var start := Cut(b, s0.number);
    assert start.hist == [];
    assert PointAt(c, b, [s0], 0);
  }

  lemma BothPass(c: Crypto, g: Block, s0: Snap, first: Header, s: Snap, second: Header)
    requires ApplyHeader(c, s0, first) == Accepted(s) && ApplyHeader(c, s, second).Accepted? && g.gasLimit == 0
    requires first.gasLimit == second.gasLimit == 30_000_000 && second.time >= FERMI_TIME
    requires MilliTimestamp(first) + 450 <= MilliTimestamp(second)
    ensures PassBelow(c, [g], s0, [first, second], 2)
  {
    BothOnTime(g, first, second);
    var hs := [first, second];
    assert hs[..0] == [] && hs[..1] == [first];
    FeedFirst(c, s0, first, s);
    forall i: nat | i < 2
      ensures PassesAt(c, [g], s0, hs, i)
    {
      PassGiven(c, [g], s0, hs, i, if i == 0 then s0 else s);
    }
  }

  lemma FeedFirst(c: Crypto, s0: Snap, first: Header, s: Snap)
    requires ApplyHeader(c, s0, first) == Accepted(s)
    ensures Feed(c, s0, []) == s0 && Feed(c, s0, [first]) == s
  {
    assert [first][..0] == [];
  }

  lemma PassGiven(c: Crypto, chain: seq<Block>, s0: Snap, hs: seq<Header>, i: nat, s: Snap)
    requires i < |hs| && OnTime(chain, hs, i) && s == Feed(c, s0, hs[..i]) && ApplyHeader(c, s, hs[i]).Accepted?
    ensures PassesAt(c, chain, s0, hs, i)
  {
  }

  lemma BothOnTime(g: Block, first: Header, second: Header)
    requires g.gasLimit == 0 && first.gasLimit == second.gasLimit == 30_000_000 && second.time >= FERMI_TIME
    requires MilliTimestamp(first) + 450 <= MilliTimestamp(second)
    ensures OnTime([g], [first, second], 0) && OnTime([g], [first, second], 1)
  {
    assert Above([g], [first, second], 1) == Some(BlockOf(first));
  }

  lemma SecondIsEarly(c: Crypto, cfg: Config, st: State, late: Header, second: Header, up: Upstream)
    requires st.chain != [] && st.chain[|st.chain| - 1] == BlockOf(late) && late.number == 2 && cfg.maxSync > 0
    requires up.append == Headers([second]) && MilliTimestamp(second) < MilliTimestamp(late) < U64 / 2 && late.gasLimit > 0
    ensures Resync(c, cfg, st, 3, up) == Resynced(st, Err(Cascading))
  {
    EarlyStops(c, cfg, st, Call(3, up));
  }

  // ----- one generation is not enough beyond 997 -----

  const BASE: nat := 40_000_000

  /** 52 validators with turn length 37: minerHistoryCheckLen is 998. */
  function Slow(): Snap {
    FreshAt(BASE - 1, Crowd(52), Zip(Crowd(52), seq(52, _ => NoKey())), 37)
  }

  function KeyNo(i: Byte): VoteKey {
    VoteKey(Zeros(47) + [i])
  }

  /** Every epoch announces one validator, with a key of its own. */
  function Announced(n: nat): Notice {
    Notice([SealingValidator(Named(1), KeyNo(if n == BASE then 1 else 2))], 1)
  }

  lemma SlowStart()
    ensures Fresh(Slow()) && Aligned(Slow()) && Slow().validators != [] && Delay(Slow()) == 998
  {
    StartIsFresh(BASE - 1, Crowd(52), Zip(Crowd(52), seq(52, _ => NoKey())), 37);
    CrowdIncreasing(52);
    ZipAddresses(Crowd(52), seq(52, _ => NoKey()));
    TimesIsProduct(27, 37);
  }

  lemma OneDelay(h: Header, n: nat)
    requires h.extra.Some? && h.extra.value == Extra(Announced(n).validators, Some(Announced(n).turnLength), [])
    ensures EraDelay(HeaderEra(h)) == 0 && HeaderEra(h).voteSet == Announced(n).validators
  {
    var v := Announced(n).validators[0];
    assert Announced(n).validators == [v] && SortValidators([v]) == [v];
    TimesIsProduct(1, 1);
  }

  lemma SlowEras(hs: seq<Header>)
    requires Planned(Slow(), Announced, hs) && |hs| == 1001
    ensures ShortDelays(ErasOf(Slow(), hs), 998)
    ensures var eras := ErasOf(Slow(), hs);
            EraDelay(eras(BASE)) == 0 && eras(BASE).voteSet == Announced(BASE).validators &&
            eras(BASE - EPOCH_LENGTH) == BaseEra(Slow())
  {
    SlowStart();
    var eras := ErasOf(Slow(), hs);
    forall e: int
      ensures EraDelay(eras(e)) <= 998
    {
      var i := e - Slow().number - 1;
      if 0 <= i < |hs| {
        assert PlannedAt(Slow(), Announced, hs, i);
        if IsEpoch(e) { OneDelay(hs[i], e); }
      }
    }
    assert PlannedAt(Slow(), Announced, hs, 0);
    OneDelay(hs[0], BASE);
  }

  lemma SlowGoverning(eras: Eras, s: Snap)
    requires s.number == BASE + 1000 && EpochState(BASE - 1, eras, s.number, s) && ShortDelays(eras, 998) && ConstantBelow(BASE - 1, eras)
    requires EraDelay(eras(BASE)) == 0 && |eras(BASE).voteSet| == 1
    requires eras(BASE - EPOCH_LENGTH) == BaseEra(Slow())
    ensures AttestationSet(s, BASE + 998) != Governing(BASE - 1, eras, BASE + 997).voteSet
  {
    SlowStart();
    assert EraDelay(eras(BASE - EPOCH_LENGTH)) == 998;
    assert NewestEpoch(BASE + 1000) == BASE + 1000;
    assert |eras(BASE - EPOCH_LENGTH).voteSet| == 52;
    OneGenerationExact(BASE - 1, eras, s, BASE + 998);
  }

  lemma SlowWalk(c: Crypto) returns (hs: seq<Header>, s: Snap)
    ensures hs == HonestWalk(c, Slow(), Announced, 1001)
    ensures AllAccepted(c, Slow(), hs) && |hs| == 1001 && s == Feed(c, Slow(), hs) && s.number == BASE + 1000
    ensures Planned(Slow(), Announced, hs) && AllLive(hs) && AllDecoded(hs)
  {
    SlowStart();
    hs := HonestWalk(c, Slow(), Announced, 1001);
    s := HonestWalkAccepted(c, Slow(), Announced, 1001);
    WalkingRecent(c, Slow(), Announced, hs, s);
    PlannedLive(Slow(), Announced, hs);
    forall i | 0 <= i < |hs|
      ensures Decoded(hs[i])
    {
      assert PlannedAt(Slow(), Announced, hs, i);
    }
  }

  lemma SlowHeld(c: Crypto, hs: seq<Header>)
    requires Fresh(Slow()) && AllAccepted(c, Slow(), hs) && |hs| == 1001 && ShortDelays(ErasOf(Slow(), hs), 998)
    ensures var t := Feed(c, Slow(), hs[..998]);
            t.number == BASE + 997 && t.voteSet == Governing(BASE - 1, ErasOf(Slow(), hs), BASE + 997).voteSet
  {
    var r := FeedIsRun(c, Slow(), hs);
    assert Traces(c, Slow(), hs, r, 998) && Traces(c, Slow(), hs, r, 1001) && hs[..1001] == hs;
    SpineAlways(r, 998);
    WalkedPrefix(r, 998, 1001);
    WalkedAll(r, hs, 998);
    HeldVoteSet(r, 998, 1001);
  }

  /** A run that walked every header it was given has walked k after k moves. */
  lemma {:induction false} WalkedAtMost(r: Run, j: nat, k: nat)
    requires j <= k <= |r.moves|
    ensures |Walked(r, j)| <= |Walked(r, k)| <= |Walked(r, j)| + (k - j)
  {
    if j < k { WalkedAtMost(r, j, k - 1); }
  }

  lemma WalkedAll(r: Run, hs: seq<Header>, k: nat)
    requires |r.moves| == |hs| && Walked(r, |hs|) == hs && k <= |hs|
    ensures |Walked(r, k)| == k
  {
    WalkedAtMost(r, k, |hs|);
    WalkedAtMost(r, 0, k);
  }

  /** The bound of 997 is sharp: with a minerHistoryCheckLen of 998, and any crypto, a run of honest headers
      sealed in turn reaches a state whose next header may carry a vote for a target in the window
      that is checked against other keys than the client held right after block target-1. */
  lemma GenerationMissed(c: Crypto) returns (hs: seq<Header>, s: Snap, target: nat)
    ensures Fresh(Slow()) && Delay(Slow()) == 998 && AllAccepted(c, Slow(), hs) && AllLive(hs) && s == Feed(c, Slow(), hs)
    ensures hs == HonestWalk(c, Slow(), Announced, 1001) && AllDecoded(hs) && ShortDelays(ErasOf(Slow(), hs), 998)
    ensures TargetWindow(s.number + 1, Clock(s.number + 1)).0 <= target <= TargetWindow(s.number + 1, Clock(s.number + 1)).1
    ensures |hs| > 998 && Feed(c, Slow(), hs[..998]).number == target - 1
    ensures AttestationSet(s, target) != Feed(c, Slow(), hs[..998]).voteSet
  {
    SlowStart();
    hs, s := SlowWalk(c);
    target := BASE + 998;
    SlowEras(hs);
    ActivationExact(c, Slow(), hs);
    TableBelow(Slow(), hs);
    SlowGoverning(ErasOf(Slow(), hs), s);
    SlowHeld(c, hs);
  }
}
