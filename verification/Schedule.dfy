/** The honest schedule: a header sealed in turn is refused for its attestation or not at all. */
module Schedule {
  import opened Base
  import opened Vote
  import opened Headers
  import opened Lex
  import opened Snapshot
  import opened Runs
  import opened Recents
  import opened Validators
  import opened Turns

  // ----- in turn means not recent -----

  lemma SlotSum(x: nat, n: nat, t: nat) returns (r: nat, i: nat, o: nat)
    requires n > 0 && t > 0
    ensures SlotOf(x, n, t, r, i, o) && i == x / t % n && o == x % t
  {
    OneSlot(x, n, t);
    r, i, o := x / t / n, x / t % n, x % t;
  }

  /** Equal offsets in one validator's slots are whole rounds apart. */
  lemma SameOffset(b: nat, d: nat, n: nat, t: nat)
    requires n > 0 && t > 0 && b < d && b / t % n == d / t % n && b % t == d % t
    ensures d - b >= n * t
  {
    var p, i, o := SlotSum(b, n, t);
    var q, j, u := SlotSum(d, n, t);
    RoundsApart(b, d, p, q, n, t, i, o);
  }

  lemma RoundsApart(b: nat, d: nat, p: nat, q: nat, n: nat, t: nat, i: nat, o: nat)
    requires n > 0 && t > 0 && b < d && SlotOf(b, n, t, p, i, o) && SlotOf(d, n, t, q, i, o)
    ensures d - b >= n * t
  {
    assert d - b == (q - p) * (n * t);
    SmallMultiple(q - p, n * t);
  }

  lemma {:induction false} ImageSize(s: set<nat>, f: nat -> nat)
    requires forall a, b | a in s && b in s && f(a) == f(b) :: a == b
    ensures |set b | b in s :: f(b)| == |s|
  {
    if s != {} {
      var x :| x in s;
      var rest := s - {x};
      ImageSize(rest, f);
      assert (set b | b in s :: f(b)) == (set b | b in rest :: f(b)) + {f(x)};
    }
  }

  ghost predicate OneFamily(s: set<nat>, x: nat, n: nat, t: nat)
    requires n > 0 && t > 0
  {
    forall b | b in s :: b < x && x - b < n * t && b / t % n == x / t % n
  }

  lemma OffsetsDiffer(s: set<nat>, x: nat, n: nat, t: nat, a: nat, b: nat)
    requires n > 0 && t > 0 && OneFamily(s, x, n, t) && a in s && (b in s || b == x) && a % t == b % t
    ensures a == b
  {
    if a < b { SameOffset(a, b, n, t); }
    if b < a { SameOffset(b, a, n, t); }
  }

  /** Blocks of one slot family below height x, less than a round back: fewer than turnLength. */
  lemma FewInRound(s: set<nat>, x: nat, n: nat, t: nat)
    requires n > 0 && t > 0 && OneFamily(s, x, n, t)
    ensures |s| < t
  {
    var f: nat -> nat := b => if t > 0 then b % t else 0;
    forall a, b | a in s && b in s && f(a) == f(b)
      ensures a == b
    {
      OffsetsDiffer(s, x, n, t, a, b);
    }
    ImageSize(s, f);
    var image := set b | b in s :: f(b);
    forall b | b in s
      ensures f(b) != f(x)
    {
      if f(b) == f(x) { OffsetsDiffer(s, x, n, t, b, x); }
    }
    var others := Below(t) - {f(x)};
    SubsetSize(image, others);
  }

  /** The validator a set and turn length put in turn at a height. */
  function InturnAt(s: Snap, b: nat): Address
    requires s.turnLength > 0 && s.validators != []
  {
    s.validators[b / s.turnLength % |s.validators|]
  }

  ghost predicate ScheduledAt(s0: Snap, hist: seq<Header>, s: Snap, b: nat)
    requires s.turnLength > 0 && s.validators != []
  {
    s.setChangedAt < b && s0.number < b <= s0.number + |hist| ==> Sealer(s0, hist, b) == InturnAt(s, b)
  }

  /** Every block since the last switch was sealed in turn. */
  ghost predicate Scheduled(s0: Snap, hist: seq<Header>, s: Snap) {
    s.turnLength > 0 && s.validators != [] && forall b: nat :: ScheduledAt(s0, hist, s, b)
  }

  lemma DelayBelowRound(s: Snap)
    requires s.turnLength > 0 && s.validators != []
    ensures Delay(s) < |s.validators| * s.turnLength
  {
    var n, t := |s.validators|, s.turnLength;
    TimesIsProduct(n / 2 + 1, t);
    assert (n / 2 + 1) * t <= n * t;
  }

  /** Sealing in turn is never too recent: while the blocks since the last switch were sealed in turn,
      the validator in turn has room for its next one. */
  lemma InturnNeverRecent(s0: Snap, hist: seq<Header>, s: Snap)
    requires RecentState(s0, hist, s) && Increasing(s.validators) && Scheduled(s0, hist, s)
    ensures !SignRecently(s, InturnAt(s, s.number + 1))
  {
    var x, v := s.number + 1, InturnAt(s, s.number + 1);
    if v == SENTINEL {
      SentinelUncounted(s);
    } else {
      CountedIsSealed(s0, hist, s, v);
      var sealed := SealedBy(s0, hist, CountFloor(s), s.number, v);
      DelayBelowRound(s);
      forall b | b in sealed
        ensures b < x && x - b < |s.validators| * s.turnLength && b / s.turnLength % |s.validators| == x / s.turnLength % |s.validators|
      {
        assert ScheduledAt(s0, hist, s, b);
        DistinctAt(s.validators, b / s.turnLength % |s.validators|, x / s.turnLength % |s.validators|);
      }
      assert OneFamily(sealed, x, |s.validators|, s.turnLength);
      FewInRound(sealed, x, |s.validators|, s.turnLength);
    }
  }

  // ----- any header sealed in turn -----

  /** A set to seal from, now and after the pending switch. */
  predicate Stocked(s: Snap) {
    s.validators != [] && (s.pending.Some? ==> s.pending.value.validators != [])
  }

  /** What every state satisfies while every header is sealed in turn. */
  ghost predicate Turning(s0: Snap, hist: seq<Header>, s: Snap) {
    Scheduled(s0, hist, s) && Aligned(s) && Stocked(s)
  }

  /** The next block's header, validly sealed by the validator in turn and marked so; everything else
      about it is arbitrary. */
  predicate InturnHeader(c: Crypto, s: Snap, h: Header) {
    s.turnLength > 0 && s.validators != [] && h.number == s.number + 1 && h.parentHash == s.hash &&
    h.difficulty == DIFF_IN_TURN && VerifySealCoinbase(c.keccak, h) == Ok(InturnAt(s, s.number + 1))
  }

  /** Its attestation is absent, cannot be judged, or holds, checked where the source checks it: with
      the history entry that leaves already gone. */
  predicate AttestationFits(c: Crypto, s: Snap, h: Header) {
    h.extra.Some? && CheckAttestation(c, Residue(s), h.extra.value.attestation, h.number, h.time).Ok?
  }

  lemma InturnIsMember(s: Snap)
    requires s.turnLength > 0 && s.validators != []
    ensures InturnAt(s, s.number + 1) in s.validators && InturnValidator(s) == Some(InturnAt(s, s.number + 1))
  {
  }

  lemma SealedHeader(c: Crypto, h: Header, v: Address)
    requires VerifySealCoinbase(c.keccak, h) == Ok(v)
    ensures h.miner == v && LayoutOk(h)
  {
  }

  /** The checks after the history entry is gone come down to the attestation. */
  lemma LateIff(c: Crypto, s: Snap, h: Header)
    requires !SignRecently(Residue(s), h.miner) && h.difficulty == DIFF_IN_TURN && LayoutOk(h)
    ensures LateCheck(c, Residue(s), h, h.miner).Ok? <==> AttestationFits(c, s, h)
  {
  }

  lemma EarlyPasses(c: Crypto, s: Snap, h: Header)
    requires InturnHeader(c, s, h)
    ensures EarlyError(s, h, h.miner).None? && LayoutOk(h) && h.miner == InturnAt(s, s.number + 1)
  {
    SealedHeader(c, h, InturnAt(s, s.number + 1));
    InturnIsMember(s);
  }

  lemma VerdictIs(c: Crypto, s: Snap, h: Header)
    requires VerifySealCoinbase(c.keccak, h).Ok? && EarlyError(s, h, h.miner).None? && h.number == s.number + 1
    ensures ApplyHeader(c, s, h).Accepted? <==> LateCheck(c, Residue(s), h, h.miner).Ok?
  {
    var a, e := ApplyIs(c, s, h);
    assert Forget(s, h.number) == Residue(s);
  }

  /** Whatever header the validator in turn sends: while the blocks since the last switch were sealed in
      turn, it is accepted if and only if its attestation fits. */
  lemma InturnAcceptedIff(c: Crypto, s0: Snap, hist: seq<Header>, s: Snap, h: Header)
    requires RecentState(s0, hist, s) && Increasing(s.validators) && Scheduled(s0, hist, s) && InturnHeader(c, s, h)
    ensures ApplyHeader(c, s, h).Accepted? <==> AttestationFits(c, s, h)
  {
    InturnNeverRecent(s0, hist, s);
    EarlyPasses(c, s, h);
    ResidueKeepsCounts(s, h.miner);
    LateIff(c, s, h);
    VerdictIs(c, s, h);
  }

  // ----- kept by every accepted one -----

  lemma StockedStep(s: Snap, m: Move, t: Snap)
    requires Stocked(s) && Chains(s, m, t) && Announces(s, m, t)
    ensures Stocked(t)
  {
  }

  lemma ScheduledStep(s0: Snap, hist: seq<Header>, s: Snap, m: Move, t: Snap)
    requires Scheduled(s0, hist, s) && Stocked(t) && TurnsOk(t) && s.number == s0.number + |hist| && m.Take?
    requires Chains(s, m, t) && Announces(s, m, t) && m.header.miner == InturnAt(s, s.number + 1)
    ensures Scheduled(s0, hist + [m.header], t)
  {
    var longer := hist + [m.header];
    forall b: nat
      ensures ScheduledAt(s0, longer, t, b)
    {
      if b <= s.number { assert ScheduledAt(s0, hist, s, b); }
    }
  }

  lemma TurningStep(s0: Snap, hist: seq<Header>, s: Snap, m: Move, t: Snap)
    requires Turning(s0, hist, s) && RecentState(s0, hist, s) && m.Take? && Chains(s, m, t) && Announces(s, m, t)
    requires m.header.miner == InturnAt(s, s.number + 1)
    ensures Turning(s0, hist + [m.header], t)
  {
    AlignedStep(s, m, t);
    StockedStep(s, m, t);
    TurnsStep(s, m, t);
    ScheduledStep(s0, hist, s, m, t);
  }

  lemma TurningStart(s0: Snap)
    requires Fresh(s0) && Aligned(s0) && Stocked(s0)
    ensures Turning(s0, [], s0)
  {
  }

  // ----- over whole runs -----

  /** Header k is sealed in turn for the state it meets. */
  ghost predicate InturnIn(c: Crypto, s0: Snap, hs: seq<Header>, k: nat)
    requires k < |hs|
  {
    InturnHeader(c, Feed(c, s0, hs[..k]), hs[k])
  }

  ghost predicate FitsIn(c: Crypto, s0: Snap, hs: seq<Header>, k: nat)
    requires k < |hs|
  {
    AttestationFits(c, Feed(c, s0, hs[..k]), hs[k])
  }

  ghost predicate AllInturn(c: Crypto, s0: Snap, hs: seq<Header>) {
    AllLive(hs) && forall k: nat | k < |hs| :: InturnIn(c, s0, hs, k)
  }

  lemma RecentAfter(c: Crypto, s0: Snap, hs: seq<Header>)
    requires Fresh(s0) && AllAccepted(c, s0, hs) && AllLive(hs)
    ensures RecentState(s0, hs, Feed(c, s0, hs)) && Feed(c, s0, hs).number == s0.number + |hs|
  {
    var r := FeedIsRun(c, s0, hs);
    assert Traces(c, s0, hs, r, |hs|) && hs[..|hs|] == hs;
    RecentsAlways(r, |hs|);
  }

  lemma FeedOne(c: Crypto, s0: Snap, hs: seq<Header>, h: Header, t: Snap)
    requires AllAccepted(c, s0, hs) && ApplyHeader(c, Feed(c, s0, hs), h) == Accepted(t)
    ensures AllAccepted(c, s0, hs + [h]) && Feed(c, s0, hs + [h]) == t
  {
    assert (hs + [h])[..|hs|] == hs;
  }

  /** In turn and accepted so far; s is where that leads. */
  ghost predicate SoFar(c: Crypto, s0: Snap, hs: seq<Header>, s: Snap) {
    AllAccepted(c, s0, hs) && s == Feed(c, s0, hs) && Turning(s0, hs, s) && RecentState(s0, hs, s)
  }

  lemma SoFarJoin(c: Crypto, s0: Snap, hs: seq<Header>, s: Snap, h: Header)
    requires Fresh(s0) && SoFar(c, s0, hs, s) && AllLive(hs + [h])
    requires InturnHeader(c, s, h) && ApplyHeader(c, s, h).Accepted?
    ensures SoFar(c, s0, hs + [h], ApplyHeader(c, s, h).snap)
  {
    var t := ApplyHeader(c, s, h).snap;
    var m := ApplyIsMove(c, s, h);
    assert m.Take? && m.header == h by { assert HeaderOf(m)[0] == h; }
    EarlyPasses(c, s, h);
    TurningStep(s0, hs, s, m, t);
    FeedOne(c, s0, hs, h, t);
    RecentAfter(c, s0, hs + [h]);
  }

  lemma SoFarIff(c: Crypto, s0: Snap, hs: seq<Header>, s: Snap, h: Header)
    requires SoFar(c, s0, hs, s) && InturnHeader(c, s, h)
    ensures ApplyHeader(c, s, h).Accepted? <==> AttestationFits(c, s, h)
  {
    InturnAcceptedIff(c, s0, hs, s, h);
  }

  lemma SamePlace(c: Crypto, s0: Snap, hs: seq<Header>, n: nat, k: nat)
    requires k < n <= |hs|
    ensures InturnIn(c, s0, hs[..n], k) == InturnIn(c, s0, hs, k) && FitsIn(c, s0, hs[..n], k) == FitsIn(c, s0, hs, k)
  {
    assert hs[..n][..k] == hs[..k];
  }

  lemma InturnPrefix(c: Crypto, s0: Snap, hs: seq<Header>)
    requires hs != [] && AllInturn(c, s0, hs)
    ensures var n := |hs| - 1;
            AllInturn(c, s0, hs[..n]) && InturnHeader(c, Feed(c, s0, hs[..n]), hs[n])
            && forall k: nat | k < n :: FitsIn(c, s0, hs[..n], k) == FitsIn(c, s0, hs, k)
  {
    var n := |hs| - 1;
    assert InturnIn(c, s0, hs, n);
    forall k: nat | k < n
      ensures InturnIn(c, s0, hs[..n], k) && FitsIn(c, s0, hs[..n], k) == FitsIn(c, s0, hs, k)
    {
      assert InturnIn(c, s0, hs, k);
      SamePlace(c, s0, hs, n, k);
    }
  }

  ghost predicate AllFit(c: Crypto, s0: Snap, hs: seq<Header>) {
    forall k: nat | k < |hs| :: FitsIn(c, s0, hs, k)
  }

  lemma {:induction false} TakenAtMost(c: Crypto, s0: Snap, hs: seq<Header>)
    ensures |Taken(c, s0, hs)| <= |hs|
  {
    if hs != [] { TakenAtMost(c, s0, hs[..|hs| - 1]); }
  }

  /** A fully accepted list ends in an accepted header after a fully accepted list. */
  lemma AcceptedLast(c: Crypto, s0: Snap, hs: seq<Header>)
    requires hs != []
    ensures var n := |hs| - 1;
            AllAccepted(c, s0, hs) <==> AllAccepted(c, s0, hs[..n]) && ApplyHeader(c, Feed(c, s0, hs[..n]), hs[n]).Accepted?
  {
    var n := |hs| - 1;
    TakenAtMost(c, s0, hs[..n]);
    var last := if ApplyHeader(c, Feed(c, s0, hs[..n]), hs[n]).Accepted? then [hs[n]] else [];
    LastJoins(Taken(c, s0, hs[..n]), last, hs);
  }

  lemma LastJoins(init: seq<Header>, last: seq<Header>, hs: seq<Header>)
    requires hs != [] && |init| <= |hs| - 1 && (last == [] || last == [hs[|hs| - 1]])
    ensures init + last == hs <==> init == hs[..|hs| - 1] && last != []
  {
    assert hs == hs[..|hs| - 1] + [hs[|hs| - 1]];
    if init + last == hs && last != [] {
      assert init == (init + last)[..|hs| - 1];
    }
  }

  /** The honest schedule over whole runs, through any number of epochs and set switches: if every header
      is sealed in turn, then all are accepted if and only if every attestation fits. */
  lemma {:induction false} InturnRunAcceptedIff(c: Crypto, s0: Snap, hs: seq<Header>)
    requires Fresh(s0) && Aligned(s0) && Stocked(s0) && AllInturn(c, s0, hs)
    ensures AllAccepted(c, s0, hs) <==> AllFit(c, s0, hs)
    ensures AllAccepted(c, s0, hs) ==> SoFar(c, s0, hs, Feed(c, s0, hs))
  {
    if hs == [] {
      TurningStart(s0);
      RecentAfter(c, s0, hs);
    } else {
      var n := |hs| - 1;
      var init, s := hs[..n], Feed(c, s0, hs[..n]);
      InturnPrefix(c, s0, hs);
      InturnRunAcceptedIff(c, s0, init);
      AcceptedLast(c, s0, hs);
      FitsLast(c, s0, hs);
      if AllAccepted(c, s0, init) {
        SoFarIff(c, s0, init, s, hs[n]);
        if ApplyHeader(c, s, hs[n]).Accepted? {
          assert init + [hs[n]] == hs;
          SoFarJoin(c, s0, init, s, hs[n]);
          FeedOne(c, s0, init, hs[n], ApplyHeader(c, s, hs[n]).snap);
        }
      }
    }
  }

  lemma FitsLast(c: Crypto, s0: Snap, hs: seq<Header>)
    requires hs != [] && AllInturn(c, s0, hs)
    ensures var n := |hs| - 1;
            AllFit(c, s0, hs) <==> AllFit(c, s0, hs[..n]) && AttestationFits(c, Feed(c, s0, hs[..n]), hs[n])
  {
    var n := |hs| - 1;
    InturnPrefix(c, s0, hs);
    assert AllFit(c, s0, hs) ==> FitsIn(c, s0, hs, n);
    if AllFit(c, s0, hs) {
      forall k: nat | k < n
        ensures FitsIn(c, s0, hs[..n], k)
      {
        assert FitsIn(c, s0, hs, k);
      }
    }
    if AllFit(c, s0, hs[..n]) && AttestationFits(c, Feed(c, s0, hs[..n]), hs[n]) {
      forall k: nat | k < |hs|
        ensures FitsIn(c, s0, hs, k)
      {
        if k < n { assert FitsIn(c, s0, hs[..n], k); }
      }
    }
  }
}
