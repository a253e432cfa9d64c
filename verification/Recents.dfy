/** The pruned sealer history answers as the full history, and what that forces about sealers. */
module Recents {
  import opened Base
  import opened Vote
  import opened Headers
  import opened Snapshot
  import opened Runs
  import opened TwoChain

  function Sealer(s0: Snap, hist: seq<Header>, b: nat): Address
    requires s0.number < b <= s0.number + |hist|
  {
    hist[b - s0.number - 1].miner
  }

  predicate SealedAt(s0: Snap, hist: seq<Header>, b: nat, v: Address) {
    s0.number < b <= s0.number + |hist| && Sealer(s0, hist, b) == v
  }

  /** Blocks above `low`, up to `high`, that v sealed: the full history's answer. */
  ghost function SealedBy(s0: Snap, hist: seq<Header>, low: nat, high: nat, v: Address): set<nat> {
    set b: nat | low < b <= high && SealedAt(s0, hist, b, v)
  }

  function Max(a: nat, b: nat): nat { if a < b then b else a }

  /** Below this block the rules no longer count a sealed block. */
  function CountFloor(s: Snap): nat {
    Max(LeftBound(s), Max(FinalizedNumber(s), s.setChangedAt))
  }

  ghost predicate EntryOk(s0: Snap, hist: seq<Header>, s: Snap, b: nat)
    requires b in s.recents
  {
    if b < MAX_NUMBER then b > s.setChangedAt && b > FinalizedNumber(s) && SealedAt(s0, hist, b, s.recents[b])
    else s.recents[b] == SENTINEL
  }

  ghost predicate Present(s0: Snap, hist: seq<Header>, s: Snap, b: nat) {
    s0.number < b <= s0.number + |hist| && CountFloor(s) < b ==> b in s.recents
  }

  ghost predicate TurnsOk(s: Snap) {
    0 < s.turnLength <= 255 && (s.pending.Some? ==> 0 < s.pending.value.turnLength <= 255) && s.setChangedAt <= s.number
  }

  ghost predicate RecentState(s0: Snap, hist: seq<Header>, s: Snap) {
    TurnsOk(s) && s.number == s0.number + |hist| && s.number < MAX_NUMBER &&
    (forall b: nat | b in s.recents :: EntryOk(s0, hist, s, b)) &&
    (forall b: nat :: Present(s0, hist, s, b))
  }

  // ----- preserved by every move -----

  lemma TurnsStep(s: Snap, m: Move, t: Snap)
    requires TurnsOk(s) && Chains(s, m, t) && Announces(s, m, t)
    ensures TurnsOk(t)
  {
  }

  /** The key that leaves is the window's left bound, which is never counted. */
  lemma ResidueKeys(s: Snap, b: nat)
    requires s.number < MAX_NUMBER
    ensures b in Residue(s).recents ==> b in s.recents && Residue(s).recents[b] == s.recents[b]
    ensures b in s.recents && b > LeftBound(s) ==> b in Residue(s).recents
  {
  }

  lemma DropStep(s0: Snap, hist: seq<Header>, s: Snap, t: Snap)
    requires RecentState(s0, hist, s) && t.recents == Residue(s).recents
    requires TurnsOk(t) && t.number == s.number && t.attestation == s.attestation && SameEpochs(s, t)
    ensures RecentState(s0, hist, t)
  {
    assert CountFloor(t) == CountFloor(s);
    forall b: nat | b in t.recents
      ensures EntryOk(s0, hist, t, b)
    {
      ResidueKeys(s, b);
      assert EntryOk(s0, hist, s, b);
    }
    forall b: nat
      ensures Present(s0, hist, t, b)
    {
      ResidueKeys(s, b);
      assert Present(s0, hist, s, b);
    }
  }

  lemma SealStep(s0: Snap, hist: seq<Header>, s: Snap, h: Header, t: Snap)
    requires RecentState(s0, hist, s) && h.number == s.number + 1 == t.number && h.number < MAX_NUMBER
    requires SameEpochs(s, t) && TurnsOk(t) && FinalizedNumber(s) <= FinalizedNumber(t)
    requires t.recents == PruneFinalized(Residue(s).recents[h.number := h.miner], FinalizedNumber(t))
    ensures RecentState(s0, hist + [h], t)
  {
    var longer := hist + [h];
    assert Delay(t) == Delay(s);
    forall b: nat | b in t.recents
      ensures EntryOk(s0, longer, t, b)
    {
      if b != h.number {
        ResidueKeys(s, b);
        assert EntryOk(s0, hist, s, b);
      }
    }
    forall b: nat
      ensures Present(s0, longer, t, b)
    {
      ResidueKeys(s, b);
      assert Present(s0, hist, s, b);
    }
  }

  lemma SwitchStep(s0: Snap, hist: seq<Header>, h: Header, t: Snap)
    requires t.number == h.number == s0.number + |hist| + 1 < MAX_NUMBER && TurnsOk(t) && t.setChangedAt == h.number
    requires t.recents == map[EpochKey(h.number) := SENTINEL]
    ensures RecentState(s0, hist + [h], t)
  {
    assert EpochKey(h.number) >= MAX_NUMBER;
  }

  lemma {:induction false} RecentsAlways(r: Run, k: nat)
    requires IsRun(r) && k <= |r.moves| && AllLive(Walked(r, k))
    ensures RecentState(r.states[0], Walked(r, k), r.states[k])
  {
    if k > 0 {
      var s0, s, m, t := r.states[0], r.states[k - 1], r.moves[k - 1], r.states[k];
      var hist := Walked(r, k - 1);
      assert Walked(r, k) == hist + HeaderOf(m);
      assert AllLive(hist) by { assert forall i | 0 <= i < |hist| :: hist[i] == Walked(r, k)[i]; }
      RecentsAlways(r, k - 1);
      FinalityRises(r, k - 1);
      assert ChainsAt(r, k - 1) && AnnouncesAt(r, k - 1) && SealsAt(r, k - 1);
      TurnsStep(s, m, t);
      if m.Take? {
        var h := m.header;
        assert Walked(r, k)[|hist|] == h;
        assert Live(h);
        if Switches(PendingAt(s, h, m.extra), h.number) {
          SwitchStep(s0, hist, h, t);
        } else {
          SealStep(s0, hist, s, h, t);
        }
      } else {
        assert Walked(r, k) == hist;
        KeptStep(s0, hist, r, k);
      }
    }
  }

  lemma KeptStep(s0: Snap, hist: seq<Header>, r: Run, k: nat)
    requires IsRun(r) && 0 < k <= |r.moves| && !r.moves[k - 1].Take?
    requires RecentState(s0, hist, r.states[k - 1]) && TurnsOk(r.states[k])
    ensures RecentState(s0, hist, r.states[k])
  {
    var s, m, t := r.states[k - 1], r.moves[k - 1], r.states[k];
    assert ChainsAt(r, k - 1) && AnnouncesAt(r, k - 1) && VotesAt(r, k - 1) && SealsAt(r, k - 1);
    if m.Drop? {
      DropStep(s0, hist, s, t);
    } else {
      assert CountFloor(t) == CountFloor(s);
      assert forall b: nat | b in t.recents :: EntryOk(s0, hist, s, b) ==> EntryOk(s0, hist, t, b);
      assert forall b: nat :: Present(s0, hist, s, b) ==> Present(s0, hist, t, b);
    }
  }

  // ----- main result: pruned history refines full history -----

  lemma CountedIsSealed(s0: Snap, hist: seq<Header>, s: Snap, v: Address)
    requires RecentState(s0, hist, s) && v != SENTINEL
    ensures SeenBlocks(s, v) == SealedBy(s0, hist, CountFloor(s), s.number, v)
  {
    forall b: nat
      ensures b in SeenBlocks(s, v) <==> b in SealedBy(s0, hist, CountFloor(s), s.number, v)
    {
      assert Present(s0, hist, s, b);
      if b in s.recents { assert EntryOk(s0, hist, s, b); }
    }
  }

  /** The sentinel's own blocks are in the history but never counted. */
  lemma SentinelUncounted(s: Snap)
    ensures !SignRecently(s, SENTINEL)
  {
    assert SeenBlocks(s, SENTINEL) == {};
  }

  /** At every state of every live run, at height N: `sign_recently(v)` holds if and only if v is not the
      all-zero address and sealed at least turnLength walked blocks n with
      max(N - minerHistoryCheckLen, finalized number, last activation block) < n <= N. */
  lemma SignRecentlyRefines(r: Run, k: nat, v: Address)
    requires IsRun(r) && k <= |r.moves| && AllLive(Walked(r, k))
    ensures var s := r.states[k];
            SignRecently(s, v) <==>
            v != SENTINEL && |SealedBy(r.states[0], Walked(r, k), CountFloor(s), s.number, v)| >= s.turnLength
  {
    RecentsAlways(r, k);
    if v == SENTINEL {
      SentinelUncounted(r.states[k]);
    } else {
      CountedIsSealed(r.states[0], Walked(r, k), r.states[k], v);
    }
  }

  /** The same for the client itself, whatever headers it was fed, in terms of the ones it accepted. */
  lemma ClientRefines(c: Crypto, s0: Snap, hs: seq<Header>, v: Address)
    requires Fresh(s0) && AllLive(hs)
    ensures var s, hist := Feed(c, s0, hs), Taken(c, s0, hs);
            SignRecently(s, v) <==> v != SENTINEL && |SealedBy(s0, hist, CountFloor(s), s.number, v)| >= s.turnLength
  {
    var r := FeedIsRun(c, s0, hs);
    assert Traces(c, s0, hs, r, |hs|) && hs[..|hs|] == hs;
    HeadersLive(c, s0, hs);
    SignRecentlyRefines(r, |hs|, v);
  }

  // ----- the history stays small -----

  /** Real entries reach back no further than minerHistoryCheckLen blocks, the one about to leave included. */
  ghost predicate TightAt(s: Snap, b: nat) {
    b in s.recents && b < MAX_NUMBER ==> b + Delay(s) >= s.number
  }

  ghost predicate Tight(s: Snap) {
    forall b: nat :: TightAt(s, b)
  }

  lemma TightDrop(s: Snap, t: Snap)
    requires Tight(s) && SameEpochs(s, t) && t.number == s.number && (t.recents == s.recents || t.recents == Residue(s).recents)
    ensures Tight(t)
  {
    forall b: nat
      ensures TightAt(t, b)
    {
      assert TightAt(s, b);
    }
  }

  lemma TightSeal(s: Snap, h: Header, t: Snap)
    requires Tight(s) && SameEpochs(s, t) && h.number == s.number + 1 == t.number && s.number < MAX_NUMBER
    requires t.recents == PruneFinalized(Residue(s).recents[h.number := h.miner], FinalizedNumber(t))
    ensures Tight(t)
  {
    assert Delay(t) == Delay(s);
    forall b: nat
      ensures TightAt(t, b)
    {
      assert TightAt(s, b);
    }
  }

  lemma TightSwitch(h: Header, t: Snap)
    requires t.number == h.number < MAX_NUMBER && t.recents == map[EpochKey(h.number) := SENTINEL]
    ensures Tight(t)
  {
    assert EpochKey(h.number) >= MAX_NUMBER;
  }

  /** In every state of every live run the history holds no block older than the window that is counted. */
  lemma {:induction false} TightAlways(r: Run, k: nat)
    requires IsRun(r) && k <= |r.moves| && AllLive(Walked(r, k))
    ensures Tight(r.states[k])
  {
    if k > 0 {
      var s, m, t := r.states[k - 1], r.moves[k - 1], r.states[k];
      var hist := Walked(r, k - 1);
      assert Walked(r, k) == hist + HeaderOf(m);
      assert AllLive(hist) by { assert forall i | 0 <= i < |hist| :: hist[i] == Walked(r, k)[i]; }
      TightAlways(r, k - 1);
      assert ChainsAt(r, k - 1) && AnnouncesAt(r, k - 1) && SealsAt(r, k - 1);
      if m.Take? {
        assert Walked(r, k)[|hist|] == m.header;
        assert Live(m.header);
        if Switches(PendingAt(s, m.header, m.extra), m.header.number) {
          TightSwitch(m.header, t);
        } else {
          TightSeal(s, m.header, t);
        }
      } else {
        TightDrop(s, t);
      }
    }
  }
}
