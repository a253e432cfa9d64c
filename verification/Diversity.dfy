/** Sealer diversity: the recency rule forces many distinct sealers into every window. */
module Diversity {
  import opened Base
  import opened Vote
  import opened Headers
  import opened Snapshot
  import opened Runs
  import opened TwoChain
  import opened Recents

  // ----- pigeonhole on sequences of sealers -----

  function Occ(w: seq<Address>, v: Address): nat {
    if w == [] then 0 else Occ(w[..|w| - 1], v) + if w[|w| - 1] == v then 1 else 0
  }

  function Without(w: seq<Address>, v: Address): seq<Address> {
    if w == [] then []
    else Without(w[..|w| - 1], v) + if w[|w| - 1] == v then [] else [w[|w| - 1]]
  }

  lemma {:induction false} WithoutSize(w: seq<Address>, v: Address)
    ensures |w| == Occ(w, v) + |Without(w, v)|
  {
    if w != [] { WithoutSize(w[..|w| - 1], v); }
  }

  lemma {:induction false} WithoutOcc(w: seq<Address>, v: Address, u: Address)
    requires u != v
    ensures Occ(Without(w, v), u) == Occ(w, u)
  {
    if w != [] {
      var init, x := w[..|w| - 1], w[|w| - 1];
      WithoutOcc(init, v, u);
      var rest := Without(init, v);
      if x != v {
        assert Without(w, v) == rest + [x];
        assert (rest + [x])[..|rest|] == rest;
      } else {
        assert Without(w, v) == rest;
      }
    }
  }

  lemma {:induction false} WithoutMembers(w: seq<Address>, v: Address)
    ensures forall u | u in Without(w, v) :: u in w && u != v
  {
    if w != [] {
      WithoutMembers(w[..|w| - 1], v);
      assert w == w[..|w| - 1] + [w[|w| - 1]];
    }
  }

  ghost predicate AtMost(w: seq<Address>, v: Address, t: nat) {
    Occ(w, v) <= t
  }

  lemma WithoutAtMost(w: seq<Address>, v: Address, vs: set<Address>, t: nat)
    requires forall u | u in vs :: AtMost(w, u, t)
    ensures forall u | u in vs - {v} :: AtMost(Without(w, v), u, t)
  {
    forall u | u in vs - {v}
      ensures AtMost(Without(w, v), u, t)
    {
      assert AtMost(w, u, t);
      WithoutOcc(w, v, u);
    }
  }

  /** A sequence over a set in which no element occurs more than t times. */
  lemma {:induction false} Pigeonhole(w: seq<Address>, vs: set<Address>, t: nat)
    requires forall x | x in w :: x in vs
    requires forall v | v in vs :: AtMost(w, v, t)
    ensures |w| <= Times(|vs|, t)
    decreases |vs|
  {
    if w != [] {
      var v := w[0];
      assert AtMost(w, v, t);
      WithoutSize(w, v);
      WithoutMembers(w, v);
      WithoutAtMost(w, v, vs, t);
      Pigeonhole(Without(w, v), vs - {v}, t);
    }
  }

  /** If each element occurs fewer than t times before each of its occurrences, it occurs at most t
      times in all. */
  lemma {:induction false} OccBounded(w: seq<Address>, v: Address, t: nat)
    requires forall j | 0 <= j < |w| :: Occ(w[..j], w[j]) < t
    ensures Occ(w, v) <= t
  {
    if w != [] {
      var init := w[..|w| - 1];
      forall j | 0 <= j < |init|
        ensures Occ(init[..j], init[j]) < t
      {
        assert init[..j] == w[..j];
      }
      OccBounded(init, v, t);
      assert Occ(w[..|w| - 1], w[|w| - 1]) < t;
    }
  }

  /** Sealers of the blocks (a, a + len] of the walked chain. */
  function WindowSealers(s0: Snap, hist: seq<Header>, a: nat, len: nat): (w: seq<Address>)
    requires s0.number <= a && a + len <= s0.number + |hist|
    ensures |w| == len
  {
    seq(len, i requires 0 <= i < len => Sealer(s0, hist, a + 1 + i))
  }

  lemma SealedByStep(s0: Snap, hist: seq<Header>, a: nat, b: nat, v: Address)
    requires a < b
    ensures |SealedBy(s0, hist, a, b, v)| == |SealedBy(s0, hist, a, b - 1, v)| + if SealedAt(s0, hist, b, v) then 1 else 0
  {
    var before := SealedBy(s0, hist, a, b - 1, v);
    assert SealedBy(s0, hist, a, b, v) == if SealedAt(s0, hist, b, v) then before + {b} else before;
  }

  /** Occurrences in a window are the blocks of the full history's count. */
  lemma {:induction false} OccIsSealedBy(s0: Snap, hist: seq<Header>, a: nat, len: nat, v: Address)
    requires s0.number <= a && a + len <= s0.number + |hist|
    ensures Occ(WindowSealers(s0, hist, a, len), v) == |SealedBy(s0, hist, a, a + len, v)|
  {
    if len == 0 {
      assert SealedBy(s0, hist, a, a, v) == {};
    } else {
      OccIsSealedBy(s0, hist, a, len - 1, v);
      var w := WindowSealers(s0, hist, a, len);
      assert w[..len - 1] == WindowSealers(s0, hist, a, len - 1);
      SealedByStep(s0, hist, a, a + len, v);
    }
  }

  // ----- the rule at the block before -----

  /** The move that walked block b. */
  lemma {:induction false} TakeIndex(r: Run, k: nat, b: nat) returns (i: nat)
    requires IsRun(r) && k <= |r.moves| && r.states[0].number < b <= r.states[k].number
    ensures i < k && r.moves[i].Take? && r.states[i].number == b - 1 && r.states[i + 1].number == b
  {
    assert k > 0;
    assert ChainsAt(r, k - 1);
    if r.states[k - 1].number < b {
      i := k - 1;
    } else {
      i := TakeIndex(r, k - 1, b);
    }
  }

  lemma {:induction false} ChangedBelow(r: Run, k: nat)
    requires IsRun(r) && k <= |r.moves|
    ensures r.states[k].setChangedAt <= r.states[k].number
  {
    if k > 0 {
      ChangedBelow(r, k - 1);
      assert ChainsAt(r, k - 1) && AnnouncesAt(r, k - 1);
    }
  }

  lemma {:induction false} ChangedMonotone(r: Run, j: nat, k: nat)
    requires IsRun(r) && j <= k <= |r.moves|
    ensures r.states[j].setChangedAt <= r.states[k].setChangedAt
  {
    if j < k {
      ChangedMonotone(r, j, k - 1);
      ChangedBelow(r, k - 1);
      assert ChainsAt(r, k - 1) && AnnouncesAt(r, k - 1);
    }
  }

  /** No switch above block a: every state from a on runs with the same set and turn length. */
  lemma {:induction false} NoSwitch(r: Run, j: nat, k: nat, a: nat)
    requires IsRun(r) && j <= k <= |r.moves| && r.states[k].setChangedAt <= a <= r.states[j].number
    ensures SameEpochs(r.states[j], r.states[k])
    decreases k - j
  {
    if j < k {
      assert ChainsAt(r, j) && AnnouncesAt(r, j);
      ChangedMonotone(r, j + 1, k);
      NoSwitch(r, j + 1, k, a);
    }
  }

  /** The sealer of block b had sealed fewer than turnLength blocks after block a. */
  lemma EarlierFew(r: Run, k: nat, a: nat, b: nat, v: Address)
    requires IsRun(r) && k <= |r.moves| && AllLive(Walked(r, k)) && v != SENTINEL
    requires r.states[0].number <= a < b <= r.states[k].number && b <= a + Delay(r.states[k]) + 1
    requires r.states[k].setChangedAt <= a && FinalizedNumber(r.states[k]) <= a
    requires SealedAt(r.states[0], Walked(r, k), b, v)
    ensures |SealedBy(r.states[0], Walked(r, k), a, b - 1, v)| < r.states[k].turnLength
  {
    var i := TakeIndex(r, k, b);
    SealerWas(r, i, k, b, v);
    RefusedCount(r, i, k, v);
    FloorBelow(r, i, k, a);
    FewAbove(r.states[0], Walked(r, k), r.states[i], a, v);
  }

  lemma SealerWas(r: Run, i: nat, k: nat, b: nat, v: Address)
    requires IsRun(r) && i < k <= |r.moves| && r.moves[i].Take? && r.states[i].number == b - 1
    requires SealedAt(r.states[0], Walked(r, k), b, v)
    ensures r.moves[i].header.miner == v && Walked(r, i) <= Walked(r, k)
    ensures r.states[i].number == r.states[0].number + |Walked(r, i)|
  {
    MoveHeader(r, i, k);
  }

  lemma FewAbove(s0: Snap, hist: seq<Header>, s: Snap, a: nat, v: Address)
    requires |SealedBy(s0, hist, CountFloor(s), s.number, v)| < s.turnLength && CountFloor(s) <= a
    ensures |SealedBy(s0, hist, a, s.number, v)| < s.turnLength
  {
    SealedByShrinks(s0, hist, CountFloor(s), a, s.number, v);
  }

  lemma FloorBelow(r: Run, i: nat, k: nat, a: nat)
    requires IsRun(r) && i <= k <= |r.moves|
    requires a <= r.states[i].number <= a + Delay(r.states[k])
    requires r.states[k].setChangedAt <= a && FinalizedNumber(r.states[k]) <= a
    ensures CountFloor(r.states[i]) <= a && r.states[i].turnLength == r.states[k].turnLength
  {
    NoSwitch(r, i, k, a);
    FinalizedMonotone(r, i, k);
    ChangedMonotone(r, i, k);
  }

  lemma SealedByShrinks(s0: Snap, hist: seq<Header>, low: nat, a: nat, high: nat, v: Address)
    requires low <= a
    ensures |SealedBy(s0, hist, a, high, v)| <= |SealedBy(s0, hist, low, high, v)|
  {
    SubsetSize(SealedBy(s0, hist, a, high, v), SealedBy(s0, hist, low, high, v));
  }

  /** The header a move took is the block it produced. */
  lemma MoveHeader(r: Run, i: nat, k: nat)
    requires IsRun(r) && i < k <= |r.moves| && r.moves[i].Take?
    ensures var b := r.states[i + 1].number;
            r.states[0].number < b <= r.states[0].number + |Walked(r, k)| &&
            Sealer(r.states[0], Walked(r, k), b) == r.moves[i].header.miner
    ensures Walked(r, i) <= Walked(r, k) && r.states[i].number == r.states[0].number + |Walked(r, i)|
    ensures r.states[i].number + 1 == r.states[i + 1].number
  {
    SpineAlways(r, i);
    assert ChainsAt(r, i);
    WalkedPrefix(r, i + 1, k);
    assert Walked(r, i + 1) == Walked(r, i) + [r.moves[i].header];
  }

  /** A taken header's sealer was below the limit in the full history at that point. */
  lemma RefusedCount(r: Run, i: nat, k: nat, v: Address)
    requires IsRun(r) && i < k <= |r.moves| && AllLive(Walked(r, k)) && v != SENTINEL
    requires r.moves[i].Take? && r.moves[i].header.miner == v && Walked(r, i) <= Walked(r, k)
    requires r.states[i].number == r.states[0].number + |Walked(r, i)|
    ensures |SealedBy(r.states[0], Walked(r, k), CountFloor(r.states[i]), r.states[i].number, v)| < r.states[i].turnLength
  {
    var s0, part, hist, s := r.states[0], Walked(r, i), Walked(r, k), r.states[i];
    assert AllLive(part) by { assert forall j | 0 <= j < |part| :: part[j] == hist[j]; }
    RecentsAlways(r, i);
    assert SealsAt(r, i);
    ResidueKeepsCounts(s, v);
    CountedIsSealed(s0, part, s, v);
    assert SealedBy(s0, hist, CountFloor(s), s.number, v) == SealedBy(s0, part, CountFloor(s), s.number, v) by {
      forall b: nat | b <= s.number
        ensures SealedAt(s0, hist, b, v) == SealedAt(s0, part, b, v)
      {
      }
    }
  }

  // ----- main result -----

  /** The window of (floor(n/2)+1)*turnLength blocks above block a ends at the tip, with no set switch
      among them and no finality reaching into them. */
  predicate QuietWindow(s0: Snap, s: Snap, a: nat) {
    s.validators != [] && s0.number <= a && s.number == a + Delay(s) + 1 && s.setChangedAt <= a && FinalizedNumber(s) <= a
  }

  /** Every block of a quiet window was sealed by a member of the one set in force. */
  lemma SealerIsMember(r: Run, k: nat, a: nat, j: nat)
    requires IsRun(r) && k <= |r.moves| && QuietWindow(r.states[0], r.states[k], a) && j <= Delay(r.states[k])
    ensures r.states[k].number == r.states[0].number + |Walked(r, k)|
    ensures Sealer(r.states[0], Walked(r, k), a + 1 + j) in r.states[k].validators
  {
    SpineAlways(r, k);
    var i := TakeIndex(r, k, a + 1 + j);
    MoveHeader(r, i, k);
    assert SealsAt(r, i);
    NoSwitch(r, i, k, a);
  }

  lemma WindowCounts(r: Run, k: nat, a: nat, j: nat)
    requires IsRun(r) && k <= |r.moves| && AllLive(Walked(r, k)) && QuietWindow(r.states[0], r.states[k], a) && SENTINEL !in r.states[k].validators && j <= Delay(r.states[k])
    ensures r.states[k].number == r.states[0].number + |Walked(r, k)|
    ensures var w := WindowSealers(r.states[0], Walked(r, k), a, Delay(r.states[k]) + 1);
            Occ(w[..j], w[j]) < r.states[k].turnLength
  {
    SealerIsMember(r, k, a, j);
    var s0, hist := r.states[0], Walked(r, k);
    var w := WindowSealers(s0, hist, a, Delay(r.states[k]) + 1);
    EarlierFew(r, k, a, a + 1 + j, w[j]);
    OccIsSealedBy(s0, hist, a, j, w[j]);
    assert w[..j] == WindowSealers(s0, hist, a, j);
  }

  /** In any run, (floor(n/2)+1)*turnLength consecutive walked blocks of a quiet window are sealed by
      at least floor(n/2)+1 distinct validators, unless the all-zero address is a validator. */
  lemma SealerDiversity(r: Run, k: nat, a: nat)
    requires IsRun(r) && k <= |r.moves| && AllLive(Walked(r, k)) && QuietWindow(r.states[0], r.states[k], a) && SENTINEL !in r.states[k].validators
    ensures r.states[k].number == r.states[0].number + |Walked(r, k)|
    ensures var s := r.states[k];
            var w := WindowSealers(r.states[0], Walked(r, k), a, Delay(s) + 1);
            |w| == (|s.validators| / 2 + 1) * s.turnLength && |set x | x in w| >= |s.validators| / 2 + 1
  {
    var s := r.states[k];
    WindowHeader(r, k, a, 0);
    RunTurns(r, k);
    var w := WindowSealers(r.states[0], Walked(r, k), a, Delay(s) + 1);
    forall j: nat | j < |w|
      ensures FewBefore(w, j, s.turnLength)
    {
      WindowCounts(r, k, a, j);
    }
    EnoughInWindow(w, |s.validators| / 2 + 1, s.turnLength);
  }

  ghost predicate FewBefore(w: seq<Address>, j: nat, t: nat)
    requires j < |w|
  {
    Occ(w[..j], w[j]) < t
  }

  lemma EnoughInWindow(w: seq<Address>, need: nat, t: nat)
    requires t > 0 && |w| == Times(need, t) && forall j: nat | j < |w| :: FewBefore(w, j, t)
    ensures |w| == need * t && |set x | x in w| >= need
  {
    forall j | 0 <= j < |w|
      ensures Occ(w[..j], w[j]) < t
    {
      assert FewBefore(w, j, t);
    }
    DistinctEnough(w, t);
    EnoughSealers(|set x | x in w|, need, t);
    TimesIsProduct(need, t);
  }

  lemma RunTurns(r: Run, k: nat)
    requires IsRun(r) && k <= |r.moves| && AllLive(Walked(r, k))
    ensures r.states[k].turnLength > 0
  {
    RecentsAlways(r, k);
  }

  lemma WindowHeader(r: Run, k: nat, a: nat, j: nat)
    requires IsRun(r) && k <= |r.moves| && r.states[0].number <= a && a + j < r.states[k].number
    ensures r.states[k].number == r.states[0].number + |Walked(r, k)|
    ensures var i := a + j - r.states[0].number;
            i < |Walked(r, k)| && Walked(r, k)[i].number == a + 1 + j &&
            Sealer(r.states[0], Walked(r, k), a + 1 + j) == Walked(r, k)[i].miner
  {
    SpineAlways(r, k);
    assert LinkedAt(r.states[0], Walked(r, k), a + j - r.states[0].number);
  }

  lemma DistinctEnough(w: seq<Address>, t: nat)
    requires forall j | 0 <= j < |w| :: Occ(w[..j], w[j]) < t
    ensures |w| <= Times(|set x | x in w|, t)
  {
    var vs := set x | x in w;
    forall v | v in vs
      ensures AtMost(w, v, t)
    {
      OccBounded(w, v, t);
    }
    Pigeonhole(w, vs, t);
  }

  lemma {:induction false} EnoughSealers(found: nat, need: nat, t: nat)
    requires t > 0 && Times(need, t) <= Times(found, t)
    ensures need <= found
  {
    if need > 0 && found > 0 {
      EnoughSealers(found - 1, need - 1, t);
    }
  }
}
