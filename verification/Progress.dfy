/** When a call succeeds, and with which error it stops otherwise: appending, booting, recovering, resyncing. */
module Progress {
  import opened Base
  import opened Vote
  import opened Headers
  import opened Snapshot
  import opened Runs
  import opened Validators
  import opened Finality
  import opened Sync
  import opened Engine
  import opened Node
  import opened Verdict
  import VoteSets

  // ----- appending -----

  /** The block header i is checked against. */
  function Above(chain: seq<Block>, hs: seq<Header>, i: nat): Option<Block>
    requires i < |hs|
  {
    if i > 0 then Some(BlockOf(hs[i - 1])) else if chain == [] then None else Some(chain[|chain| - 1])
  }

  predicate OnTime(chain: seq<Block>, hs: seq<Header>, i: nat)
    requires i < |hs|
  {
    Above(chain, hs, i).Some? ==> CascadingOk(Above(chain, hs, i).value.milli, Above(chain, hs, i).value.gasLimit, hs[i])
  }

  /** Header i passes against its parent and against the snapshot the headers before it lead to. */
  ghost predicate PassesAt(c: Crypto, chain: seq<Block>, s: Snap, hs: seq<Header>, i: nat)
    requires i < |hs|
  {
    OnTime(chain, hs, i) && ApplyHeader(c, Feed(c, s, hs[..i]), hs[i]).Accepted?
  }

  ghost predicate PassBelow(c: Crypto, chain: seq<Block>, s: Snap, hs: seq<Header>, n: nat)
    requires n <= |hs|
  {
    forall i: nat | i < n :: PassesAt(c, chain, s, hs, i)
  }

  /** Header n fails with this error. */
  ghost predicate FailsAt(c: Crypto, chain: seq<Block>, s: Snap, hs: seq<Header>, n: nat, e: SyncError)
    requires n < |hs|
  {
    var a := ApplyHeader(c, Feed(c, s, hs[..n]), hs[n]);
    if !OnTime(chain, hs, n) then e == Cascading else a.Rejected? && e == Refused(a.error)
  }

  /** Any state after any steps, the last one outermost. */
  ghost function Fold(step: (Snap, Header) -> Snap, s: Snap, hs: seq<Header>): Snap {
    if hs == [] then s else step(Fold(step, s, hs[..|hs| - 1]), hs[|hs| - 1])
  }

  lemma {:induction false} FoldFront(step: (Snap, Header) -> Snap, s: Snap, hs: seq<Header>)
    requires hs != []
    ensures Fold(step, s, hs) == Fold(step, step(s, hs[0]), hs[1..])
  {
    var n := |hs| - 1;
    if n > 0 {
      FoldFront(step, s, hs[..n]);
      assert hs[..n][1..] == hs[1..][..n - 1];
    } else {
      assert hs[..0] == [] && hs[1..] == [];
    }
  }

  ghost function Stepper(c: Crypto): (Snap, Header) -> Snap {
    (x: Snap, h: Header) => ApplyHeader(c, x, h).snap
  }

  lemma {:induction false} FeedIsFold(c: Crypto, s: Snap, hs: seq<Header>)
    ensures Feed(c, s, hs) == Fold(Stepper(c), s, hs)
  {
    if hs != [] { FeedIsFold(c, s, hs[..|hs| - 1]); }
  }

  lemma FeedFront(c: Crypto, s: Snap, hs: seq<Header>)
    requires hs != []
    ensures Feed(c, s, hs) == Feed(c, ApplyHeader(c, s, hs[0]).snap, hs[1..])
  {
    var t := Stepper(c)(s, hs[0]);
    FoldFront(Stepper(c), s, hs);
    FeedIsFold(c, s, hs);
    FeedIsFold(c, t, hs[1..]);
  }

  /** What the rest of a list is judged against, once its first header is on the chain. */
  lemma ShiftOne(c: Crypto, chain: seq<Block>, s: Snap, hs: seq<Header>, t: Snap, i: nat)
    requires i + 1 < |hs| && t == ApplyHeader(c, s, hs[0]).snap
    ensures Above(chain + [BlockOf(hs[0])], hs[1..], i) == Above(chain, hs, i + 1)
    ensures Feed(c, t, hs[1..][..i]) == Feed(c, s, hs[..i + 1])
    ensures PassesAt(c, chain + [BlockOf(hs[0])], t, hs[1..], i) <==> PassesAt(c, chain, s, hs, i + 1)
  {
    AboveShift(chain, hs, i);
    FeedShift(c, s, hs, t, i);
    PassSame(c, chain + [BlockOf(hs[0])], t, hs[1..], i, chain, s, hs, i + 1);
  }

  lemma AboveShift(chain: seq<Block>, hs: seq<Header>, i: nat)
    requires i + 1 < |hs|
    ensures Above(chain + [BlockOf(hs[0])], hs[1..], i) == Above(chain, hs, i + 1)
  {
  }

  lemma FeedShift(c: Crypto, s: Snap, hs: seq<Header>, t: Snap, i: nat)
    requires i + 1 < |hs| && t == ApplyHeader(c, s, hs[0]).snap
    ensures Feed(c, t, hs[1..][..i]) == Feed(c, s, hs[..i + 1])
  {
    var part := hs[..i + 1];
    assert part[0] == hs[0] && part[1..] == hs[1..][..i];
    FeedFront(c, s, part);
  }

  lemma PassSame(
      c: Crypto, chain: seq<Block>, s: Snap, hs: seq<Header>, i: nat, chain': seq<Block>, s': Snap, hs': seq<Header>, j: nat)
    requires i < |hs| && j < |hs'| && hs[i] == hs'[j] && Above(chain, hs, i) == Above(chain', hs', j)
    requires Feed(c, s, hs[..i]) == Feed(c, s', hs'[..j])
    ensures PassesAt(c, chain, s, hs, i) <==> PassesAt(c, chain', s', hs', j)
  {
  }

  lemma FailsShift(c: Crypto, chain: seq<Block>, s: Snap, hs: seq<Header>, t: Snap, i: nat, e: SyncError)
    requires i + 1 < |hs| && t == ApplyHeader(c, s, hs[0]).snap && FailsAt(c, chain + [BlockOf(hs[0])], t, hs[1..], i, e)
    ensures FailsAt(c, chain, s, hs, i + 1, e)
  {
    ShiftOne(c, chain, s, hs, t, i);
  }

  lemma FirstIs(c: Crypto, chain: seq<Block>, s: Snap, hs: seq<Header>)
    requires hs != []
    ensures var one := AppendOne(c, chain, s, hs[0]);
            if PassesAt(c, chain, s, hs, 0) then one == Synced(chain + [BlockOf(hs[0])], ApplyHeader(c, s, hs[0]).snap, None)
            else one.error.Some? && one.chain == chain && FailsAt(c, chain, s, hs, 0, one.error.value)
  {
    assert hs[..0] == [];
  }

  lemma PassFront(c: Crypto, chain: seq<Block>, s: Snap, hs: seq<Header>, t: Snap, n: nat)
    requires n < |hs| && t == ApplyHeader(c, s, hs[0]).snap && PassesAt(c, chain, s, hs, 0)
    requires PassBelow(c, chain + [BlockOf(hs[0])], t, hs[1..], n)
    ensures PassBelow(c, chain, s, hs, n + 1)
  {
    forall i: nat | i < n + 1
      ensures PassesAt(c, chain, s, hs, i)
    {
      if i > 0 {
        ShiftOne(c, chain, s, hs, t, i - 1);
        assert PassesAt(c, chain + [BlockOf(hs[0])], t, hs[1..], i - 1);
      }
    }
  }

  /** The first n headers passed and are on the chain; if there is another, it failed. */
  ghost predicate StoppedAt(c: Crypto, chain: seq<Block>, s: Snap, hs: seq<Header>, n: nat, r: Synced) {
    n <= |hs| && PassBelow(c, chain, s, hs, n) && r.chain == chain + BlocksOf(hs[..n]) && (r.error.None? <==> n == |hs|) &&
    (if n == |hs| then r.snap == Feed(c, s, hs) else FailsAt(c, chain, s, hs, n, r.error.value))
  }

  lemma StoppedLater(c: Crypto, chain: seq<Block>, s: Snap, hs: seq<Header>, t: Snap, m: nat, r: Synced)
    requires hs != [] && t == ApplyHeader(c, s, hs[0]).snap && PassesAt(c, chain, s, hs, 0)
    requires StoppedAt(c, chain + [BlockOf(hs[0])], t, hs[1..], m, r)
    ensures StoppedAt(c, chain, s, hs, m + 1, r)
  {
    PassFront(c, chain, s, hs, t, m);
    BlocksShift(chain, hs, m);
    if m + 1 < |hs| { FailsShift(c, chain, s, hs, t, m, r.error.value); } else { FeedFront(c, s, hs); }
  }

  lemma BlocksShift(chain: seq<Block>, hs: seq<Header>, m: nat)
    requires m < |hs|
    ensures chain + [BlockOf(hs[0])] + BlocksOf(hs[1..][..m]) == chain + BlocksOf(hs[..m + 1])
  {
    assert BlocksOf(hs[..m + 1]) == [BlockOf(hs[0])] + BlocksOf(hs[1..][..m]);
  }

  lemma StoppedNow(c: Crypto, chain: seq<Block>, s: Snap, hs: seq<Header>, r: Synced)
    requires r.chain == chain && (r.error.None? <==> hs == [])
    requires if hs == [] then r.snap == s else FailsAt(c, chain, s, hs, 0, r.error.value)
    ensures StoppedAt(c, chain, s, hs, 0, r)
  {
    assert chain + BlocksOf(hs[..0]) == chain;
  }

  lemma UnrollAppend(c: Crypto, chain: seq<Block>, s: Snap, hs: seq<Header>) returns (t: Snap, one: Synced)
    requires hs != []
    ensures t == ApplyHeader(c, s, hs[0]).snap
    ensures if PassesAt(c, chain, s, hs, 0) then AppendAll(c, chain, s, hs) == AppendAll(c, chain + [BlockOf(hs[0])], t, hs[1..])
            else AppendAll(c, chain, s, hs) == one && one.error.Some? && one.chain == chain && FailsAt(c, chain, s, hs, 0, one.error.value)
  {
    t, one := ApplyHeader(c, s, hs[0]).snap, AppendOne(c, chain, s, hs[0]);
    FirstIs(c, chain, s, hs);
  }

  /** The headers are taken in order up to the first that fails, whose error ends the call: the chain grew by
      the passing ones. */
  lemma {:induction false} StopsAtFirst(c: Crypto, chain: seq<Block>, s: Snap, hs: seq<Header>) returns (n: nat)
    ensures StoppedAt(c, chain, s, hs, n, AppendAll(c, chain, s, hs))
    decreases |hs|
  {
    n := 0;
    if hs == [] {
      StoppedNow(c, chain, s, hs, Synced(chain, s, None));
    } else {
      var t, one := UnrollAppend(c, chain, s, hs);
      if PassesAt(c, chain, s, hs, 0) {
        var m := StopsAtFirst(c, chain + [BlockOf(hs[0])], t, hs[1..]);
        n := m + 1;
        StoppedLater(c, chain, s, hs, t, m, AppendAll(c, chain + [BlockOf(hs[0])], t, hs[1..]));
      } else {
        StoppedNow(c, chain, s, hs, one);
      }
    }
  }

  lemma FailIsNotPass(c: Crypto, chain: seq<Block>, s: Snap, hs: seq<Header>, n: nat, e: SyncError)
    requires n < |hs| && FailsAt(c, chain, s, hs, n, e)
    ensures !PassesAt(c, chain, s, hs, n)
  {
  }

  /** A call succeeds exactly when the tip is no news, or the upstream answers with headers that all pass. */
  lemma AppendOkIff(c: Crypto, chain: seq<Block>, s: Snap, tip: nat, reply: Reply)
    ensures Append(c, chain, s, tip, reply).error.None? <==>
            tip <= LastNumber(chain) || (reply.Headers? && PassBelow(c, chain, s, reply.headers, |reply.headers|))
    ensures Append(c, chain, s, tip, reply).error.None? && tip > LastNumber(chain) ==>
            Append(c, chain, s, tip, reply).snap == Feed(c, s, reply.headers)
  {
    if tip > LastNumber(chain) && reply.Headers? {
      var n := StopsAtFirst(c, chain, s, reply.headers);
      if n < |reply.headers| {
        FailIsNotPass(c, chain, s, reply.headers, n, AppendAll(c, chain, s, reply.headers).error.value);
      }
    }
  }

  // ----- what looks like a reorg -----

  /** Number and hash the next header has to follow, after the first n. */
  function Tip(s: Snap, hs: seq<Header>, n: nat): (nat, Hash)
    requires n <= |hs|
  {
    if n == 0 then (s.number, s.hash) else (hs[n - 1].number, hs[n - 1].hash)
  }

  lemma TipIs(c: Crypto, chain: seq<Block>, s: Snap, hs: seq<Header>, n: nat)
    requires n <= |hs| && PassBelow(c, chain, s, hs, n)
    ensures Feed(c, s, hs[..n]).number == Tip(s, hs, n).0 && Feed(c, s, hs[..n]).hash == Tip(s, hs, n).1
  {
    if n > 0 {
      assert PassesAt(c, chain, s, hs, n - 1);
      assert hs[..n][..n - 1] == hs[..n - 1];
      AcceptFacts(c, Feed(c, s, hs[..n - 1]), hs[n - 1]);
    }
  }

  /** Header n is on time and well sealed, but follows another block. */
  predicate Strays(c: Crypto, chain: seq<Block>, s: Snap, hs: seq<Header>, n: nat)
    requires n < |hs|
  {
    OnTime(chain, hs, n) && Sealed(c, hs[n]) && (hs[n].number != Tip(s, hs, n).0 + 1 || hs[n].parentHash != Tip(s, hs, n).1)
  }

  lemma StrayFails(c: Crypto, chain: seq<Block>, s: Snap, hs: seq<Header>, n: nat, e: SyncError)
    requires n < |hs| && PassBelow(c, chain, s, hs, n) && FailsAt(c, chain, s, hs, n, e)
    ensures IsLinkErr(e) <==> Strays(c, chain, s, hs, n)
  {
    TipIs(c, chain, s, hs, n);
    LinkRefusedIff(c, Feed(c, s, hs[..n]), hs[n]);
  }

  lemma StrayIsNotPass(c: Crypto, chain: seq<Block>, s: Snap, hs: seq<Header>, n: nat)
    requires n < |hs| && PassBelow(c, chain, s, hs, n) && Strays(c, chain, s, hs, n)
    ensures !PassesAt(c, chain, s, hs, n)
  {
    TipIs(c, chain, s, hs, n);
    if PassesAt(c, chain, s, hs, n) {
      AcceptFacts(c, Feed(c, s, hs[..n]), hs[n]);
    }
  }

  /** A call ends in a link break exactly when, after headers that all pass, a well-sealed one that is on time
      follows another block. */
  lemma LinkBreakIff(c: Crypto, chain: seq<Block>, s: Snap, tip: nat, reply: Reply)
    ensures var e := Append(c, chain, s, tip, reply).error;
            e.Some? && IsLinkErr(e.value) <==>
            tip > LastNumber(chain) && reply.Headers? && exists n: nat :: BreaksAt(c, chain, s, reply.headers, n)
  {
    if tip > LastNumber(chain) && reply.Headers? {
      var hs := reply.headers;
      var n := StopsAtFirst(c, chain, s, hs);
      if n < |hs| {
        StrayFails(c, chain, s, hs, n, AppendAll(c, chain, s, hs).error.value);
        FailIsNotPass(c, chain, s, hs, n, AppendAll(c, chain, s, hs).error.value);
        assert Strays(c, chain, s, hs, n) ==> BreaksAt(c, chain, s, hs, n);
      }
      if m: nat :| BreaksAt(c, chain, s, hs, m) {
        StrayIsNotPass(c, chain, s, hs, m);
        assert m == n;
      }
    }
  }

  ghost predicate BreaksAt(c: Crypto, chain: seq<Block>, s: Snap, hs: seq<Header>, n: nat) {
    n < |hs| && PassBelow(c, chain, s, hs, n) && Strays(c, chain, s, hs, n)
  }

  // ----- booting -----

  /** A checkpoint worth booting from: sealers and vote keys named once each, a key for every sealer. */
  predicate WellNamed(cp: Checkpoint) {
    cp.sealingSet != [] && (forall i, j | 0 <= i < j < |cp.sealingSet| :: cp.sealingSet[i] != cp.sealingSet[j]) &&
    (cp.voteKeys.Some? ==>
       |cp.voteKeys.value| == |cp.sealingSet| &&
       forall i, j | 0 <= i < j < |cp.voteKeys.value| :: cp.voteKeys.value[i] != cp.voteKeys.value[j])
  }

  /** The header the operator trusts: its hash, parent and state root, under a good seal. */
  predicate Trusted(c: Crypto, cp: Checkpoint, h: Header) {
    h.number == cp.number && c.keccak(Preimage(h)) == cp.hash.bytes && h.hash == cp.hash &&
    h.parentHash == cp.parentHash && h.stateRoot == cp.stateRoot && Sealed(c, h)
  }

  /** No set is waiting to be switched to at the checkpoint, and the turn length in force there. */
  predicate Settled(number: nat, up: BootReply) {
    number < 1000 ||
    (up.epoch.Some? && up.prev.Some? && VoteSets.NewestTwo(number, up.epoch.value, up.prev.value) &&
     number >= up.epoch.value.number + VoteSets.WaitOf(up.prev.value))
  }

  function TurnAt(number: nat, up: BootReply): nat {
    if number < 1000 || up.epoch.None? || up.epoch.value.extra.None? || up.epoch.value.extra.value.turnLength.None? ||
       up.epoch.value.extra.value.turnLength.value == 0 then 8
    else up.epoch.value.extra.value.turnLength.value
  }

  lemma SeededIff(cp: Checkpoint, up: BootReply)
    requires up.epoch.Some? && up.prev.Some? ==> up.epoch.value.number + VoteSets.WaitOf(up.prev.value) < U64
    ensures SeededSnap(cp, up).Some? <==> Settled(cp.number, up)
    ensures SeededSnap(cp, up).Some? ==> SeededSnap(cp, up).value == FromCheckpoint(cp).(turnLength := TurnAt(cp.number, up))
  {
    if up.epoch.Some? && up.prev.Some? {
      VoteSets.SeedIff(cp.number, up.epoch.value, up.prev.value);
    }
  }

  lemma HashNamesOne(a: Hash, b: Hash)
    ensures a == b <==> a.bytes == b.bytes
  {
  }

  /** A boot succeeds exactly on the trusted header, with no switch pending; it starts on that block, in the turn
      length of the newest epoch. */
  lemma BootIff(c: Crypto, cp: Checkpoint, up: BootReply)
    requires up.epoch.Some? && up.prev.Some? ==> up.epoch.value.number + VoteSets.WaitOf(up.prev.value) < U64
    ensures Boot(c, cp, up).Some? <==> WellNamed(cp) && up.header.Some? && Trusted(c, cp, up.header.value) && Settled(cp.number, up)
    ensures Boot(c, cp, up).Some? ==>
              Boot(c, cp, up).value == (BlockOf(up.header.value), FromCheckpoint(cp).(turnLength := TurnAt(cp.number, up)))
  {
    SeededIff(cp, up);
    if up.header.Some? {
      SealedIff(c, up.header.value);
      HashNamesOne(up.header.value.hash, cp.hash);
    }
  }

  /** A walk succeeds exactly when the tip is near, the boot succeeds, and every header past it passes. */
  lemma WalkOkIff(c: Crypto, cp: Checkpoint, to: nat, maxSync: nat, up: BootReply, reply: Reply)
    requires Bootable(cp)
    ensures Walk(c, cp, to, maxSync, up, reply).error.None? <==>
            to <= cp.number + maxSync && Boot(c, cp, up).Some? &&
            (to <= cp.number ||
             (reply.Headers? && PassBelow(c, [Boot(c, cp, up).value.0], Boot(c, cp, up).value.1, reply.headers, |reply.headers|)))
  {
    if Boot(c, cp, up).Some? {
      BootIsFresh(c, cp, up);
      var (first, s) := Boot(c, cp, up).value;
      if reply.Headers? {
        var n := StopsAtFirst(c, [first], s, reply.headers);
        if n < |reply.headers| {
          FailIsNotPass(c, [first], s, reply.headers, n, AppendAll(c, [first], s, reply.headers).error.value);
        }
      }
    }
  }

  // ----- rollback points -----

  /** Where points at or below a height end, in a rising list. */
  ghost predicate SplitsAt(points: seq<Snap>, n: nat, k: nat) {
    k <= |points| && (forall i: nat | i < k :: points[i].number <= n) && forall i: nat | k <= i < |points| :: points[i].number > n
  }

  lemma {:induction false} DropAboveIs(c: Crypto, b: Branch, points: seq<Snap>, n: nat) returns (k: nat)
    requires Ordered(c, b, points)
    ensures SplitsAt(points, n, k) && DropAbove(points, n) == points[..k]
  {
    k := |points|;
    if points != [] {
      var last := |points| - 1;
      if points[last].number > n {
        PointsOfPart(c, b, points, 0, last);
        k := DropAboveIs(c, b, points[..last], n);
        assert points[..last][..k] == points[..k];
        forall i: nat | i < |points|
          ensures (i < k ==> points[i].number <= n) && (k <= i ==> points[i].number > n)
        {
          if i < last { assert points[..last][i] == points[i]; }
        }
      } else {
        forall i: nat | i < |points|
          ensures points[i].number <= n
        {
          BelowNewest(points, i);
        }
      }
    }
    assert points[..|points|] == points;
  }

  /** The points at or above the floor, then the head if it is 16 blocks past the newest, then the newest 16. */
  ghost predicate RecordedAs(points: seq<Snap>, s: Snap, floor: nat, r: seq<Snap>, k: nat) {
    k <= |points| && (forall i: nat | i < k :: points[i].number < floor) && (forall i: nat | k <= i < |points| :: points[i].number >= floor) &&
    var kept := points[k..];
    var all := if kept == [] || s.number >= kept[|kept| - 1].number + 16 then kept + [s] else kept;
    r == if |all| > 16 then all[|all| - 16..] else all
  }

  lemma {:induction false} DropBelowIs(c: Crypto, b: Branch, points: seq<Snap>, floor: nat) returns (k: nat)
    requires Ordered(c, b, points)
    ensures k <= |points| && DropBelow(points, floor) == points[k..]
    ensures forall i: nat | i < k :: points[i].number < floor
    ensures forall i: nat | k <= i < |points| :: points[i].number >= floor
  {
    k := 0;
    if points != [] {
      if points[0].number < floor {
        PointsOfPart(c, b, points, 1, |points|);
        assert points[1..|points|] == points[1..];
        var m := DropBelowIs(c, b, points[1..], floor);
        k := m + 1;
        assert points[1..][m..] == points[k..];
        forall i: nat | i < |points|
          ensures (i < k ==> points[i].number < floor) && (k <= i ==> points[i].number >= floor)
        {
          if i > 0 { assert points[1..][i - 1] == points[i]; }
        }
      } else {
        forall i: nat | i < |points|
          ensures points[i].number >= floor
        {
          assert i > 0 ==> Rising(points, 0, i);
        }
      }
    }
  }

  /** What recording keeps, exactly. */
  lemma RecordIs(c: Crypto, b: Branch, points: seq<Snap>, s: Snap, floor: nat) returns (k: nat)
    requires Points(c, b, points) && b.base.number + |b.hist| + 16 < U64
    ensures RecordedAs(points, s, floor, RecordRollback(points, s, floor), k)
  {
    k := DropBelowIs(c, b, points, floor);
    var kept := points[k..];
    if kept != [] {
      assert kept[|kept| - 1] == points[|points| - 1];
      PointBelow(c, b, points, |points| - 1);
    }
  }

  // ----- recovering -----

  /** A retained state is within reach: its block is still in the window and not above the tip asked for. */
  predicate InReach(st: State, j: nat, tip: nat)
    requires j < |st.rollbacks|
  {
    FirstNumber(st.chain) <= st.rollbacks[j].number <= tip && st.rollbacks[j].number <= LastNumber(st.chain)
  }

  /** The chain up to and including the block of a retained state. */
  function Kept(st: State, j: nat, tip: nat): seq<Block>
    requires j < |st.rollbacks|
  {
    var k := st.rollbacks[j].number - FirstNumber(st.chain);
    if 0 <= k < |st.chain| then st.chain[..k + 1] else []
  }

  lemma ReachIs(c: Crypto, st: State, b: Branch, from: nat, j: nat, tip: nat)
    requires Inv(c, st, b, from) && j < |st.rollbacks|
    ensures Usable(st.chain, st.rollbacks[j], tip) <==> InReach(st, j, tip)
    ensures InReach(st, j, tip) ==>
              Upto(st.chain, st.rollbacks[j].number) == Kept(st, j, tip) && LastNumber(Kept(st, j, tip)) == st.rollbacks[j].number
  {
    var p := st.rollbacks[j];
    FollowsShape(c, b, from, st.chain, st.snap);
    assert st.chain[0].number == b.base.number + from;
    assert st.chain[|st.chain| - 1].number == b.base.number + from + |st.chain| - 1;
    if InReach(st, j, tip) {
      UptoIsPrefix(st.chain, b.base.number + from, p.number);
      assert Kept(st, j, tip) != [];
    } else if Usable(st.chain, p, tip) {
      UptoIsPart(st.chain, p.number);
    }
  }

  /** A walk from a retained state fails like a reorg: a header of its reply follows another block. */
  ghost predicate Lost(c: Crypto, st: State, tip: nat, up: Upstream, j: nat)
    requires j < |st.rollbacks|
  {
    var p := st.rollbacks[j];
    InReach(st, j, tip) ==>
      tip > p.number && up.rewind(p.number).Headers? &&
      exists n: nat :: BreaksAt(c, Kept(st, j, tip), p, up.rewind(p.number).headers, n)
  }

  /** A walk from a retained state succeeds: it is within reach, and the whole reply passes. */
  ghost predicate Rejoins(c: Crypto, st: State, tip: nat, up: Upstream, j: nat)
    requires j < |st.rollbacks|
  {
    var p := st.rollbacks[j];
    InReach(st, j, tip) &&
    (tip == p.number ||
     (up.rewind(p.number).Headers? &&
      PassBelow(c, Kept(st, j, tip), p, up.rewind(p.number).headers, |up.rewind(p.number).headers|)))
  }

  lemma WalkTold(c: Crypto, st: State, b: Branch, from: nat, tip: nat, up: Upstream, j: nat)
    requires Inv(c, st, b, from) && j < |st.rollbacks|
    ensures Skipped(c, st, tip, up, j) <==> Lost(c, st, tip, up, j)
    ensures Usable(st.chain, st.rollbacks[j], tip) && WalkFrom(c, st.chain, st.rollbacks[j], tip, up).error.None? <==>
            Rejoins(c, st, tip, up, j)
  {
    var p := st.rollbacks[j];
    ReachIs(c, st, b, from, j, tip);
    if InReach(st, j, tip) {
      LinkBreakIff(c, Kept(st, j, tip), p, tip, up.rewind(p.number));
      AppendOkIff(c, Kept(st, j, tip), p, tip, up.rewind(p.number));
    }
  }

  /** The newest retained state that is not lost rejoins the upstream's branch. */
  ghost predicate WinsAt(c: Crypto, st: State, tip: nat, up: Upstream, i: nat) {
    i < |st.rollbacks| && Rejoins(c, st, tip, up, i) && AllLost(c, st, tip, up, i + 1)
  }

  ghost predicate AllLost(c: Crypto, st: State, tip: nat, up: Upstream, lo: nat) {
    forall j: nat | lo <= j < |st.rollbacks| :: Lost(c, st, tip, up, j)
  }

  lemma LostAreSkipped(c: Crypto, st: State, b: Branch, from: nat, tip: nat, up: Upstream, lo: nat)
    requires Inv(c, st, b, from)
    ensures AllLost(c, st, tip, up, lo) <==> AllSkipped(c, st, tip, up, lo, |st.rollbacks|)
  {
    forall j: nat | j < |st.rollbacks|
      ensures Skipped(c, st, tip, up, j) <==> Lost(c, st, tip, up, j)
    {
      WalkTold(c, st, b, from, tip, up, j);
    }
  }

  lemma WinIsFound(c: Crypto, st: State, b: Branch, from: nat, tip: nat, up: Upstream, i: nat)
    requires Inv(c, st, b, from)
    ensures WinsAt(c, st, tip, up, i) <==> Search(c, st, tip, up, |st.rollbacks|) == Rewound(i)
  {
    var n := |st.rollbacks|;
    SearchIsNewest(c, st, tip, up, n);
    if i < n {
      WalkTold(c, st, b, from, tip, up, i);
      LostAreSkipped(c, st, b, from, tip, up, i + 1);
      if WinsAt(c, st, tip, up, i) {
        FoundIsThis(c, st, tip, up, i);
      }
    }
  }

  lemma FoundIsThis(c: Crypto, st: State, tip: nat, up: Upstream, i: nat)
    requires var n := |st.rollbacks|; EndsAt(c, st, tip, up, n, i) && Found(c, st, tip, up, n, Search(c, st, tip, up, n))
    requires WalkFrom(c, st.chain, st.rollbacks[i], tip, up).error.None?
    ensures Search(c, st, tip, up, |st.rollbacks|) == Rewound(i)
  {
    var n := |st.rollbacks|;
    match Search(c, st, tip, up, n) {
      case Exhausted =>
      case Rewound(p) => EndsOnce(c, st, tip, up, n, i, p);
      case Stopped(e) =>
        var p: nat :| EndsAt(c, st, tip, up, n, p) && WalkFrom(c, st.chain, st.rollbacks[p], tip, up).error == Some(e);
        EndsOnce(c, st, tip, up, n, i, p);
    }
  }

  lemma EndsOnce(c: Crypto, st: State, tip: nat, up: Upstream, n: nat, i: nat, p: nat)
    requires EndsAt(c, st, tip, up, n, i) && EndsAt(c, st, tip, up, n, p)
    ensures i == p
  {
  }

  lemma ExhaustedIff(c: Crypto, st: State, b: Branch, from: nat, tip: nat, up: Upstream)
    requires Inv(c, st, b, from)
    ensures Search(c, st, tip, up, |st.rollbacks|).Exhausted? <==> AllLost(c, st, tip, up, 0)
  {
    var n := |st.rollbacks|;
    SearchIsNewest(c, st, tip, up, n);
    LostAreSkipped(c, st, b, from, tip, up, 0);
  }

  /** The replay from the origin checkpoint succeeds. */
  ghost predicate Replays(c: Crypto, cfg: Config, tip: nat, up: Upstream) {
    cfg.origin.Some? && Walk(c, cfg.origin.value, tip, cfg.maxSync, up.boot, up.replay).error.None?
  }

  /** Recovery succeeds exactly when the newest retained state that is not lost rejoins the upstream's branch, or
      all are lost and the replay from the checkpoint succeeds. */
  lemma RecoverOkIff(c: Crypto, cfg: Config, st: State, b: Branch, from: nat, tip: nat, up: Upstream, err: SyncError)
    requires Inv(c, st, b, from)
    ensures Recover(c, cfg, st, tip, up, err).error.None? <==>
            (exists i: nat :: WinsAt(c, st, tip, up, i)) || (AllLost(c, st, tip, up, 0) && Replays(c, cfg, tip, up))
    ensures AllLost(c, st, tip, up, 0) && cfg.origin.None? ==> Recover(c, cfg, st, tip, up, err) == Outcome(st, Some(err))
  {
    var a := Search(c, st, tip, up, |st.rollbacks|);
    ExhaustedIff(c, st, b, from, tip, up);
    if a.Rewound? {
      WinIsFound(c, st, b, from, tip, up, a.point);
    }
    if i: nat :| WinsAt(c, st, tip, up, i) {
      WinIsFound(c, st, b, from, tip, up, i);
    }
  }

  /** Where a rewind to state i ends: its chain with the reply's blocks, the fold of the reply from it, and the
      retained states at or below it. */
  ghost predicate RewoundTo(c: Crypto, st: State, tip: nat, up: Upstream, i: nat, after: State)
    requires i < |st.rollbacks|
  {
    var p := st.rollbacks[i];
    var hs := if tip > p.number && up.rewind(p.number).Headers? then up.rewind(p.number).headers else [];
    after.chain == (if tip > p.number then Newest512(Kept(st, i, tip) + BlocksOf(hs)) else Kept(st, i, tip)) &&
    after.snap == Feed(c, p, hs) &&
    exists k: nat :: SplitsAt(st.rollbacks, p.number, k) && after.rollbacks == st.rollbacks[..k]
  }

  lemma WinEndsAt(c: Crypto, cfg: Config, st: State, b: Branch, from: nat, tip: nat, up: Upstream, err: SyncError, i: nat)
    requires Inv(c, st, b, from) && WinsAt(c, st, tip, up, i)
    ensures var o := Recover(c, cfg, st, tip, up, err); o.error.None? && RewoundTo(c, st, tip, up, i, o.state)
  {
    var p := st.rollbacks[i];
    WinIsFound(c, st, b, from, tip, up, i);
    ReachIs(c, st, b, from, i, tip);
    AppendOkIff(c, Kept(st, i, tip), p, tip, up.rewind(p.number));
    if tip > p.number { WindowIs512(c, Kept(st, i, tip), p, tip, up.rewind(p.number)); }
    var k := DropAboveIs(c, b, st.rollbacks, p.number);
  }

  // ----- resyncing -----

  /** A resync succeeds exactly when the tip is near, the append succeeds or breaks the link and recovery
      succeeds, and 15 of the 21 sealers have built on some block of the window. */
  lemma ResyncOkIff(c: Crypto, cfg: Config, st: State, tip: nat, up: Upstream)
    requires LastNumber(st.chain) + cfg.maxSync < U64
    ensures var a := Append(c, st.chain, st.snap, tip, up.append);
            var st1 := State(a.chain, a.snap, st.rollbacks);
            var o := if a.error.Some? && IsLinkErr(a.error.value) then Recover(c, cfg, st1, tip, up, a.error.value) else Outcome(st1, a.error);
            var r := Resync(c, cfg, st, tip, up);
            (r.result.Ok? <==> tip <= LastNumber(st.chain) + cfg.maxSync && o.error.None? && SafeExists(o.state.chain)) &&
            (r.result.Ok? ==> r.state.chain == o.state.chain && r.state.snap == o.state.snap) &&
            (tip > LastNumber(st.chain) + cfg.maxSync ==> r == Resynced(st, Err(TipJumped))) &&
            (tip <= LastNumber(st.chain) + cfg.maxSync && o.error.Some? ==> r == Resynced(o.state, Err(o.error.value)))
  {
    var a := Append(c, st.chain, st.snap, tip, up.append);
    var st1 := State(a.chain, a.snap, st.rollbacks);
    var o := AppendOrRecover(c, cfg, st, tip, up);
    SafeIff(o.state.chain);
  }

  /** Blocks after the first that 15 distinct sealers built. */
  predicate SafeExists(chain: seq<Block>) {
    exists p: nat :: 0 < p < |chain| && |Tail(chain, p)| >= 15
  }

  lemma SafeIff(chain: seq<Block>)
    ensures NewestSafe(chain, N_SEAL).Some? <==> SafeExists(chain)
  {
    PivotIsLast(chain, 15, |chain| - 1);
    var p := Pivot(chain, 15);
    assert MinDistinctSealers(N_SEAL) == 15;
  }

  /** A reorg the retained states cover is recovered from: a resync whose append breaks the link, from wherever
      that left the node, ends on the upstream's branch from the newest state that is not lost. */
  lemma ReorgRecovered(c: Crypto, cfg: Config, st: State, b: Branch, from: nat, tip: nat, up: Upstream, i: nat)
    returns (st1: State, o: State)
    requires Inv(c, st, b, from) && LastNumber(st.chain) + cfg.maxSync < U64 && tip <= LastNumber(st.chain) + cfg.maxSync
    requires tip > LastNumber(st.chain) && up.append.Headers? && exists n: nat :: BreaksAt(c, st.chain, st.snap, up.append.headers, n)
    requires var a := Append(c, st.chain, st.snap, tip, up.append); WinsAt(c, State(a.chain, a.snap, st.rollbacks), tip, up, i)
    ensures st1.rollbacks == st.rollbacks && st.chain <= st1.chain && i < |st1.rollbacks| && RewoundTo(c, st1, tip, up, i, o)
    ensures var r := Resync(c, cfg, st, tip, up);
            r.state.chain == o.chain && r.state.snap == o.snap && (r.result.Ok? <==> SafeExists(o.chain))
  {
    var a := Append(c, st.chain, st.snap, tip, up.append);
    st1 := State(a.chain, a.snap, st.rollbacks);
    LinkBreakIff(c, st.chain, st.snap, tip, up.append);
    var n := StopsAtFirst(c, st.chain, st.snap, up.append.headers);
    var more, from' := AppendFollows(c, b, from, st.chain, st.snap, tip, up.append);
    InvGrows(c, st, b, from, more, from', a.chain, a.snap);
    WinEndsAt(c, cfg, st1, Extend(b, more), from', tip, up, a.error.value, i);
    o := Recover(c, cfg, st1, tip, up, a.error.value).state;
    ResyncOkIff(c, cfg, st, tip, up);
  }

  // ----- a reorg that does not look like one -----

  /** The next header the upstream serves is too early for the block the node holds. */
  ghost predicate EarlyCall(st: State, call: Call) {
    call.tip > LastNumber(st.chain) && call.up.append.Headers? && call.up.append.headers != [] &&
    st.chain != [] && !OnTime(st.chain, call.up.append.headers, 0)
  }

  lemma EarlyStops(c: Crypto, cfg: Config, st: State, call: Call)
    requires EarlyCall(st, call)
    ensures var r := Resync(c, cfg, st, call.tip, call.up);
            r.state == st && (r.result == Err(Cascading) || r.result == Err(TipJumped))
  {
  }

  /** Timing is checked before the parent link: as long as the upstream's next header is too early for the tip,
      no resync recovers, whatever it follows and whatever is retained. */
  lemma {:induction false} EarlyForkStays(c: Crypto, cfg: Config, st: State, calls: seq<Call>)
    requires forall i: nat | i < |calls| :: EarlyCall(st, calls[i])
    ensures Calls(c, cfg, st, calls) == st
  {
    if calls != [] {
      var n := |calls| - 1;
      EarlyForkStays(c, cfg, st, calls[..n]);
      EarlyStops(c, cfg, st, calls[n]);
    }
  }
}
