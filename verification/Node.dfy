/** The syncing node: rollback points, reorg recovery by rewind or replay, and the resync step. */
module Node {
  import opened Base
  import opened Vote
  import opened Headers
  import opened Snapshot
  import opened Runs
  import opened Finality
  import opened Sync
  import opened Engine

  const ROLLBACK_EVERY: nat := 16
  const ROLLBACK_KEEP: nat := 16
  const N_SEAL: nat := 21

  datatype Config = Config(origin: Option<Checkpoint>, maxSync: nat, fast: bool)

  datatype State = State(chain: seq<Block>, snap: Snap, rollbacks: seq<Snap>)

  /** Everything an untrusted upstream may answer during one resync: to the append, to the walk from
      a rollback point, and to the replay. */
  datatype Upstream = Upstream(append: Reply, rewind: nat -> Reply, boot: BootReply, replay: Reply)

  // ----- rollback points -----

  function DropBelow(points: seq<Snap>, floor: nat): seq<Snap> {
    if points != [] && points[0].number < floor then DropBelow(points[1..], floor) else points
  }

  function DropAbove(points: seq<Snap>, n: nat): seq<Snap> {
    if points != [] && points[|points| - 1].number > n then DropAbove(points[..|points| - 1], n) else points
  }

  predicate Due(points: seq<Snap>, s: Snap) {
    points == [] || s.number >= SatAdd(points[|points| - 1].number, ROLLBACK_EVERY)
  }

  function NewestPoints(points: seq<Snap>): seq<Snap> {
    if |points| > ROLLBACK_KEEP then points[|points| - ROLLBACK_KEEP..] else points
  }

  function RecordRollback(points: seq<Snap>, s: Snap, floor: nat): seq<Snap> {
    var kept := DropBelow(points, floor);
    if Due(kept, s) then NewestPoints(kept + [s]) else kept
  }

  // ----- recovery -----

  /** The blocks up to a height. */
  function Upto(chain: seq<Block>, n: nat): seq<Block> {
    if chain == [] || chain[0].number > n then [] else [chain[0]] + Upto(chain[1..], n)
  }

  /** A point worth trying: inside the window, not above the tip, and a block of the chain. */
  predicate Usable(chain: seq<Block>, point: Snap, tip: nat) {
    FirstNumber(chain) <= point.number <= tip && Upto(chain, point.number) != [] &&
    LastNumber(Upto(chain, point.number)) == point.number
  }

  function WalkFrom(c: Crypto, chain: seq<Block>, point: Snap, tip: nat, up: Upstream): Synced {
    Append(c, Upto(chain, point.number), point, tip, up.rewind(point.number))
  }

  datatype Attempt = Rewound(point: nat) | Stopped(error: SyncError) | Exhausted

  /** The newest of the first i points whose walk succeeds; an error that is no link break stops the search. */
  function Search(c: Crypto, st: State, tip: nat, up: Upstream, i: nat): (a: Attempt)
    requires i <= |st.rollbacks|
    ensures a.Rewound? ==> a.point < i && Usable(st.chain, st.rollbacks[a.point], tip) &&
                           WalkFrom(c, st.chain, st.rollbacks[a.point], tip, up).error.None?
  {
    if i == 0 then Exhausted
    else
      var point := st.rollbacks[i - 1];
      if !Usable(st.chain, point, tip) then Search(c, st, tip, up, i - 1)
      else
        var r := WalkFrom(c, st.chain, point, tip, up);
        if r.error.None? then Rewound(i - 1)
        else if IsLinkErr(r.error.value) then Search(c, st, tip, up, i - 1)
        else Stopped(r.error.value)
  }

  datatype Outcome = Outcome(state: State, error: Option<SyncError>)

  function Recover(c: Crypto, cfg: Config, st: State, tip: nat, up: Upstream, err: SyncError): Outcome {
    match Search(c, st, tip, up, |st.rollbacks|)
    case Stopped(e) => Outcome(st, Some(e))
    case Rewound(i) =>
      var point := st.rollbacks[i];
      var r := WalkFrom(c, st.chain, point, tip, up);
      Outcome(State(r.chain, r.snap, DropAbove(st.rollbacks, point.number)), None)
    case Exhausted =>
      if cfg.origin.None? then Outcome(st, Some(err))
      else
        var r := Walk(c, cfg.origin.value, tip, cfg.maxSync, up.boot, up.replay);
        if r.error.Some? then Outcome(st, r.error) else Outcome(State(r.chain, r.snap, []), None)
  }

  // ----- the served head -----

  function FindBlock(chain: seq<Block>, number: nat, hash: Hash): Option<Block> {
    if chain == [] then None
    else if chain[0].number == number && chain[0].hash == hash then Some(chain[0])
    else FindBlock(chain[1..], number, hash)
  }

  /** The finalized block when it is newer than confirmation depth and on the local chain. */
  function FastHead(chain: seq<Block>, s: Snap, conf: SafeHead): SafeHead {
    if s.attestation.None? || s.attestation.value.sourceNumber <= conf.number then conf
    else match FindBlock(chain, s.attestation.value.sourceNumber, s.attestation.value.sourceHash)
      case None => conf
      case Some(b) => conf.(number := b.number, hash := b.hash, stateRoot := b.stateRoot)
  }

  function ReadHead(fast: bool, chain: seq<Block>, s: Snap, conf: SafeHead): SafeHead {
    if fast then FastHead(chain, s, conf) else conf
  }

  // ----- one resync -----

  datatype Heads = Heads(read: SafeHead, conf: SafeHead)

  /** State after the call, and the heads it serves or the error it ends in. */
  datatype Resynced = Resynced(state: State, result: Result<Heads, SyncError>)

  /** Append, then recovery if the link broke. */
  function AppendOrRecover(c: Crypto, cfg: Config, st: State, tip: nat, up: Upstream): Outcome {
    var a := Append(c, st.chain, st.snap, tip, up.append);
    var st1 := st.(chain := a.chain, snap := a.snap);
    match a.error
    case None => Outcome(st1, None)
    case Some(e) => if IsLinkErr(e) then Recover(c, cfg, st1, tip, up, e) else Outcome(st1, Some(e))
  }

  function Recorded(st: State): State {
    st.(rollbacks := RecordRollback(st.rollbacks, st.snap, FirstNumber(st.chain)))
  }

  function HeadsOf(fast: bool, st: State): Result<Heads, SyncError> {
    match NewestSafe(st.chain, N_SEAL)
    case None => Err(NoSafe)
    case Some(conf) => Ok(Heads(ReadHead(fast, st.chain, st.snap, conf), conf))
  }

  /** Record a rollback point and read the heads. */
  function Finish(fast: bool, o: Outcome): Resynced {
    if o.error.Some? then Resynced(o.state, Err(o.error.value))
    else Resynced(Recorded(o.state), HeadsOf(fast, Recorded(o.state)))
  }

  function Resync(c: Crypto, cfg: Config, st: State, tip: nat, up: Upstream): Resynced {
    if tip > SatAdd(LastNumber(st.chain), cfg.maxSync) then Resynced(st, Err(TipJumped))
    else Finish(cfg.fast, AppendOrRecover(c, cfg, st, tip, up))
  }

  // ----- the invariant -----

  /** The branch as it stood at a height. */
  function Cut(b: Branch, n: nat): Branch
    requires b.base.number <= n <= b.base.number + |b.hist|
  {
    b.(hist := b.hist[..n - b.base.number])
  }

  /** A retained snapshot is the state of this very branch at its own height. */
  ghost predicate PointOf(c: Crypto, b: Branch, p: Snap) {
    b.base.number <= p.number <= b.base.number + |b.hist| && Tracks(c, Cut(b, p.number), p)
  }

  ghost predicate PointAt(c: Crypto, b: Branch, points: seq<Snap>, i: nat)
    requires i < |points|
  {
    PointOf(c, b, points[i])
  }

  ghost predicate Rising(points: seq<Snap>, i: nat, j: nat)
    requires i < |points| && j < |points|
  {
    points[i].number <= points[j].number
  }

  ghost predicate Ordered(c: Crypto, b: Branch, points: seq<Snap>) {
    (forall i: nat | i < |points| :: PointAt(c, b, points, i)) &&
    forall i: nat, j: nat | i < j < |points| :: Rising(points, i, j)
  }

  ghost predicate Points(c: Crypto, b: Branch, points: seq<Snap>) {
    |points| <= ROLLBACK_KEEP && Ordered(c, b, points)
  }

  /** Chain, snapshot and every rollback point describe one branch. */
  ghost predicate Inv(c: Crypto, st: State, b: Branch, from: nat) {
    Follows(c, b, from, st.chain, st.snap) && Points(c, b, st.rollbacks)
  }

  // ----- points under growth, rewind and recording -----

  lemma CutOfExtend(b: Branch, n: nat, more: seq<Header>, m: nat)
    requires b.base.number <= m <= n <= b.base.number + |b.hist|
    ensures Cut(Extend(Cut(b, n), more), m) == Cut(b, m)
  {
    assert (b.hist[..n - b.base.number] + more)[..m - b.base.number] == b.hist[..m - b.base.number];
  }

  lemma CutAll(b: Branch)
    ensures Cut(b, b.base.number + |b.hist|) == b
  {
    assert b.hist[..|b.hist|] == b.hist;
  }

  /** A point at or below the fork is a point of the winning branch too. */
  lemma PointSurvives(c: Crypto, b: Branch, n: nat, more: seq<Header>, p: Snap)
    requires b.base.number <= n <= b.base.number + |b.hist| && PointOf(c, b, p) && p.number <= n
    ensures PointOf(c, Extend(Cut(b, n), more), p)
  {
    CutOfExtend(b, n, more, p.number);
  }

  lemma PointsSurvive(c: Crypto, b: Branch, n: nat, more: seq<Header>, points: seq<Snap>)
    requires b.base.number <= n <= b.base.number + |b.hist| && Points(c, b, points)
    requires points == [] || points[|points| - 1].number <= n
    ensures Points(c, Extend(Cut(b, n), more), points)
  {
    var won := Extend(Cut(b, n), more);
    forall i: nat | i < |points|
      ensures PointAt(c, won, points, i)
    {
      assert PointAt(c, b, points, i);
      BelowNewest(points, i);
      PointSurvives(c, b, n, more, points[i]);
    }
  }

  lemma BelowNewest(points: seq<Snap>, i: nat)
    requires i < |points| && forall j: nat, k: nat | j < k < |points| :: Rising(points, j, k)
    ensures points[i].number <= points[|points| - 1].number
  {
    assert i < |points| - 1 ==> Rising(points, i, |points| - 1);
  }

  lemma PointsOfPart(c: Crypto, b: Branch, points: seq<Snap>, lo: nat, hi: nat)
    requires Ordered(c, b, points) && lo <= hi <= |points|
    ensures Ordered(c, b, points[lo..hi])
  {
    var part := points[lo..hi];
    forall i: nat | i < |part|
      ensures PointAt(c, b, part, i)
    {
      assert PointAt(c, b, points, lo + i);
    }
    forall i: nat, j: nat | i < j < |part|
      ensures Rising(part, i, j)
    {
      assert Rising(points, lo + i, lo + j);
    }
  }

  lemma {:induction false} DropAboveKeeps(c: Crypto, b: Branch, points: seq<Snap>, n: nat)
    requires Points(c, b, points)
    ensures var r := DropAbove(points, n); Points(c, b, r) && r <= points && (r == [] || r[|r| - 1].number <= n)
  {
    if points != [] && points[|points| - 1].number > n {
      PointsOfPart(c, b, points, 0, |points| - 1);
      DropAboveKeeps(c, b, points[..|points| - 1], n);
    }
  }

  lemma {:induction false} DropBelowKeeps(c: Crypto, b: Branch, points: seq<Snap>, floor: nat)
    requires Points(c, b, points)
    ensures var r := DropBelow(points, floor); Points(c, b, r) && (r == [] || r[0].number >= floor)
  {
    if points != [] && points[0].number < floor {
      PointsOfPart(c, b, points, 1, |points|);
      assert points[1..|points|] == points[1..];
      DropBelowKeeps(c, b, points[1..], floor);
    }
  }

  lemma HeadNumber(c: Crypto, b: Branch, s: Snap)
    requires WellBooted(b) && Tracks(c, b, s)
    ensures s.number == b.base.number + |b.hist|
  {
    var f := SpineHead(c, b, s);
  }

  lemma TracksSame(c: Crypto, b: Branch, same: Branch, s: Snap)
    requires Tracks(c, b, s) && same == b
    ensures Tracks(c, same, s)
  {
  }

  lemma HeadIsPoint(c: Crypto, b: Branch, s: Snap)
    requires WellBooted(b) && Tracks(c, b, s)
    ensures PointOf(c, b, s) && s.number == b.base.number + |b.hist|
  {
    HeadNumber(c, b, s);
    CutAll(b);
    TracksSame(c, b, Cut(b, s.number), s);
  }

  lemma PointBelow(c: Crypto, b: Branch, points: seq<Snap>, i: nat)
    requires Ordered(c, b, points) && i < |points|
    ensures points[i].number <= b.base.number + |b.hist|
  {
    assert PointAt(c, b, points, i);
  }

  lemma PushOrdered(c: Crypto, b: Branch, points: seq<Snap>, s: Snap)
    requires Ordered(c, b, points) && PointOf(c, b, s) && s.number == b.base.number + |b.hist|
    ensures Ordered(c, b, points + [s])
  {
    var all := points + [s];
    forall i: nat | i < |all|
      ensures PointAt(c, b, all, i)
    {
      assert i < |points| ==> PointAt(c, b, points, i);
    }
    forall i: nat, j: nat | i < j < |all|
      ensures Rising(all, i, j)
    {
      PointBelow(c, b, points, i);
      assert j < |points| ==> Rising(points, i, j);
    }
  }

  lemma PushPoint(c: Crypto, b: Branch, points: seq<Snap>, s: Snap)
    requires Ordered(c, b, points) && PointOf(c, b, s) && s.number == b.base.number + |b.hist|
    ensures Points(c, b, NewestPoints(points + [s]))
  {
    var all := points + [s];
    PushOrdered(c, b, points, s);
    var lo := if |all| > ROLLBACK_KEEP then |all| - ROLLBACK_KEEP else 0;
    PointsOfPart(c, b, all, lo, |all|);
    assert all[lo..|all|] == NewestPoints(all);
  }

  /** Every point inside the window, and the newest at most 15 blocks behind the head. */
  ghost predicate NearHead(points: seq<Snap>, s: Snap, floor: nat) {
    points != [] && points[0].number >= floor && s.number < points[|points| - 1].number + ROLLBACK_EVERY
  }

  lemma RecordedPoints(c: Crypto, b: Branch, points: seq<Snap>, s: Snap, floor: nat)
    requires Points(c, b, points) && PointOf(c, b, s) && s.number == b.base.number + |b.hist| && floor <= s.number
    ensures Points(c, b, RecordRollback(points, s, floor)) && NearHead(RecordRollback(points, s, floor), s, floor)
  {
    DropBelowKeeps(c, b, points, floor);
    PushPoint(c, b, DropBelow(points, floor), s);
    RecordedFirst(DropBelow(points, floor), s, floor);
  }

  lemma FloorBelowHead(c: Crypto, b: Branch, from: nat, chain: seq<Block>, s: Snap)
    requires Follows(c, b, from, chain, s)
    ensures FirstNumber(chain) <= s.number
  {
    FollowsShape(c, b, from, chain, s);
  }

  /** Recording keeps the invariant, drops what the window has dropped, and leaves a point at most 15
      blocks behind the head. */
  lemma RecordKeeps(c: Crypto, st: State, b: Branch, from: nat)
    requires Inv(c, st, b, from)
    ensures Inv(c, Recorded(st), b, from)
    ensures NearHead(Recorded(st).rollbacks, st.snap, FirstNumber(st.chain))
  {
    HeadIsPoint(c, b, st.snap);
    FloorBelowHead(c, b, from, st.chain, st.snap);
    RecordedPoints(c, b, st.rollbacks, st.snap, FirstNumber(st.chain));
  }

  lemma RecordedFirst(kept: seq<Snap>, s: Snap, floor: nat)
    requires |kept| <= ROLLBACK_KEEP && (forall i: nat, j: nat | i < j < |kept| :: Rising(kept, i, j)) && (kept == [] || kept[0].number >= floor) && s.number >= floor
    ensures var r := if Due(kept, s) then NewestPoints(kept + [s]) else kept;
            r != [] && r[0].number >= floor && s.number < r[|r| - 1].number + ROLLBACK_EVERY
  {
    if Due(kept, s) && |kept| == ROLLBACK_KEEP {
      assert Rising(kept, 0, 1);
    }
  }

  // ----- the search -----

  /** A point recovery passes over: unusable, or itself on the losing branch. */
  predicate Skipped(c: Crypto, st: State, tip: nat, up: Upstream, j: nat)
    requires j < |st.rollbacks|
  {
    var p := st.rollbacks[j];
    !Usable(st.chain, p, tip) ||
    (WalkFrom(c, st.chain, p, tip, up).error.Some? && IsLinkErr(WalkFrom(c, st.chain, p, tip, up).error.value))
  }

  ghost predicate AllSkipped(c: Crypto, st: State, tip: nat, up: Upstream, lo: nat, hi: nat)
    requires hi <= |st.rollbacks|
  {
    forall j: nat | lo <= j < hi :: Skipped(c, st, tip, up, j)
  }

  /** A point is where the search of the first i points ends. */
  ghost predicate EndsAt(c: Crypto, st: State, tip: nat, up: Upstream, i: nat, p: nat) {
    p < i <= |st.rollbacks| && !Skipped(c, st, tip, up, p) && AllSkipped(c, st, tip, up, p + 1, i)
  }

  ghost predicate Found(c: Crypto, st: State, tip: nat, up: Upstream, i: nat, a: Attempt)
    requires i <= |st.rollbacks|
  {
    match a
    case Exhausted => AllSkipped(c, st, tip, up, 0, i)
    case Rewound(p) => EndsAt(c, st, tip, up, i, p) && WalkFrom(c, st.chain, st.rollbacks[p], tip, up).error.None?
    case Stopped(e) =>
      exists p: nat :: EndsAt(c, st, tip, up, i, p) && WalkFrom(c, st.chain, st.rollbacks[p], tip, up).error == Some(e)
  }

  lemma SearchStep(c: Crypto, st: State, tip: nat, up: Upstream, i: nat)
    requires 0 < i <= |st.rollbacks|
    ensures var w := WalkFrom(c, st.chain, st.rollbacks[i - 1], tip, up);
            Search(c, st, tip, up, i) ==
            if Skipped(c, st, tip, up, i - 1) then Search(c, st, tip, up, i - 1)
            else if w.error.None? then Rewound(i - 1) else Stopped(w.error.value)
  {
  }

  lemma SkippedMore(c: Crypto, st: State, tip: nat, up: Upstream, lo: nat, i: nat)
    requires 0 < i <= |st.rollbacks| && Skipped(c, st, tip, up, i - 1) && AllSkipped(c, st, tip, up, lo, i - 1)
    ensures AllSkipped(c, st, tip, up, lo, i)
  {
  }

  lemma EndsEarlier(c: Crypto, st: State, tip: nat, up: Upstream, i: nat, p: nat)
    requires 0 < i <= |st.rollbacks| && Skipped(c, st, tip, up, i - 1) && EndsAt(c, st, tip, up, i - 1, p)
    ensures EndsAt(c, st, tip, up, i, p)
  {
    SkippedMore(c, st, tip, up, p + 1, i);
  }

  lemma FoundEarlier(c: Crypto, st: State, tip: nat, up: Upstream, i: nat, a: Attempt)
    requires 0 < i <= |st.rollbacks| && Skipped(c, st, tip, up, i - 1) && Found(c, st, tip, up, i - 1, a)
    ensures Found(c, st, tip, up, i, a)
  {
    match a {
      case Exhausted => SkippedMore(c, st, tip, up, 0, i);
      case Rewound(p) => EndsEarlier(c, st, tip, up, i, p);
      case Stopped(e) =>
        var p: nat :| EndsAt(c, st, tip, up, i - 1, p) && WalkFrom(c, st.chain, st.rollbacks[p], tip, up).error == Some(e);
        EndsEarlier(c, st, tip, up, i, p);
    }
  }

  /** Recovery rewinds to the newest point that is not passed over, and gives up there if its walk
      fails for another reason; the replay is reached only when every point was passed over. */
  lemma {:induction false} SearchIsNewest(c: Crypto, st: State, tip: nat, up: Upstream, i: nat)
    requires i <= |st.rollbacks|
    ensures Found(c, st, tip, up, i, Search(c, st, tip, up, i))
  {
    if i > 0 {
      SearchStep(c, st, tip, up, i);
      if Skipped(c, st, tip, up, i - 1) {
        SearchIsNewest(c, st, tip, up, i - 1);
        FoundEarlier(c, st, tip, up, i, Search(c, st, tip, up, i - 1));
      } else {
        assert EndsAt(c, st, tip, up, i, i - 1);
      }
    }
  }

  // ----- rewinding -----

  lemma {:induction false} UptoIsPrefix(chain: seq<Block>, first: nat, n: nat)
    requires forall i: nat | i < |chain| :: chain[i].number == first + i
    requires first <= n < first + |chain|
    ensures Upto(chain, n) == chain[..n - first + 1]
  {
    assert chain[0].number == first;
    if n > first {
      forall i: nat | i < |chain[1..]|
        ensures chain[1..][i].number == first + 1 + i
      {
        assert chain[1..][i] == chain[i + 1];
      }
      UptoIsPrefix(chain[1..], first + 1, n);
    } else if |chain| > 1 {
      assert chain[1].number == first + 1;
    }
  }

  lemma {:induction false} UptoIsPart(chain: seq<Block>, n: nat)
    ensures Upto(chain, n) <= chain
  {
    if chain != [] && chain[0].number <= n {
      UptoIsPart(chain[1..], n);
    }
  }

  lemma FullOfCut(b: Branch, from: nat, n: nat)
    requires b.base.number + from <= n <= b.base.number + |b.hist|
    ensures Full(Cut(b, n))[from..] == Full(b)[from..][..n - b.base.number - from + 1]
  {
    assert Full(Cut(b, n)) == Full(b)[..n - b.base.number + 1];
  }

  /** Truncated to a usable point, chain and snapshot describe the branch as it stood there. */
  lemma RewindFollows(c: Crypto, st: State, b: Branch, from: nat, i: nat, tip: nat)
    requires Inv(c, st, b, from) && i < |st.rollbacks| && Usable(st.chain, st.rollbacks[i], tip)
    ensures var p := st.rollbacks[i];
            PointOf(c, b, p) && Follows(c, Cut(b, p.number), from, Upto(st.chain, p.number), p)
  {
    var p := st.rollbacks[i];
    assert PointAt(c, b, st.rollbacks, i);
    FollowsShape(c, b, from, st.chain, st.snap);
    assert |st.chain| == |b.hist| + 1 - from && st.chain[0].number == b.base.number + from;
    UptoIsPrefix(st.chain, b.base.number + from, p.number);
    FullOfCut(b, from, p.number);
  }

  /** The headers a walk from a point gets to see. */
  function RewindSees(st: State, p: Snap, tip: nat, up: Upstream): seq<Header> {
    Seen(Upto(st.chain, p.number), tip, up.rewind(p.number))
  }

  /** The branch a successful rewind ends on: the old one up to the point, then the reply. */
  function RewoundBranch(st: State, b: Branch, p: Snap, tip: nat, up: Upstream): Branch
    requires b.base.number <= p.number <= b.base.number + |b.hist|
  {
    Extend(Cut(b, p.number), RewindSees(st, p, tip, up))
  }

  /** A walk that accepted headers ends in the fold; one that saw none ends where it started. */
  ghost predicate FoldOrPoint(c: Crypto, st: State, p: Snap, tip: nat, up: Upstream, won: Branch, after: Snap) {
    if RewindSees(st, p, tip, up) == [] then after == p else IsFold(c, won, after)
  }

  ghost predicate WonByRewind(c: Crypto, st: State, b: Branch, i: nat, tip: nat, up: Upstream, won: Branch) {
    i < |st.rollbacks| && PointOf(c, b, st.rollbacks[i]) && Usable(st.chain, st.rollbacks[i], tip) &&
    (tip <= st.rollbacks[i].number || up.rewind(st.rollbacks[i].number).Headers?) &&
    won == RewoundBranch(st, b, st.rollbacks[i], tip, up)
  }

  ghost predicate WonByReplay(cfg: Config, tip: nat, up: Upstream, won: Branch) {
    cfg.origin.Some? && won.base.number == cfg.origin.value.number && won.base.hash == cfg.origin.value.hash &&
    (tip <= cfg.origin.value.number || up.replay.Headers?) &&
    won.hist == if tip <= cfg.origin.value.number || up.replay.Failed? then [] else up.replay.headers
  }

  lemma RewindWins(c: Crypto, st: State, b: Branch, from: nat, i: nat, tip: nat, up: Upstream) returns (won: Branch, from': nat)
    requires Inv(c, st, b, from) && i < |st.rollbacks| && Usable(st.chain, st.rollbacks[i], tip)
    requires WalkFrom(c, st.chain, st.rollbacks[i], tip, up).error.None?
    ensures WonByRewind(c, st, b, i, tip, up, won)
    ensures var r := WalkFrom(c, st.chain, st.rollbacks[i], tip, up);
            Follows(c, won, from', r.chain, r.snap) && Points(c, won, DropAbove(st.rollbacks, st.rollbacks[i].number))
            && FoldOrPoint(c, st, st.rollbacks[i], tip, up, won, r.snap)
  {
    var p := st.rollbacks[i];
    RewindFollows(c, st, b, from, i, tip);
    var more, later := AppendFollows(c, Cut(b, p.number), from, Upto(st.chain, p.number), p, tip, up.rewind(p.number));
    won, from' := Extend(Cut(b, p.number), more), later;
    DropAboveKeeps(c, b, st.rollbacks, p.number);
    PointsSurvive(c, b, p.number, more, DropAbove(st.rollbacks, p.number));
    if more == [] { AppendNothing(c, Upto(st.chain, p.number), p, tip, up.rewind(p.number)); }
  }

  /** Recovery leaves no trace of the losing branch, and a failed one changes nothing. */
  lemma RecoverFollows(c: Crypto, cfg: Config, st: State, b: Branch, from: nat, tip: nat, up: Upstream, err: SyncError)
    returns (won: Branch, from': nat)
    requires Inv(c, st, b, from) && (cfg.origin.Some? ==> Bootable(cfg.origin.value))
    ensures var o := Recover(c, cfg, st, tip, up, err);
            Inv(c, o.state, won, from') && (o.error.Some? ==> o.state == st && won == b && from' == from)
            && (o.error.None? ==> Won(c, cfg, st, b, tip, up, o.state, won))
  {
    match Search(c, st, tip, up, |st.rollbacks|) {
      case Stopped(e) =>
        won, from' := b, from;
      case Rewound(i) =>
        won, from' := RecoverRewound(c, cfg, st, b, from, tip, up, err, i);
      case Exhausted =>
        won, from' := RecoverReplayed(c, cfg, st, b, from, tip, up, err);
    }
  }

  /** How a recovery ended: on the branch of a rewind to the point the search chose, or on the
      checkpoint's branch with no point left. The snapshot is the fold over the branch, unless the
      walk from the point saw no header: then it is that point, untouched. */
  ghost predicate Won(c: Crypto, cfg: Config, st: State, b: Branch, tip: nat, up: Upstream, after: State, won: Branch) {
    match Search(c, st, tip, up, |st.rollbacks|)
    case Rewound(i) =>
      WonByRewind(c, st, b, i, tip, up, won) && FoldOrPoint(c, st, st.rollbacks[i], tip, up, won, after.snap)
    case Exhausted => WonByReplay(cfg, tip, up, won) && after.rollbacks == [] && IsFold(c, won, after.snap)
    case Stopped(_) => false
  }

  lemma RecoverRewound(c: Crypto, cfg: Config, st: State, b: Branch, from: nat, tip: nat, up: Upstream, err: SyncError, i: nat)
    returns (won: Branch, from': nat)
    requires Inv(c, st, b, from) && Search(c, st, tip, up, |st.rollbacks|) == Rewound(i)
    ensures var o := Recover(c, cfg, st, tip, up, err);
            o.error.None? && Inv(c, o.state, won, from') && Won(c, cfg, st, b, tip, up, o.state, won)
  {
    won, from' := RewindWins(c, st, b, from, i, tip, up);
  }

  lemma RecoverReplayed(c: Crypto, cfg: Config, st: State, b: Branch, from: nat, tip: nat, up: Upstream, err: SyncError)
    returns (won: Branch, from': nat)
    requires Inv(c, st, b, from) && (cfg.origin.Some? ==> Bootable(cfg.origin.value))
    requires Search(c, st, tip, up, |st.rollbacks|).Exhausted?
    ensures var o := Recover(c, cfg, st, tip, up, err);
            Inv(c, o.state, won, from') && (o.error.Some? ==> o.state == st && won == b && from' == from)
            && (o.error.None? ==> Won(c, cfg, st, b, tip, up, o.state, won))
  {
    won, from' := b, from;
    if cfg.origin.Some? && Walk(c, cfg.origin.value, tip, cfg.maxSync, up.boot, up.replay).error.None? {
      won, from' := WalkFollows(c, cfg.origin.value, tip, cfg.maxSync, up.boot, up.replay);
    }
  }

  // ----- every resync, every run -----

  lemma PointsGrow(c: Crypto, b: Branch, more: seq<Header>, points: seq<Snap>)
    requires Points(c, b, points)
    ensures Points(c, Extend(b, more), points)
  {
    CutAll(b);
    assert points == [] || PointAt(c, b, points, |points| - 1);
    PointsSurvive(c, b, b.base.number + |b.hist|, more, points);
  }

  lemma InvGrows(c: Crypto, st: State, b: Branch, from: nat, more: seq<Header>, from': nat, chain: seq<Block>, s: Snap)
    requires Inv(c, st, b, from) && Follows(c, Extend(b, more), from', chain, s)
    ensures Inv(c, st.(chain := chain, snap := s), Extend(b, more), from')
  {
    PointsGrow(c, b, more, st.rollbacks);
  }

  /** How the branch after a call relates to the one before: grown by headers of the reply, or, when
      the link broke after those, replaced by the branch of a rewind or a replay. */
  ghost predicate Moved(c: Crypto, cfg: Config, st: State, b: Branch, tip: nat, up: Upstream, more: seq<Header>, won: Branch, recovered: bool) {
    more <= Seen(st.chain, tip, up.append) &&
    if recovered then
      var a := Append(c, st.chain, st.snap, tip, up.append);
      a.error.Some? && |more| < |Seen(st.chain, tip, up.append)| &&
      ((exists i: nat :: WonByRewind(c, st.(chain := a.chain, snap := a.snap), Extend(b, more), i, tip, up, won))
       || WonByReplay(cfg, tip, up, won))
    else won == Extend(b, more)
  }

  /** The snapshot a successful call ends with when it accepted no header at all; None when it did. */
  ghost function KeptSnap(c: Crypto, st: State, tip: nat, up: Upstream): Option<Snap> {
    var a := Append(c, st.chain, st.snap, tip, up.append);
    if a.error.None? then if Seen(st.chain, tip, up.append) == [] then Some(st.snap) else None
    else
      var st1 := st.(chain := a.chain, snap := a.snap);
      match Search(c, st1, tip, up, |st1.rollbacks|)
      case Rewound(i) => if RewindSees(st1, st1.rollbacks[i], tip, up) == [] then Some(st1.rollbacks[i]) else None
      case _ => None
  }

  /** After a success that accepted a header, the snapshot is the fold; otherwise the one kept. */
  ghost predicate FoldOrKept(c: Crypto, won: Branch, st: State, tip: nat, up: Upstream, after: Snap) {
    match KeptSnap(c, st, tip, up)
    case Some(kept) => after == kept
    case None => IsFold(c, won, after)
  }

  lemma KeptByRecovery(c: Crypto, cfg: Config, st: State, st1: State, b: Branch, tip: nat, up: Upstream, after: State, won: Branch)
    requires Append(c, st.chain, st.snap, tip, up.append).error.Some?
    requires st1 == st.(chain := Append(c, st.chain, st.snap, tip, up.append).chain, snap := Append(c, st.chain, st.snap, tip, up.append).snap)
    requires Won(c, cfg, st1, b, tip, up, after, won)
    ensures FoldOrKept(c, won, st, tip, up, after.snap)
  {
  }

  lemma KeptByAppend(c: Crypto, st: State, tip: nat, up: Upstream, won: Branch, a: Synced)
    requires a == Append(c, st.chain, st.snap, tip, up.append) && a.error.None?
    requires Seen(st.chain, tip, up.append) != [] ==> IsFold(c, won, a.snap)
    ensures FoldOrKept(c, won, st, tip, up, a.snap)
  {
    if Seen(st.chain, tip, up.append) == [] {
      AppendNothing(c, st.chain, st.snap, tip, up.append);
    }
  }

  lemma LinkErrSawHeaders(c: Crypto, st: State, tip: nat, reply: Reply)
    requires Append(c, st.chain, st.snap, tip, reply).error.Some? && IsLinkErr(Append(c, st.chain, st.snap, tip, reply).error.value)
    ensures Seen(st.chain, tip, reply) != []
  {
  }

  lemma AdvanceFollows(c: Crypto, cfg: Config, st: State, b: Branch, from: nat, tip: nat, up: Upstream)
    returns (more: seq<Header>, won: Branch, from': nat, recovered: bool)
    requires Inv(c, st, b, from) && (cfg.origin.Some? ==> Bootable(cfg.origin.value))
    ensures var o := AppendOrRecover(c, cfg, st, tip, up);
            Inv(c, o.state, won, from') && Moved(c, cfg, st, b, tip, up, more, won, recovered) &&
            (!recovered ==> from <= from') && (o.error.None? && !recovered ==> more == Seen(st.chain, tip, up.append)) &&
            (o.error.None? ==> FoldOrKept(c, won, st, tip, up, o.state.snap))
  {
    var later;
    more, later := AppendFollows(c, b, from, st.chain, st.snap, tip, up.append);
    won, from', recovered := Extend(b, more), later, false;
    var a := Append(c, st.chain, st.snap, tip, up.append);
    var st1 := st.(chain := a.chain, snap := a.snap);
    InvGrows(c, st, b, from, more, later, a.chain, a.snap);
    if a.error.None? {
      KeptByAppend(c, st, tip, up, won, a);
    }
    if a.error.Some? && IsLinkErr(a.error.value) {
      LinkErrSawHeaders(c, st, tip, up.append);
      won, from' := RecoverFollows(c, cfg, st1, Extend(b, more), later, tip, up, a.error.value);
      var o := Recover(c, cfg, st1, tip, up, a.error.value);
      recovered := o.error.None?;
      if recovered {
        KeptByRecovery(c, cfg, st, st1, Extend(b, more), tip, up, o.state, won);
      }
    }
  }

  /** After a success there is a rollback point at most 15 blocks behind the head. */
  ghost predicate Covered(r: Resynced) {
    r.result.Ok? ==> r.state.rollbacks != [] &&
                     r.state.snap.number < r.state.rollbacks[|r.state.rollbacks| - 1].number + ROLLBACK_EVERY
  }

  lemma FinishKeeps(c: Crypto, fast: bool, o: Outcome, b: Branch, from: nat)
    requires Inv(c, o.state, b, from)
    ensures Inv(c, Finish(fast, o).state, b, from) && Covered(Finish(fast, o)) && Finish(fast, o).state.snap == o.state.snap
  {
    RecordKeeps(c, o.state, b, from);
  }

  /** Every resync, whatever the upstream answers and however it ends, leaves chain, snapshot and
      rollback points describing one branch. After a success that accepted a header the snapshot is
      the fold over that branch; one that accepted none leaves a snapshot it already had. */
  lemma ResyncFollows(c: Crypto, cfg: Config, st: State, b: Branch, from: nat, tip: nat, up: Upstream)
    returns (more: seq<Header>, won: Branch, from': nat, recovered: bool)
    requires Inv(c, st, b, from) && (cfg.origin.Some? ==> Bootable(cfg.origin.value))
    ensures var r := Resync(c, cfg, st, tip, up);
            Inv(c, r.state, won, from') && Moved(c, cfg, st, b, tip, up, more, won, recovered) && (!recovered ==> from <= from')
            && Covered(r) && (r.result.Ok? ==> FoldOrKept(c, won, st, tip, up, r.state.snap))
  {
    if tip > SatAdd(LastNumber(st.chain), cfg.maxSync) {
      more, won, from', recovered := [], b, from, false;
      ExtendNone(b);
    } else {
      more, won, from', recovered := AdvanceFollows(c, cfg, st, b, from, tip, up);
      FinishKeeps(c, cfg.fast, AppendOrRecover(c, cfg, st, tip, up), won, from');
    }
  }

  lemma CutHead(b: Branch, n: nat, f: Snap)
    requires WellBooted(b) && b.base.number <= n <= b.base.number + |b.hist| && Spine(b.base, Cut(b, n).hist, f)
    ensures var k := n - b.base.number; Full(b)[k].number == f.number && Full(b)[k].hash == f.hash
  {
    var part, k := Cut(b, n), n - b.base.number;
    FullAt(part, f, k);
    assert Full(part)[k] == Full(b)[k];
  }

  /** A rollback point stands on the block of the branch at its height. */
  lemma PointHash(c: Crypto, b: Branch, p: Snap)
    requires WellBooted(b) && PointOf(c, b, p)
    ensures var k := p.number - b.base.number; Full(b)[k].number == p.number && Full(b)[k].hash == p.hash
  {
    var f := SpineHead(c, Cut(b, p.number), p);
    CutHead(b, p.number, f);
  }

  /** A rollback point inside the window names a block of the chain, by number and by hash. */
  lemma PointOnChain(c: Crypto, st: State, b: Branch, from: nat, i: nat)
    requires Inv(c, st, b, from) && i < |st.rollbacks| && st.rollbacks[i].number >= FirstNumber(st.chain)
    ensures var k := st.rollbacks[i].number - FirstNumber(st.chain);
            k < |st.chain| && st.chain[k].number == st.rollbacks[i].number && st.chain[k].hash == st.rollbacks[i].hash
  {
    assert PointAt(c, b, st.rollbacks, i);
    FollowsShape(c, b, from, st.chain, st.snap);
    assert st.chain[0].number == b.base.number + from;
    PointHash(c, b, st.rollbacks[i]);
  }

  datatype Call = Call(tip: nat, up: Upstream)

  function Calls(c: Crypto, cfg: Config, st: State, calls: seq<Call>): State {
    if calls == [] then st
    else
      var n := |calls| - 1;
      Resync(c, cfg, Calls(c, cfg, st, calls[..n]), calls[n].tip, calls[n].up).state
  }

  /** What a caller can rely on after any number of resyncs. */
  ghost predicate Sound(st: State) {
    st.chain != [] && LastNumber(st.chain) == st.snap.number && st.chain[|st.chain| - 1].hash == st.snap.hash &&
    (forall i: nat | i + 1 < |st.chain| :: LinkedBlocks(st.chain, i)) &&
    forall i: nat | i < |st.rollbacks| :: PointInWindow(st, i)
  }

  ghost predicate PointInWindow(st: State, i: nat)
    requires i < |st.rollbacks|
  {
    st.rollbacks[i].number >= FirstNumber(st.chain) ==>
      exists k: nat :: k < |st.chain| && st.chain[k].number == st.rollbacks[i].number && st.chain[k].hash == st.rollbacks[i].hash
  }

  lemma InvIsSound(c: Crypto, st: State, b: Branch, from: nat)
    requires Inv(c, st, b, from)
    ensures Sound(st)
  {
    FollowsShape(c, b, from, st.chain, st.snap);
    forall i: nat | i < |st.rollbacks|
      ensures PointInWindow(st, i)
    {
      if st.rollbacks[i].number >= FirstNumber(st.chain) {
        PointOnChain(c, st, b, from, i);
      }
    }
  }

  ghost predicate LastFolds(c: Crypto, cfg: Config, st: State, calls: seq<Call>, won: Branch) {
    calls != [] ==>
      var n := |calls| - 1;
      var before := Calls(c, cfg, st, calls[..n]);
      Resync(c, cfg, before, calls[n].tip, calls[n].up).result.Ok? ==> FoldOrKept(c, won, before, calls[n].tip, calls[n].up, Calls(c, cfg, st, calls).snap)
  }

  /** Over every run of resyncs from a checkpoint, failed ones included: the chain is consecutive and
      parent-linked, the snapshot stands on its last block and is the fold over one branch up to the
      one entry a rejection drops, exactly so after a success that accepted a header, and every
      rollback point in the window sits on a block of that chain. */
  lemma {:induction false} RunsAreSound(c: Crypto, cfg: Config, st: State, b: Branch, from: nat, calls: seq<Call>)
    returns (won: Branch, from': nat)
    requires Inv(c, st, b, from) && (cfg.origin.Some? ==> Bootable(cfg.origin.value))
    ensures Inv(c, Calls(c, cfg, st, calls), won, from') && Sound(Calls(c, cfg, st, calls))
    ensures LastFolds(c, cfg, st, calls, won)
  {
    won, from' := b, from;
    if calls != [] {
      var n := |calls| - 1;
      won, from' := RunsAreSound(c, cfg, st, b, from, calls[..n]);
      var more, recovered;
      more, won, from', recovered := ResyncFollows(c, cfg, Calls(c, cfg, st, calls[..n]), won, from', calls[n].tip, calls[n].up);
    }
    InvIsSound(c, Calls(c, cfg, st, calls), won, from');
  }

  // ----- booting from a checkpoint -----

  /** One poll of the boot's wait for a first Safe head: the tip sampled and the reply to the append. */
  datatype Poll = Poll(tip: nat, reply: Reply)

  datatype Waited = Waited(chain: seq<Block>, snap: Snap, safe: SafeHead)

  /** Append until a confirmation-depth head exists; None when an append fails or the polls run out. */
  function WaitForSafe(c: Crypto, chain: seq<Block>, s: Snap, polls: seq<Poll>): Option<Waited>
    decreases |polls|
  {
    var safe := NewestSafe(chain, N_SEAL);
    if safe.Some? then Some(Waited(chain, s, safe.value))
    else if polls == [] then None
    else
      var r := Append(c, chain, s, polls[0].tip, polls[0].reply);
      if r.error.Some? then None else WaitForSafe(c, r.chain, r.snap, polls[1..])
  }

  /** What a booted node starts with; its own head is its first rollback point. */
  datatype Booted = Booted(state: State, safe: SafeHead)

  function Bootstrap(c: Crypto, cp: Checkpoint, tip: nat, maxSync: nat, up: BootReply, reply: Reply, polls: seq<Poll>): Option<Booted> {
    var r := Walk(c, cp, tip, maxSync, up, reply);
    if r.error.Some? then None
    else match WaitForSafe(c, r.chain, r.snap, polls)
      case None => None
      case Some(w) => Some(Booted(State(w.chain, w.snap, [w.snap]), w.safe))
  }

  lemma WaitStep(c: Crypto, chain: seq<Block>, s: Snap, polls: seq<Poll>) returns (r: Synced)
    requires WaitForSafe(c, chain, s, polls).Some? && NewestSafe(chain, N_SEAL).None?
    ensures polls != [] && r == Append(c, chain, s, polls[0].tip, polls[0].reply)
    ensures WaitForSafe(c, chain, s, polls) == WaitForSafe(c, r.chain, r.snap, polls[1..])
  {
    r := Append(c, chain, s, polls[0].tip, polls[0].reply);
  }

  lemma {:induction false} WaitFollows(c: Crypto, b: Branch, from: nat, chain: seq<Block>, s: Snap, polls: seq<Poll>)
    returns (more: seq<Header>, from': nat)
    requires Follows(c, b, from, chain, s) && WaitForSafe(c, chain, s, polls).Some?
    ensures var w := WaitForSafe(c, chain, s, polls).value;
            Follows(c, Extend(b, more), from', w.chain, w.snap) && NewestSafe(w.chain, N_SEAL) == Some(w.safe)
    ensures NewestSafe(chain, N_SEAL).Some? ==> more == []
    decreases |polls|
  {
    more, from' := [], from;
    ExtendNone(b);
    if NewestSafe(chain, N_SEAL).None? {
      var r := WaitStep(c, chain, s, polls);
      var first, mid := AppendFollows(c, b, from, chain, s, polls[0].tip, polls[0].reply);
      var rest, last := WaitFollows(c, Extend(b, first), mid, r.chain, r.snap, polls[1..]);
      more, from' := first + rest, last;
      ExtendTwice(b, first, rest);
    }
  }

  lemma BornWithPoint(c: Crypto, b: Branch, from: nat, chain: seq<Block>, s: Snap)
    requires Follows(c, b, from, chain, s)
    ensures Inv(c, State(chain, s, [s]), b, from)
  {
    HeadIsPoint(c, b, s);
    PushPoint(c, b, [], s);
    assert NewestPoints([] + [s]) == [s];
  }

  /** A checkpoint boot, its wait for a Safe head included, leaves a state that satisfies the invariant,
      with a Safe head to serve and its own head to rewind to. The boot publishes the tip it sampled
      before walking; that is a verified block's number unless the reply stopped short of it. */
  lemma BootHolds(c: Crypto, cp: Checkpoint, tip: nat, maxSync: nat, up: BootReply, reply: Reply, polls: seq<Poll>)
    returns (b: Branch, from: nat)
    requires Bootable(cp) && Bootstrap(c, cp, tip, maxSync, up, reply, polls).Some?
    ensures var o := Bootstrap(c, cp, tip, maxSync, up, reply, polls).value;
            Inv(c, o.state, b, from) && NewestSafe(o.state.chain, N_SEAL) == Some(o.safe) &&
            b.base.number == cp.number && b.base.hash == cp.hash &&
            (tip <= cp.number || (reply.Headers? && |reply.headers| >= tip - cp.number) ==> tip <= LastNumber(o.state.chain))
    ensures var r := Walk(c, cp, tip, maxSync, up, reply);
            NewestSafe(r.chain, N_SEAL).Some? ==>
              (tip <= LastNumber(Bootstrap(c, cp, tip, maxSync, up, reply, polls).value.state.chain) <==>
               tip <= cp.number || |reply.headers| >= tip - cp.number)
  {
    var r := Walk(c, cp, tip, maxSync, up, reply);
    var walked, start := WalkFollows(c, cp, tip, maxSync, up, reply);
    WalkAsked(c, cp, tip, maxSync, up, reply);
    var more;
    more, from := WaitFollows(c, walked, start, r.chain, r.snap, polls);
    b := Extend(walked, more);
    var w := WaitForSafe(c, r.chain, r.snap, polls).value;
    BornWithPoint(c, b, from, w.chain, w.snap);
    FollowsShape(c, b, from, w.chain, w.snap);
    HeadNumber(c, b, w.snap);
  }

  lemma WalkAsked(c: Crypto, cp: Checkpoint, tip: nat, maxSync: nat, up: BootReply, reply: Reply)
    requires Bootable(cp) && Walk(c, cp, tip, maxSync, up, reply).error.None?
    ensures tip <= cp.number || reply.Headers?
  {
    BootIsFresh(c, cp, up);
  }

  /** From boot on: whatever the upstream answers to the boot, its polls and any number of resyncs. */
  lemma BootedRunsAreSound(
      c: Crypto, cfg: Config, cp: Checkpoint, tip: nat, up: BootReply, reply: Reply, polls: seq<Poll>, calls: seq<Call>)
    returns (won: Branch, from: nat)
    requires Bootable(cp) && cfg.origin == Some(cp) && Bootstrap(c, cp, tip, cfg.maxSync, up, reply, polls).Some?
    ensures var st := Calls(c, cfg, Bootstrap(c, cp, tip, cfg.maxSync, up, reply, polls).value.state, calls);
            Inv(c, st, won, from) && Sound(st)
  {
    won, from := BootHolds(c, cp, tip, cfg.maxSync, up, reply, polls);
    won, from := RunsAreSound(c, cfg, Bootstrap(c, cp, tip, cfg.maxSync, up, reply, polls).value.state, won, from, calls);
  }
}
