/** Running without a checkpoint: a window of parent-linked headers, replaced on a reorg only when the
    new window meets the old one near its tip. */
module Lookback {
  import opened Base
  import opened Vote
  import opened Headers
  import opened Snapshot
  import opened Finality
  import opened Sync

  const MAX_REORG_DEPTH: nat := 21
  const MIN_WINDOW: nat := 16

  // ----- verifying a window -----

  function LinkOk(prev: Block, parent: Hash, number: nat): Option<SyncError> {
    if number != prev.number + 1 then Some(Refused(NumberMismatch))
    else if parent != prev.hash then Some(Refused(ParentHashMismatch))
    else None
  }

  /** Seal, then link, then cascading fields; the first failure decides. */
  function HeaderError(keccak: Hasher, h: Header, prev: Option<Block>): Option<SyncError> {
    match VerifySealCoinbase(keccak, h)
    case Err(e) => Some(Refused(Seal(e)))
    case Ok(_) =>
      if prev.None? then None
      else if LinkOk(prev.value, h.parentHash, h.number).Some? then LinkOk(prev.value, h.parentHash, h.number)
      else if !CascadingOk(prev.value.milli, prev.value.gasLimit, h) then Some(Cascading)
      else None
  }

  function VerifyFrom(keccak: Hasher, hs: seq<Header>, prev: Option<Block>): Result<seq<Block>, SyncError> {
    if hs == [] then Ok([])
    else match HeaderError(keccak, hs[0], prev)
      case Some(e) => Err(e)
      case None => Prepend([BlockOf(hs[0])], VerifyFrom(keccak, hs[1..], Some(BlockOf(hs[0]))))
  }

  function Prepend(done: seq<Block>, r: Result<seq<Block>, SyncError>): Result<seq<Block>, SyncError> {
    match r
    case Err(e) => Err(e)
    case Ok(rest) => Ok(done + rest)
  }

  lemma PrependNone(r: Result<seq<Block>, SyncError>)
    ensures Prepend([], r) == r
  {
    match r {
      case Err(_) =>
      case Ok(rest) => assert [] + rest == rest;
    }
  }

  lemma PrependOne(done: seq<Block>, b: Block, r: Result<seq<Block>, SyncError>)
    ensures Prepend(done, Prepend([b], r)) == Prepend(done + [b], r)
  {
    match r {
      case Err(_) =>
      case Ok(rest) => assert done + ([b] + rest) == done + [b] + rest;
    }
  }

  /** `verify_header_chain_from`: the accumulating loop. */
  method VerifyHeaderChainFrom(keccak: Hasher, hs: seq<Header>, prev: Option<Block>) returns (r: Result<seq<Block>, SyncError>)
    ensures r == VerifyFrom(keccak, hs, prev)
  {
    var chain: seq<Block> := [];
    var linkPrev := prev;
    assert hs[0..] == hs;
    PrependNone(VerifyFrom(keccak, hs, prev));
    for i := 0 to |hs|
      invariant VerifyFrom(keccak, hs, prev) == Prepend(chain, VerifyFrom(keccak, hs[i..], linkPrev))
    {
      assert hs[i..][1..] == hs[i + 1..];
      PrependOne(chain, BlockOf(hs[i]), VerifyFrom(keccak, hs[i + 1..], Some(BlockOf(hs[i]))));
      var error := HeaderError(keccak, hs[i], linkPrev);
      if error.Some? {
        return Err(error.value);
      }
      chain := chain + [BlockOf(hs[i])];
      linkPrev := Some(BlockOf(hs[i]));
    }
    assert chain + [] == chain;
    return Ok(chain);
  }

  // ----- meeting the old window -----

  predicate Same(a: Block, b: Block) {
    a.number == b.number && a.hash == b.hash
  }

  predicate Among(b: Block, chain: seq<Block>) {
    exists j: nat :: j < |chain| && Same(chain[j], b)
  }

  /** Backwards over the first i blocks, as long as they are at or above the floor. */
  predicate MeetsFrom(was: seq<Block>, now: seq<Block>, floor: nat, i: nat)
    requires i <= |was|
  {
    i > 0 && was[i - 1].number >= floor && (Among(was[i - 1], now) || MeetsFrom(was, now, floor, i - 1))
  }

  predicate ReorgWithinDepth(was: seq<Block>, now: seq<Block>, depth: nat) {
    was == [] || now == [] || MeetsFrom(was, now, SatSub(LastNumber(was), depth), |was|)
  }

  predicate Accepts(was: seq<Block>, now: seq<Block>) {
    ReorgWithinDepth(was, now, MAX_REORG_DEPTH)
  }

  /** `reorg_within_depth`: the reversed scan. */
  method ReorgScan(was: seq<Block>, now: seq<Block>, depth: nat) returns (ok: bool)
    ensures ok == ReorgWithinDepth(was, now, depth)
  {
    if was == [] || now == [] {
      return true;
    }
    var floor := SatSub(LastNumber(was), depth);
    var i := |was|;
    while i > 0 && was[i - 1].number >= floor
      invariant 0 <= i <= |was|
      invariant ReorgWithinDepth(was, now, depth) == MeetsFrom(was, now, floor, i)
    {
      i := i - 1;
      var j := 0;
      while j < |now|
        invariant 0 <= j <= |now|
        invariant forall k: nat | k < j :: !Same(now[k], was[i])
      {
        if Same(now[j], was[i]) {
          return true;
        }
        j := j + 1;
      }
    }
    return false;
  }

  // ----- what a verified window is -----

  function LastBlock(chain: seq<Block>): Option<Block> {
    if chain == [] then None else Some(chain[|chain| - 1])
  }

  /** Block i carries the header it came from, its hash is that header's, and it links to block i-1. */
  ghost predicate VerifiedAt(keccak: Hasher, chain: seq<Block>, i: nat)
    requires i < |chain|
  {
    var b := chain[i];
    b.header.Some? && b.number == b.header.value.number && b.hash == b.header.value.hash &&
    keccak(Preimage(b.header.value)) == b.hash.bytes &&
    (i > 0 ==> b.number == chain[i - 1].number + 1 && b.header.value.parentHash == chain[i - 1].hash)
  }

  ghost predicate Verified(keccak: Hasher, chain: seq<Block>) {
    forall i: nat | i < |chain| :: VerifiedAt(keccak, chain, i)
  }

  lemma HeaderVerified(keccak: Hasher, h: Header, prev: Option<Block>)
    requires HeaderError(keccak, h, prev).None?
    ensures keccak(Preimage(h)) == h.hash.bytes
    ensures prev.Some? ==> h.number == prev.value.number + 1 && h.parentHash == prev.value.hash
  {
  }

  lemma VerifiedJoin(keccak: Hasher, chain: seq<Block>, h: Header)
    requires Verified(keccak, chain) && keccak(Preimage(h)) == h.hash.bytes
    requires chain != [] ==> h.number == LastNumber(chain) + 1 && h.parentHash == chain[|chain| - 1].hash
    ensures Verified(keccak, chain + [BlockOf(h)])
  {
    var longer := chain + [BlockOf(h)];
    forall i: nat | i < |longer|
      ensures VerifiedAt(keccak, longer, i)
    {
      if i < |chain| { assert VerifiedAt(keccak, chain, i); }
    }
  }

  lemma VerifyFirst(keccak: Hasher, hs: seq<Header>, prev: Option<Block>, r: seq<Block>) returns (rest: seq<Block>)
    requires hs != [] && VerifyFrom(keccak, hs, prev) == Ok(r)
    ensures VerifyFrom(keccak, hs[1..], Some(BlockOf(hs[0]))) == Ok(rest) && r == [BlockOf(hs[0])] + rest
    ensures HeaderError(keccak, hs[0], prev).None?
  {
    rest := VerifyFrom(keccak, hs[1..], Some(BlockOf(hs[0]))).value;
  }

  lemma JoinFirst(keccak: Hasher, before: seq<Block>, h: Header) returns (mid: seq<Block>)
    requires Verified(keccak, before) && HeaderError(keccak, h, LastBlock(before)).None?
    ensures mid == before + [BlockOf(h)] && LastBlock(mid) == Some(BlockOf(h)) && Verified(keccak, mid)
  {
    mid := before + [BlockOf(h)];
    HeaderVerified(keccak, h, LastBlock(before));
    VerifiedJoin(keccak, before, h);
  }

  lemma VerifyNothing(keccak: Hasher, prev: Option<Block>, r: seq<Block>)
    requires VerifyFrom(keccak, [], prev) == Ok(r)
    ensures r == []
  {
  }

  /** Headers accepted after a verified window extend it to a verified window. */
  lemma {:induction false} VerifyExtends(keccak: Hasher, before: seq<Block>, prev: Option<Block>, hs: seq<Header>, r: seq<Block>)
    requires Verified(keccak, before) && prev == LastBlock(before) && VerifyFrom(keccak, hs, prev) == Ok(r)
    ensures Verified(keccak, before + r)
    decreases |hs|
  {
    if hs == [] {
      VerifyNothing(keccak, prev, r);
      assert before + r == before;
    } else {
      var h, tail := hs[0], hs[1..];
      var rest := VerifyFirst(keccak, hs, prev, r);
      var mid := JoinFirst(keccak, before, h);
      VerifyExtends(keccak, mid, Some(BlockOf(h)), tail, rest);
      Joined(before, BlockOf(h), rest, r);
    }
  }

  lemma Joined(before: seq<Block>, b: Block, rest: seq<Block>, r: seq<Block>)
    requires r == [b] + rest
    ensures before + [b] + rest == before + r
  {
  }

  lemma {:induction false} NumbersRise(keccak: Hasher, chain: seq<Block>, i: nat, j: nat)
    requires Verified(keccak, chain) && i <= j < |chain|
    ensures chain[j].number == chain[i].number + (j - i)
    decreases j
  {
    if i < j {
      assert VerifiedAt(keccak, chain, j);
      NumbersRise(keccak, chain, i, j - 1);
    }
  }

  // ----- the bound -----

  /** Any window a machine can hold: no header is 2^64 bytes long. */
  ghost predicate WindowFits(chain: seq<Block>) {
    forall i: nat | i < |chain| :: BlockFitsAt(chain, i)
  }

  ghost predicate BlockFitsAt(chain: seq<Block>, i: nat)
    requires i < |chain|
  {
    chain[i].header.Some? ==> |Preimage(chain[i].header.value)| < U64
  }

  /** Two different header preimages of these windows with one hash. */
  ghost predicate CollideAt(keccak: Hasher, was: seq<Block>, now: seq<Block>, x: nat, y: nat) {
    x < |was| && y < |now| && was[x].header.Some? && now[y].header.Some? &&
    Collide(keccak, Preimage(was[x].header.value), Preimage(now[y].header.value))
  }

  ghost predicate Collision(keccak: Hasher, was: seq<Block>, now: seq<Block>) {
    exists x: nat, y: nat :: CollideAt(keccak, was, now, x, y)
  }

  /** Equal hashes have equal parents, or their headers collide. */
  lemma SameParent(keccak: Hasher, was: seq<Block>, now: seq<Block>, x: nat, y: nat)
    requires Verified(keccak, was) && Verified(keccak, now) && 0 < x < |was| && 0 < y < |now|
    requires was[x].hash == now[y].hash && WindowFits(was)
    ensures was[x - 1].hash == now[y - 1].hash || CollideAt(keccak, was, now, x, y)
  {
    assert VerifiedAt(keccak, was, x) && VerifiedAt(keccak, now, y) && BlockFitsAt(was, x);
    var a, b := was[x].header.value, now[y].header.value;
    if Preimage(a) == Preimage(b) {
      PreimageNamesParent(a, b);
    }
  }

  /** From a shared block the two windows agree all the way down. */
  lemma {:induction false} SharedBelow(keccak: Hasher, was: seq<Block>, now: seq<Block>, x: nat, y: nat, k: nat)
    requires Verified(keccak, was) && Verified(keccak, now) && x < |was| && y < |now| && k <= x && k <= y
    requires was[x].hash == now[y].hash && WindowFits(was)
    ensures was[x - k].hash == now[y - k].hash || Collision(keccak, was, now)
  {
    if k > 0 {
      SharedBelow(keccak, was, now, x, y, k - 1);
      if was[x - k + 1].hash == now[y - k + 1].hash {
        SameParent(keccak, was, now, x - k + 1, y - k + 1);
      }
    }
  }

  /** Block x of the old window is block y of the new one, at most 21 below the old tip. */
  ghost predicate Meets(was: seq<Block>, now: seq<Block>, x: nat, y: nat) {
    x < |was| && y < |now| && Same(was[x], now[y]) && |was| - 1 - x <= MAX_REORG_DEPTH
  }

  lemma {:induction false} ScanFinds(was: seq<Block>, now: seq<Block>, floor: nat, i: nat)
    requires i <= |was| && forall k: nat | k < i :: k > 0 ==> was[k].number == was[k - 1].number + 1
    ensures MeetsFrom(was, now, floor, i) <==> exists x: nat :: x < i && was[x].number >= floor && Among(was[x], now)
  {
    if i > 0 {
      ScanFinds(was, now, floor, i - 1);
      if was[i - 1].number < floor {
        Lower(was, i - 1);
      }
    }
  }

  lemma {:induction false} Lower(chain: seq<Block>, i: nat)
    requires i < |chain| && forall k: nat | k <= i :: k > 0 ==> chain[k].number == chain[k - 1].number + 1
    ensures forall x: nat | x <= i :: chain[x].number <= chain[i].number
  {
    if i > 0 {
      assert chain[i].number == chain[i - 1].number + 1;
      Lower(chain, i - 1);
    }
  }

  /** A replacement is accepted exactly when the windows meet within 21 blocks of the old tip, or one
      of them is empty. */
  lemma AcceptsIff(keccak: Hasher, was: seq<Block>, now: seq<Block>)
    requires Verified(keccak, was)
    ensures Accepts(was, now) <==> was == [] || now == [] || exists x: nat, y: nat :: Meets(was, now, x, y)
  {
    if was != [] && now != [] {
      var floor := SatSub(LastNumber(was), MAX_REORG_DEPTH);
      var last := |was| - 1;
      forall k: nat | k < |was|
        ensures k > 0 ==> was[k].number == was[k - 1].number + 1
      {
        assert VerifiedAt(keccak, was, k);
      }
      ScanFinds(was, now, floor, |was|);
      if Accepts(was, now) {
        var x: nat :| x < |was| && was[x].number >= floor && Among(was[x], now);
        var y: nat :| y < |now| && Same(now[y], was[x]);
        NumbersRise(keccak, was, x, last);
        assert Meets(was, now, x, y);
      }
      if x: nat, y: nat :| Meets(was, now, x, y) {
        NumbersRise(keccak, was, x, last);
        assert Same(now[y], was[x]);
      }
    }
  }

  /** The windows hold the same hash at every common height up to this one. */
  ghost predicate AgreeBelow(was: seq<Block>, now: seq<Block>, number: nat) {
    forall p: nat, q: nat | p < |was| && q < |now| && was[p].number == now[q].number <= number :: was[p].hash == now[q].hash
  }

  /** An accepted replacement shares a block within 21 of the old tip and every common block below it,
      so at most 21 old blocks are abandoned; otherwise two of the headers collide. */
  lemma LookbackBounded(keccak: Hasher, was: seq<Block>, now: seq<Block>) returns (x: nat, y: nat)
    requires Verified(keccak, was) && Verified(keccak, now) && was != [] && now != [] && Accepts(was, now) && WindowFits(was)
    ensures Meets(was, now, x, y)
    ensures AgreeBelow(was, now, was[x].number) || Collision(keccak, was, now)
  {
    AcceptsIff(keccak, was, now);
    x, y :| Meets(was, now, x, y);
    if !Collision(keccak, was, now) {
      forall p: nat, q: nat | p < |was| && q < |now| && was[p].number == now[q].number <= was[x].number
        ensures was[p].hash == now[q].hash
      {
        Level(keccak, was, p, x);
        Level(keccak, now, q, y);
        SharedBelow(keccak, was, now, x, y, x - p);
      }
    }
  }

  /** Positions differ as heights do. */
  lemma Level(keccak: Hasher, chain: seq<Block>, p: nat, x: nat)
    requires Verified(keccak, chain) && p < |chain| && x < |chain|
    ensures chain[p].number - chain[x].number == p - x
  {
    if p <= x { NumbersRise(keccak, chain, p, x); } else { NumbersRise(keccak, chain, x, p); }
  }

  // ----- the resync step -----

  datatype Window = Window(chain: seq<Block>, error: Option<SyncError>)

  function WalkWindow(keccak: Hasher, walk: Reply): Result<seq<Block>, SyncError> {
    if walk.Failed? then Err(Transport) else VerifyFrom(keccak, walk.headers, None)
  }

  /** Append without a snapshot: all the headers or none. */
  function AppendPlain(keccak: Hasher, chain: seq<Block>, tip: nat, append: Reply): Window {
    if tip <= LastNumber(chain) then Window(chain, None)
    else if append.Failed? then Window(chain, Some(Transport))
    else match VerifyFrom(keccak, append.headers, LastBlock(chain))
      case Err(e) => Window(chain, Some(e))
      case Ok(extra) => Window(Keep(chain + extra), None)
  }

  /** Too far behind, or too short a window: start over. */
  predicate StartsOver(chain: seq<Block>, tip: nat, lookback: nat) {
    tip > SatAdd(LastNumber(chain), lookback) || |chain| < MIN_WINDOW
  }

  function ResyncWindow(keccak: Hasher, chain: seq<Block>, tip: nat, lookback: nat, append: Reply, walk: Reply): Window {
    if StartsOver(chain, tip, lookback) then
      match WalkWindow(keccak, walk)
      case Err(e) => Window(chain, Some(e))
      case Ok(anew) => Window(anew, None)
    else
      var a := AppendPlain(keccak, chain, tip, append);
      if a.error.None? || !IsLinkErr(a.error.value) then a
      else match WalkWindow(keccak, walk)
        case Err(e) => Window(chain, Some(e))
        case Ok(anew) =>
          if Accepts(chain, anew) then Window(anew, None) else Window(chain, Some(ReorgTooDeep))
  }

  lemma VerifiedTail(keccak: Hasher, chain: seq<Block>, d: nat)
    requires Verified(keccak, chain) && d <= |chain|
    ensures Verified(keccak, chain[d..])
  {
    forall i: nat | i < |chain[d..]|
      ensures VerifiedAt(keccak, chain[d..], i)
    {
      assert VerifiedAt(keccak, chain, d + i);
    }
  }

  /** How a window may change without starting over: it grows at the end by blocks linked to its tip
      and ages at the front, or it is replaced by a verified window that meets it within 21 blocks of
      the tip, or, on an empty reply, by nothing. */
  ghost predicate Bounded(keccak: Hasher, was: seq<Block>, w: Window, extra: seq<Block>, walk: Reply) {
    (w.chain == Keep(was + extra) && Verified(keccak, was + extra)) || w.chain == was ||
    (w.chain == [] && walk == Headers([])) || exists x: nat, y: nat :: Meets(was, w.chain, x, y)
  }

  /** Every resync leaves a verified window, a failed one leaves the old window, and unless it starts
      over it abandons at most 21 blocks. */
  lemma ResyncBounded(keccak: Hasher, chain: seq<Block>, tip: nat, lookback: nat, append: Reply, walk: Reply) returns (extra: seq<Block>)
    requires Verified(keccak, chain)
    ensures var w := ResyncWindow(keccak, chain, tip, lookback, append, walk);
            Verified(keccak, w.chain) && (w.error.Some? ==> w.chain == chain) &&
            (StartsOver(chain, tip, lookback) || Bounded(keccak, chain, w, extra, walk))
  {
    extra := [];
    var w := ResyncWindow(keccak, chain, tip, lookback, append, walk);
    if WalkWindow(keccak, walk).Ok? {
      var anew := WalkWindow(keccak, walk).value;
      VerifyExtends(keccak, [], None, walk.headers, anew);
      assert [] + anew == anew;
      AcceptsIff(keccak, chain, anew);
    }
    if !StartsOver(chain, tip, lookback) && tip > LastNumber(chain) && append.Headers? {
      var last := LastBlock(chain);
      if VerifyFrom(keccak, append.headers, last).Ok? {
        extra := VerifyFrom(keccak, append.headers, last).value;
        VerifyExtends(keccak, chain, last, append.headers, extra);
        var all := chain + extra;
        VerifiedTail(keccak, all, if |all| > KEEP then |all| - KEEP else 0);
        assert Keep(all) == all[if |all| > KEEP then |all| - KEEP else 0..];
      }
    }
  }

  /** The no-checkpoint half of `resync_locked`. */
  method ResyncLookback(keccak: Hasher, chain: seq<Block>, tip: nat, lookback: nat, append: Reply, walk: Reply) returns (w: Window)
    ensures w == ResyncWindow(keccak, chain, tip, lookback, append, walk)
  {
    var over := StartsOver(chain, tip, lookback);
    if !over {
      if tip <= LastNumber(chain) {
        return Window(chain, None);
      }
      if append.Failed? {
        return Window(chain, Some(Transport));
      }
      var extra := VerifyHeaderChainFrom(keccak, append.headers, LastBlock(chain));
      if extra.Ok? {
        return Window(Keep(chain + extra.value), None);
      }
      if !IsLinkErr(extra.error) {
        return Window(chain, Some(extra.error));
      }
    }
    if walk.Failed? {
      return Window(chain, Some(Transport));
    }
    var anew := VerifyHeaderChainFrom(keccak, walk.headers, None);
    if anew.Err? {
      return Window(chain, Some(anew.error));
    }
    if !over {
      var ok := ReorgScan(chain, anew.value, MAX_REORG_DEPTH);
      if !ok {
        return Window(chain, Some(ReorgTooDeep));
      }
    }
    return Window(anew.value, None);
  }
}
