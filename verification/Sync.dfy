/** Appending upstream headers to the verified chain, the snapshot moving in step. */
module Sync {
  import opened Base
  import opened Vote
  import opened Headers
  import opened Snapshot
  import opened Runs
  import opened Finality

  const KEEP: nat := 512

  datatype SyncError =
    | Transport
    | Cascading
    | Refused(snap: SnapError)
    | TipJumped
    | NoSafe
    | CheckpointTooFar
    | BootFailed
    | ReorgTooDeep

  /** Errors a reorg at the tip can arrive as. */
  predicate IsLinkErr(e: SyncError) {
    e == Refused(NumberMismatch) || e == Refused(ParentHashMismatch)
  }

  /** What an untrusted upstream answers to one header-range request: anything. */
  datatype Reply = Failed | Headers(headers: seq<Header>)

  /** Chain and snapshot after a call, and how it ended. */
  datatype Synced = Synced(chain: seq<Block>, snap: Snap, error: Option<SyncError>)

  function BlockOf(h: Header): Block {
    Block(h.number, h.hash, h.stateRoot, h.miner, MilliTimestamp(h), h.gasLimit, Some(h))
  }

  function LastNumber(chain: seq<Block>): nat {
    if chain == [] then 0 else chain[|chain| - 1].number
  }

  function FirstNumber(chain: seq<Block>): nat {
    if chain == [] then 0 else chain[0].number
  }

  function Keep(chain: seq<Block>): seq<Block> {
    if |chain| > KEEP then chain[|chain| - KEEP..] else chain
  }

  /** One header: the cascading check first, then the snapshot, then the push. */
  function AppendOne(c: Crypto, chain: seq<Block>, snap: Snap, h: Header): Synced {
    if chain != [] && !CascadingOk(chain[|chain| - 1].milli, chain[|chain| - 1].gasLimit, h) then
      Synced(chain, snap, Some(Cascading))
    else match ApplyHeader(c, snap, h)
      case Rejected(s, e) => Synced(chain, s, Some(Refused(e)))
      case Accepted(s) => Synced(chain + [BlockOf(h)], s, None)
  }

  function AppendAll(c: Crypto, chain: seq<Block>, snap: Snap, hs: seq<Header>): Synced
    decreases |hs|
  {
    if hs == [] then Synced(chain, snap, None)
    else
      var one := AppendOne(c, chain, snap, hs[0]);
      if one.error.Some? then one else AppendAll(c, one.chain, one.snap, hs[1..])
  }

  /** `append_new_with_snapshot`: a tip already passed is a no-op; trimming happens on success only. */
  function Append(c: Crypto, chain: seq<Block>, snap: Snap, tip: nat, reply: Reply): Synced {
    if tip <= LastNumber(chain) then Synced(chain, snap, None)
    else match reply
      case Failed => Synced(chain, snap, Some(Transport))
      case Headers(hs) =>
        var r := AppendAll(c, chain, snap, hs);
        if r.error.None? then r.(chain := Keep(r.chain)) else r
  }

  // ----- what the chain is, after any call -----

  /** A branch: the bootstrap snapshot and block, and every header accepted since. */
  datatype Branch = Branch(base: Snap, genesis: Block, hist: seq<Header>)

  function Extend(b: Branch, hs: seq<Header>): Branch {
    b.(hist := b.hist + hs)
  }

  lemma ExtendNone(b: Branch)
    ensures Extend(b, []) == b
  {
    assert b.hist + [] == b.hist;
  }

  lemma ExtendTwice(b: Branch, x: seq<Header>, y: seq<Header>)
    ensures Extend(Extend(b, x), y) == Extend(b, x + y)
  {
    assert b.hist + x + y == b.hist + (x + y);
  }

  lemma Rejoin(b: Branch, hs: seq<Header>, n: nat)
    requires n < |hs|
    ensures Extend(Extend(b, [hs[0]]), hs[1..][..n]) == Extend(b, hs[..n + 1])
    ensures n + 1 == |hs| ==> hs[1..][..n] == hs[1..] && hs[..n + 1] == hs
  {
    assert hs[..n + 1] == [hs[0]] + hs[1..][..n];
  }

  /** The whole chain of the branch, nothing aged out. */
  function Full(b: Branch): (f: seq<Block>)
    ensures |f| == |b.hist| + 1
  {
    [b.genesis] + seq(|b.hist|, i requires 0 <= i < |b.hist| => BlockOf(b.hist[i]))
  }

  ghost predicate WellBooted(b: Branch) {
    Fresh(b.base) && b.genesis.number == b.base.number && b.genesis.hash == b.base.hash
  }

  /** The snapshot is the fold of the branch's headers, up to the one stale entry a rejection drops. */
  ghost predicate Tracks(c: Crypto, b: Branch, s: Snap) {
    AllAccepted(c, b.base, b.hist) && Residue(s) == Residue(Feed(c, b.base, b.hist))
  }

  /** The snapshot is that fold, entry for entry. */
  ghost predicate IsFold(c: Crypto, b: Branch, s: Snap) {
    s == Feed(c, b.base, b.hist)
  }

  /** Chain and snapshot describe this branch; the chain starts at its block number `from`. */
  ghost predicate Follows(c: Crypto, b: Branch, from: nat, chain: seq<Block>, s: Snap) {
    WellBooted(b) && from <= |b.hist| && chain == Full(b)[from..] && Tracks(c, b, s)
  }

  lemma TracksStep(c: Crypto, b: Branch, s: Snap, h: Header)
    requires Tracks(c, b, s) && ApplyHeader(c, s, h).Accepted?
    ensures Tracks(c, Extend(b, [h]), ApplyHeader(c, s, h).snap)
    ensures Feed(c, b.base, b.hist + [h]) == ApplyHeader(c, s, h).snap
  {
    var f := Feed(c, b.base, b.hist);
    AlikeStep(c, s, f, h);
    assert (b.hist + [h])[..|b.hist|] == b.hist;
  }

  lemma TracksRejected(c: Crypto, b: Branch, s: Snap, h: Header)
    requires Tracks(c, b, s) && ApplyHeader(c, s, h).Rejected?
    ensures Tracks(c, b, ApplyHeader(c, s, h).snap)
  {
    RejectFacts(c, s, h);
    ResidueOfResidue(s);
  }

  /** The whole chain grows by one block with one header. */
  lemma FullGrows(b: Branch, h: Header, from: nat)
    requires from <= |b.hist|
    ensures Full(Extend(b, [h]))[from..] == Full(b)[from..] + [BlockOf(h)]
  {
    var longer := Extend(b, [h]);
    assert Full(longer) == Full(b) + [BlockOf(h)];
  }

  /** What one append leaves behind, the branch given. */
  ghost predicate Grown(c: Crypto, b: Branch, from: nat, h: Header, r: Synced) {
    Follows(c, if r.error.None? then Extend(b, [h]) else b, from, r.chain, r.snap)
  }

  lemma GrownByOne(c: Crypto, b: Branch, from: nat, chain: seq<Block>, h: Header, next: Snap)
    requires WellBooted(b) && from <= |b.hist| && chain == Full(b)[from..] && Tracks(c, Extend(b, [h]), next)
    ensures Grown(c, b, from, h, Synced(chain + [BlockOf(h)], next, None))
  {
    FullGrows(b, h, from);
  }

  lemma TracksEither(c: Crypto, b: Branch, s: Snap, h: Header, next: Applied)
    requires Tracks(c, b, s) && next == ApplyHeader(c, s, h)
    ensures Tracks(c, if next.Accepted? then Extend(b, [h]) else b, next.snap)
  {
    if next.Accepted? {
      TracksStep(c, b, s, h);
    } else {
      TracksRejected(c, b, s, h);
    }
  }

  lemma AppendOneCases(c: Crypto, chain: seq<Block>, s: Snap, h: Header) returns (next: Applied)
    ensures next == ApplyHeader(c, s, h)
    ensures var r := AppendOne(c, chain, s, h);
            r == Synced(chain, s, Some(Cascading))
            || (next.Rejected? && r == Synced(chain, next.snap, Some(Refused(next.error))))
            || (next.Accepted? && r == Synced(chain + [BlockOf(h)], next.snap, None))
  {
    next := ApplyHeader(c, s, h);
  }

  /** After every single header, accepted or not, chain and snapshot still describe one branch. */
  lemma AppendOneFollows(c: Crypto, b: Branch, from: nat, chain: seq<Block>, s: Snap, h: Header)
    requires Follows(c, b, from, chain, s)
    ensures Grown(c, b, from, h, AppendOne(c, chain, s, h))
  {
    var next := AppendOneCases(c, chain, s, h);
    TracksEither(c, b, s, h, next);
    if next.Accepted? {
      GrownByOne(c, b, from, chain, h, next.snap);
    }
  }

  /** The first n of these headers were accepted, all of them unless there was an error. */
  ghost predicate GrownBy(c: Crypto, b: Branch, from: nat, hs: seq<Header>, n: nat, r: Synced) {
    n <= |hs| && (r.error.None? <==> n == |hs|) && Follows(c, Extend(b, hs[..n]), from, r.chain, r.snap)
  }

  lemma GrownStart(c: Crypto, b: Branch, from: nat, hs: seq<Header>, r: Synced)
    requires Follows(c, b, from, r.chain, r.snap) && (r.error.Some? <==> hs != [])
    ensures GrownBy(c, b, from, hs, 0, r)
  {
    ExtendNone(b);
  }

  lemma GrownMore(c: Crypto, b: Branch, from: nat, hs: seq<Header>, n: nat, r: Synced)
    requires hs != [] && GrownBy(c, Extend(b, [hs[0]]), from, hs[1..], n, r)
    ensures GrownBy(c, b, from, hs, n + 1, r)
  {
    Rejoin(b, hs, n);
  }

  /** After any list of headers, whole or cut short by an error, the branch has grown by exactly the
      accepted ones. */
  lemma {:induction false} AppendAllFollows(c: Crypto, b: Branch, from: nat, chain: seq<Block>, s: Snap, hs: seq<Header>)
    returns (n: nat)
    requires Follows(c, b, from, chain, s)
    ensures GrownBy(c, b, from, hs, n, AppendAll(c, chain, s, hs))
    decreases |hs|
  {
    if hs == [] {
      n := 0;
      GrownStart(c, b, from, hs, Synced(chain, s, None));
    } else {
      AppendOneFollows(c, b, from, chain, s, hs[0]);
      var one := AppendOne(c, chain, s, hs[0]);
      if one.error.None? {
        var m := AppendAllFollows(c, Extend(b, [hs[0]]), from, one.chain, one.snap, hs[1..]);
        n := m + 1;
        GrownMore(c, b, from, hs, m, AppendAll(c, one.chain, one.snap, hs[1..]));
      } else {
        n := 0;
        GrownStart(c, b, from, hs, one);
      }
    }
  }

  lemma KeepFollows(c: Crypto, b: Branch, from: nat, chain: seq<Block>, s: Snap) returns (from': nat)
    requires Follows(c, b, from, chain, s)
    ensures from <= from' && Follows(c, b, from', Keep(chain), s)
  {
    from' := if |chain| > KEEP then from + |chain| - KEEP else from;
    assert Full(b)[from..][from' - from..] == Full(b)[from'..];
  }

  // ----- consequences -----

  /** Block i of the window and the header it came from. */
  ghost predicate LinkedBlocks(chain: seq<Block>, i: nat)
    requires i + 1 < |chain|
  {
    chain[i + 1].number == chain[i].number + 1 && chain[i + 1].header.Some? &&
    chain[i + 1].header.value.parentHash == chain[i].hash
  }

  lemma SpineOf(c: Crypto, b: Branch)
    requires WellBooted(b) && AllAccepted(c, b.base, b.hist)
    ensures Spine(b.base, b.hist, Feed(c, b.base, b.hist))
  {
    var r := FeedIsRun(c, b.base, b.hist);
    assert Traces(c, b.base, b.hist, r, |b.hist|) && b.hist[..|b.hist|] == b.hist;
    SpineAlways(r, |b.hist|);
  }

  lemma ResidueKeepsHead(s: Snap, t: Snap)
    requires Residue(s) == Residue(t)
    ensures s.number == t.number && s.hash == t.hash && s.attestation == t.attestation
  {
  }

  /** Number and hash of the block at a position of the whole chain. */
  lemma FullAt(b: Branch, s: Snap, k: nat)
    requires WellBooted(b) && Spine(b.base, b.hist, s) && k <= |b.hist|
    ensures Full(b)[k].number == b.base.number + k && Full(b)[k].hash == BlockHash(b.base, b.hist, b.base.number + k)
  {
    if k > 0 { assert LinkedAt(b.base, b.hist, k - 1); }
  }

  lemma ShapeAt(b: Branch, f: Snap, from: nat, chain: seq<Block>, i: nat)
    requires WellBooted(b) && Spine(b.base, b.hist, f) && from <= |b.hist| && chain == Full(b)[from..] && i < |chain|
    ensures chain[i].number == b.base.number + from + i
    ensures i + 1 < |chain| ==> LinkedBlocks(chain, i)
  {
    FullAt(b, f, from + i);
    if i + 1 < |chain| {
      assert LinkedAt(b.base, b.hist, from + i);
      assert chain[i + 1] == BlockOf(b.hist[from + i]);
    }
  }

  /** In every state the client can be in, the snapshot stands exactly on the chain's last block, and
      the chain is consecutive and parent-linked. */
  lemma FollowsShape(c: Crypto, b: Branch, from: nat, chain: seq<Block>, s: Snap)
    requires Follows(c, b, from, chain, s)
    ensures chain != [] && chain[|chain| - 1].number == s.number && chain[|chain| - 1].hash == s.hash
    ensures forall i: nat | i < |chain| :: chain[i].number == b.base.number + from + i
    ensures forall i: nat | i + 1 < |chain| :: LinkedBlocks(chain, i)
  {
    var f := SpineHead(c, b, s);
    FullAt(b, f, |b.hist|);
    WindowShape(b, f, from, chain);
  }

  lemma WindowShape(b: Branch, f: Snap, from: nat, chain: seq<Block>)
    requires WellBooted(b) && Spine(b.base, b.hist, f) && from <= |b.hist| && chain == Full(b)[from..]
    ensures forall i: nat | i < |chain| :: chain[i].number == b.base.number + from + i
    ensures forall i: nat | i + 1 < |chain| :: LinkedBlocks(chain, i)
  {
    forall i: nat | i < |chain|
      ensures chain[i].number == b.base.number + from + i && (i + 1 < |chain| ==> LinkedBlocks(chain, i))
    {
      ShapeAt(b, f, from, chain, i);
    }
  }

  lemma SpineHead(c: Crypto, b: Branch, s: Snap) returns (f: Snap)
    requires WellBooted(b) && Tracks(c, b, s)
    ensures Spine(b.base, b.hist, f) && Residue(f) == Residue(s) && f.number == s.number && f.hash == s.hash
    ensures f == Feed(c, b.base, b.hist)
  {
    f := Feed(c, b.base, b.hist);
    SpineOf(c, b);
    ResidueKeepsHead(s, f);
  }

  lemma AppendOneFold(c: Crypto, b: Branch, chain: seq<Block>, s: Snap, h: Header)
    requires Tracks(c, b, s) && AppendOne(c, chain, s, h).error.None?
    ensures var longer := Extend(b, [h]);
            IsFold(c, longer, AppendOne(c, chain, s, h).snap) && Tracks(c, longer, AppendOne(c, chain, s, h).snap)
  {
    var next := AppendOneCases(c, chain, s, h);
    TracksStep(c, b, s, h);
  }

  /** Once a header has been accepted, the snapshot is the fold itself: an earlier rejection leaves nothing. */
  lemma {:induction false} AppendAllExact(c: Crypto, b: Branch, chain: seq<Block>, s: Snap, hs: seq<Header>, r: Synced)
    requires Tracks(c, b, s) && (hs != [] || IsFold(c, b, s))
    requires r == AppendAll(c, chain, s, hs) && r.error.None?
    ensures IsFold(c, Extend(b, hs), r.snap)
    decreases |hs|
  {
    if hs == [] {
      ExtendNone(b);
    } else {
      var one := AppendOne(c, chain, s, hs[0]);
      AppendOneFold(c, b, chain, s, hs[0]);
      AppendAllExact(c, Extend(b, [hs[0]]), one.chain, one.snap, hs[1..], r);
      Rejoin(b, hs, |hs| - 1);
    }
  }

  // ----- one whole call -----

  /** The headers a call gets to see. */
  function Seen(chain: seq<Block>, tip: nat, reply: Reply): seq<Header> {
    if tip <= LastNumber(chain) || reply.Failed? then [] else reply.headers
  }

  /** The branch grew by `more`, a prefix of the headers seen, and by nothing else; the window only lost
      blocks at its front. A success took every header, and the snapshot is then the fold itself; a
      failure left a header out. */
  ghost predicate Advanced(c: Crypto, b: Branch, from: nat, seen: seq<Header>, more: seq<Header>, from': nat, r: Synced) {
    from <= from' && more <= seen && Follows(c, Extend(b, more), from', r.chain, r.snap) &&
    (r.error.None? ==> more == seen && (more != [] ==> IsFold(c, Extend(b, more), r.snap))) &&
    (r.error.Some? && seen != [] ==> |more| < |seen|)
  }

  lemma AdvancedNone(c: Crypto, b: Branch, from: nat, r: Synced)
    requires Follows(c, b, from, r.chain, r.snap)
    ensures Advanced(c, b, from, [], [], from, r)
  {
    ExtendNone(b);
  }

  lemma AdvancedPart(c: Crypto, b: Branch, from: nat, hs: seq<Header>, n: nat, r: Synced)
    requires GrownBy(c, b, from, hs, n, r) && r.error.Some?
    ensures Advanced(c, b, from, hs, hs[..n], from, r)
  {
  }

  lemma AdvancedAll(c: Crypto, b: Branch, from: nat, hs: seq<Header>, r: Synced) returns (from': nat)
    requires Follows(c, Extend(b, hs), from, r.chain, r.snap) && r.error.None?
    requires hs != [] ==> IsFold(c, Extend(b, hs), r.snap)
    ensures Advanced(c, b, from, hs, hs, from', r.(chain := Keep(r.chain)))
  {
    from' := KeepFollows(c, Extend(b, hs), from, r.chain, r.snap);
  }

  lemma WholeReply(c: Crypto, b: Branch, from: nat, chain: seq<Block>, s: Snap, hs: seq<Header>, n: nat, r: Synced)
    requires Follows(c, b, from, chain, s) && r == AppendAll(c, chain, s, hs)
    requires GrownBy(c, b, from, hs, n, r) && r.error.None?
    ensures Follows(c, Extend(b, hs), from, r.chain, r.snap) && (hs != [] ==> IsFold(c, Extend(b, hs), r.snap))
  {
    assert hs[..n] == hs;
    if hs != [] {
      AppendAllExact(c, b, chain, s, hs, r);
    }
  }

  /** Append, successful or not, from any state the client can be in. */
  lemma AppendFollows(c: Crypto, b: Branch, from: nat, chain: seq<Block>, s: Snap, tip: nat, reply: Reply)
    returns (more: seq<Header>, from': nat)
    requires Follows(c, b, from, chain, s)
    ensures Advanced(c, b, from, Seen(chain, tip, reply), more, from', Append(c, chain, s, tip, reply))
  {
    var r := Append(c, chain, s, tip, reply);
    if tip <= LastNumber(chain) || reply.Failed? {
      more, from' := [], from;
      AdvancedNone(c, b, from, r);
    } else {
      var hs := reply.headers;
      var n := AppendAllFollows(c, b, from, chain, s, hs);
      var all := AppendAll(c, chain, s, hs);
      if all.error.None? {
        WholeReply(c, b, from, chain, s, hs, n, all);
        more := hs;
        from' := AdvancedAll(c, b, from, hs, all);
      } else {
        more, from' := hs[..n], from;
        AdvancedPart(c, b, from, hs, n, all);
      }
    }
  }

  /** A call that sees no header leaves the snapshot alone, stale entry or not. */
  lemma AppendNothing(c: Crypto, chain: seq<Block>, s: Snap, tip: nat, reply: Reply)
    requires Seen(chain, tip, reply) == []
    ensures Append(c, chain, s, tip, reply).snap == s
  {
  }

  // ----- when the snapshot is not the fold, entry for entry -----

  /** A header that gets as far as the entry leaving the history window, and there is one. */
  predicate ReachesHistory(c: Crypto, s: Snap, h: Header) {
    VerifySealCoinbase(c.keccak, h).Ok? && EarlyError(s, h, h.miner).None? &&
    s.number + 1 >= SatAdd(Delay(s), 1) && s.number + 1 - SatAdd(Delay(s), 1) in s.recents
  }

  lemma RejectionLeaves(c: Crypto, s: Snap, h: Header)
    requires ApplyHeader(c, s, h).Rejected?
    ensures ApplyHeader(c, s, h).snap != s <==> ReachesHistory(c, s, h)
  {
    var a, e := ApplyIs(c, s, h);
    if e.None? && EarlyError(s, h, h.miner).None? {
      ForgetChanges(s, h.number);
    }
  }

  lemma ForgetChanges(s: Snap, n: nat)
    ensures Forget(s, n) != s <==> n >= SatAdd(Delay(s), 1) && n - SatAdd(Delay(s), 1) in s.recents
  {
    var limit := SatAdd(Delay(s), 1);
    if n >= limit && n - limit in s.recents {
      assert n - limit !in Forget(s, n).recents;
    } else if n >= limit {
      assert s.recents - {n - limit} == s.recents;
    }
  }

  /** A rejected header makes the snapshot differ from the fold if and only if it got as far as the
      leaving entry. The next accepted header heals it, and until then calls that see no header pass
      the difference on. */
  lemma StaleIff(c: Crypto, b: Branch, s: Snap, h: Header)
    requires IsFold(c, b, s) && ApplyHeader(c, s, h).Rejected?
    ensures IsFold(c, b, ApplyHeader(c, s, h).snap) <==> !ReachesHistory(c, s, h)
  {
    RejectionLeaves(c, s, h);
  }

  // ----- the loop of the source -----

  lemma AppendAllStep(c: Crypto, chain: seq<Block>, s: Snap, hs: seq<Header>, i: nat)
    requires i < |hs|
    ensures var one := AppendOne(c, chain, s, hs[i]);
            AppendAll(c, chain, s, hs[i..]) == if one.error.Some? then one else AppendAll(c, one.chain, one.snap, hs[i + 1..])
  {
    assert hs[i..][1..] == hs[i + 1..];
  }

  /** `append_new_with_snapshot`'s loop: the snapshot never gets ahead of the chain. */
  method AppendLoop(c: Crypto, chain0: seq<Block>, snap0: Snap, hs: seq<Header>) returns (r: Synced)
    ensures r == AppendAll(c, chain0, snap0, hs)
  {
    var chain, snap := chain0, snap0;
    for i := 0 to |hs|
      invariant AppendAll(c, chain, snap, hs[i..]) == AppendAll(c, chain0, snap0, hs)
    {
      var h := hs[i];
      AppendAllStep(c, chain, snap, hs, i);
      if chain != [] && !CascadingOk(chain[|chain| - 1].milli, chain[|chain| - 1].gasLimit, h) {
        return Synced(chain, snap, Some(Cascading));
      }
      var applied := ApplyHeader(c, snap, h);
      if applied.Rejected? {
        return Synced(chain, applied.snap, Some(Refused(applied.error)));
      }
      snap := applied.snap;
      chain := chain + [BlockOf(h)];
    }
    return Synced(chain, snap, None);
  }

  method AppendNewWithSnapshot(c: Crypto, chain: seq<Block>, snap: Snap, tip: nat, reply: Reply) returns (r: Synced)
    ensures r == Append(c, chain, snap, tip, reply)
  {
    if tip <= LastNumber(chain) {
      return Synced(chain, snap, None);
    }
    if reply.Failed? {
      return Synced(chain, snap, Some(Transport));
    }
    r := AppendLoop(c, chain, snap, reply.headers);
    if r.error.None? && |r.chain| > KEEP {
      r := r.(chain := r.chain[|r.chain| - KEEP..]);
    }
  }

  // ----- in numbers -----

  function Newest512(chain: seq<Block>): seq<Block> {
    if |chain| <= 512 then chain else chain[|chain| - 512..]
  }

  /** A successful call that looks for blocks ends with the newest 512 of the old and new ones together. */
  lemma WindowIs512(c: Crypto, chain: seq<Block>, s: Snap, tip: nat, reply: Reply)
    requires tip > LastNumber(chain) && Append(c, chain, s, tip, reply).error.None?
    ensures reply.Headers?
    ensures Append(c, chain, s, tip, reply).chain == Newest512(chain + BlocksOf(reply.headers))
  {
    AllAppended(c, chain, s, reply.headers);
  }

  /** What each header becomes: its own number, hash, state root, miner, clock and gas limit. */
  function BlocksOf(hs: seq<Header>): (bs: seq<Block>)
    ensures |bs| == |hs|
  {
    seq(|hs|, i requires 0 <= i < |hs| =>
      Block(hs[i].number, hs[i].hash, hs[i].stateRoot, hs[i].miner, MilliTimestamp(hs[i]), hs[i].gasLimit, Some(hs[i])))
  }

  lemma BlocksJoin(chain: seq<Block>, hs: seq<Header>)
    requires hs != []
    ensures chain + [BlockOf(hs[0])] + BlocksOf(hs[1..]) == chain + BlocksOf(hs)
  {
    assert BlocksOf(hs) == [BlockOf(hs[0])] + BlocksOf(hs[1..]);
  }

  lemma {:induction false} AllAppended(c: Crypto, chain: seq<Block>, s: Snap, hs: seq<Header>)
    requires AppendAll(c, chain, s, hs).error.None?
    ensures AppendAll(c, chain, s, hs).chain == chain + BlocksOf(hs)
    decreases |hs|
  {
    if hs == [] {
      assert chain + BlocksOf(hs) == chain;
    } else {
      var one := AppendOne(c, chain, s, hs[0]);
      OneAppended(c, chain, s, hs[0]);
      AllAppended(c, one.chain, one.snap, hs[1..]);
      BlocksJoin(chain, hs);
    }
  }

  lemma OneAppended(c: Crypto, chain: seq<Block>, s: Snap, h: Header)
    requires AppendOne(c, chain, s, h).error.None?
    ensures AppendOne(c, chain, s, h).chain == chain + [BlockOf(h)]
  {
    var next := AppendOneCases(c, chain, s, h);
  }
}
