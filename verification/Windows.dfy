/** Which headers a lookback window is made of, and exactly when a resync without a checkpoint takes, extends or
    replaces it. */
module Windows {
  import opened Base
  import opened Vote
  import opened Headers
  import opened Snapshot
  import opened Finality
  import opened Sync
  import opened Lookback
  import opened Verdict

  // ----- verifying -----

  /** The block header i has to follow; nothing before the first of a window that stands alone. */
  function Prior(hs: seq<Header>, prev: Option<Block>, i: nat): Option<Block>
    requires i < |hs|
  {
    if i == 0 then prev else Some(BlockOf(hs[i - 1]))
  }

  predicate FollowsOn(h: Header, p: Block) {
    h.number == p.number + 1 && h.parentHash == p.hash
  }

  /** Header i is well sealed, follows the block before it, and comes in time with a gas limit near its own. */
  predicate VerifiesAt(c: Crypto, hs: seq<Header>, prev: Option<Block>, i: nat)
    requires i < |hs|
  {
    var p := Prior(hs, prev, i);
    Sealed(c, hs[i]) && (p.Some? ==> FollowsOn(hs[i], p.value) && CascadingOk(p.value.milli, p.value.gasLimit, hs[i]))
  }

  ghost predicate VerifyBelow(c: Crypto, hs: seq<Header>, prev: Option<Block>, n: nat)
    requires n <= |hs|
  {
    forall i: nat | i < n :: VerifiesAt(c, hs, prev, i)
  }

  /** A well-sealed header follows another block. */
  predicate StraysFrom(c: Crypto, hs: seq<Header>, prev: Option<Block>, n: nat)
    requires n < |hs|
  {
    Sealed(c, hs[n]) && Prior(hs, prev, n).Some? && !FollowsOn(hs[n], Prior(hs, prev, n).value)
  }

  ghost predicate BreaksHere(c: Crypto, hs: seq<Header>, prev: Option<Block>, n: nat) {
    n < |hs| && VerifyBelow(c, hs, prev, n) && StraysFrom(c, hs, prev, n)
  }

  lemma FirstIs(c: Crypto, hs: seq<Header>, prev: Option<Block>)
    requires hs != []
    ensures HeaderError(c.keccak, hs[0], prev).None? <==> VerifiesAt(c, hs, prev, 0)
    ensures HeaderError(c.keccak, hs[0], prev).Some? ==>
              (IsLinkErr(HeaderError(c.keccak, hs[0], prev).value) <==> StraysFrom(c, hs, prev, 0))
  {
    SealedIff(c, hs[0]);
  }

  lemma ShiftOne(c: Crypto, hs: seq<Header>, prev: Option<Block>, i: nat)
    requires i + 1 < |hs|
    ensures VerifiesAt(c, hs[1..], Some(BlockOf(hs[0])), i) == VerifiesAt(c, hs, prev, i + 1)
    ensures StraysFrom(c, hs[1..], Some(BlockOf(hs[0])), i) == StraysFrom(c, hs, prev, i + 1)
  {
  }

  /** The first n headers verify; if there is another it does not, and its error says whether it strays. */
  ghost predicate StopsAt(c: Crypto, hs: seq<Header>, prev: Option<Block>, n: nat, r: Result<seq<Block>, SyncError>) {
    n <= |hs| && VerifyBelow(c, hs, prev, n) &&
    (if n == |hs| then r == Ok(BlocksOf(hs))
     else r.Err? && !VerifiesAt(c, hs, prev, n) && (IsLinkErr(r.error) <==> StraysFrom(c, hs, prev, n)))
  }

  lemma StopsLater(c: Crypto, hs: seq<Header>, prev: Option<Block>, m: nat, r: Result<seq<Block>, SyncError>)
    requires hs != [] && VerifiesAt(c, hs, prev, 0) && StopsAt(c, hs[1..], Some(BlockOf(hs[0])), m, r)
    ensures StopsAt(c, hs, prev, m + 1, Prepend([BlockOf(hs[0])], r))
  {
    forall i: nat | i < m + 1
      ensures VerifiesAt(c, hs, prev, i)
    {
      if i > 0 {
        ShiftOne(c, hs, prev, i - 1);
        assert VerifiesAt(c, hs[1..], Some(BlockOf(hs[0])), i - 1);
      }
    }
    if m + 1 < |hs| { ShiftOne(c, hs, prev, m); }
    if m + 1 == |hs| { assert BlocksOf(hs) == [BlockOf(hs[0])] + BlocksOf(hs[1..]); }
  }

  lemma {:induction false} StopsAtFirst(c: Crypto, hs: seq<Header>, prev: Option<Block>) returns (n: nat)
    ensures StopsAt(c, hs, prev, n, VerifyFrom(c.keccak, hs, prev))
    decreases |hs|
  {
    n := 0;
    if hs != [] {
      FirstIs(c, hs, prev);
      if VerifiesAt(c, hs, prev, 0) {
        var m := StopsAtFirst(c, hs[1..], Some(BlockOf(hs[0])));
        n := m + 1;
        StopsLater(c, hs, prev, m, VerifyFrom(c.keccak, hs[1..], Some(BlockOf(hs[0]))));
      }
    }
  }

  lemma StrayIsNotVerified(c: Crypto, hs: seq<Header>, prev: Option<Block>, n: nat)
    requires n < |hs| && StraysFrom(c, hs, prev, n)
    ensures !VerifiesAt(c, hs, prev, n)
  {
  }

  /** What the first failing header says about the whole answer. */
  ghost predicate Judged(c: Crypto, hs: seq<Header>, prev: Option<Block>, r: Result<seq<Block>, SyncError>) {
    (r.Ok? <==> VerifyBelow(c, hs, prev, |hs|)) && (r.Ok? ==> r.value == BlocksOf(hs)) &&
    (r.Err? && IsLinkErr(r.error) <==> exists n: nat :: BreaksHere(c, hs, prev, n))
  }

  lemma BreakIsStop(c: Crypto, hs: seq<Header>, prev: Option<Block>, n: nat)
    requires n <= |hs| && VerifyBelow(c, hs, prev, n) && (n < |hs| ==> !VerifiesAt(c, hs, prev, n))
    ensures (exists m: nat :: BreaksHere(c, hs, prev, m)) <==> n < |hs| && StraysFrom(c, hs, prev, n)
  {
    assert n < |hs| && StraysFrom(c, hs, prev, n) ==> BreaksHere(c, hs, prev, n);
    if m: nat :| BreaksHere(c, hs, prev, m) {
      StrayIsNotVerified(c, hs, prev, m);
      assert m <= n;
    }
  }

  lemma StopJudges(c: Crypto, hs: seq<Header>, prev: Option<Block>, n: nat, r: Result<seq<Block>, SyncError>)
    requires StopsAt(c, hs, prev, n, r)
    ensures Judged(c, hs, prev, r)
  {
    BreakIsStop(c, hs, prev, n);
  }

  /** A window is made of all the headers or of none: it is taken exactly when each one is well sealed, follows
      the one before and is paced by it; a refusal looks like a reorg exactly when the first to fail is a
      well-sealed header that follows another block. */
  lemma VerifyIff(c: Crypto, hs: seq<Header>, prev: Option<Block>)
    ensures Judged(c, hs, prev, VerifyFrom(c.keccak, hs, prev))
  {
    var n := StopsAtFirst(c, hs, prev);
    StopJudges(c, hs, prev, n, VerifyFrom(c.keccak, hs, prev));
  }

  // ----- the resync -----

  /** More than `lookback` blocks behind, or fewer than 16 held. */
  predicate Anew(chain: seq<Block>, tip: nat, lookback: nat) {
    tip > LastNumber(chain) + lookback || |chain| < 16
  }

  ghost predicate WholeReply(c: Crypto, reply: Reply, prev: Option<Block>) {
    reply.Headers? && VerifyBelow(c, reply.headers, prev, |reply.headers|)
  }

  ghost predicate BrokenReply(c: Crypto, reply: Reply, prev: Option<Block>) {
    reply.Headers? && exists n: nat :: BreaksHere(c, reply.headers, prev, n)
  }

  /** They share a block, at most 21 below the old window's last. */
  ghost predicate ShareBlock(was: seq<Block>, now: seq<Block>) {
    exists x: nat, y: nat :: SharedAt(was, now, x, y)
  }

  ghost predicate SharedAt(was: seq<Block>, now: seq<Block>, x: nat, y: nat) {
    x < |was| && y < |now| && |was| <= x + 22 && was[x].number == now[y].number && was[x].hash == now[y].hash
  }

  /** What every resync leaves, and when it succeeds. */
  ghost function Expected(c: Crypto, chain: seq<Block>, tip: nat, lookback: nat, append: Reply, walk: Reply): Option<seq<Block>> {
    var anew := if WholeReply(c, walk, None) then Some(BlocksOf(walk.headers)) else None;
    if Anew(chain, tip, lookback) then anew
    else if tip <= LastNumber(chain) then Some(chain)
    else if WholeReply(c, append, LastBlock(chain)) then Some(Newest512(chain + BlocksOf(append.headers)))
    else if BrokenReply(c, append, LastBlock(chain)) && anew.Some? && (anew.value == [] || ShareBlock(chain, anew.value)) then anew
    else None
  }

  lemma ShareIff(was: seq<Block>, now: seq<Block>)
    ensures ShareBlock(was, now) <==> exists x: nat, y: nat :: Meets(was, now, x, y)
  {
    forall x: nat, y: nat
      ensures SharedAt(was, now, x, y) == Meets(was, now, x, y)
    {
    }
  }

  lemma WalkIs(c: Crypto, walk: Reply)
    ensures var w := WalkWindow(c.keccak, walk);
            (w.Ok? <==> WholeReply(c, walk, None)) && (w.Ok? ==> w.value == BlocksOf(walk.headers))
  {
    if walk.Headers? { VerifyIff(c, walk.headers, None); }
  }

  lemma AppendIs(c: Crypto, chain: seq<Block>, tip: nat, append: Reply)
    requires tip > LastNumber(chain)
    ensures var a := AppendPlain(c.keccak, chain, tip, append);
            (a.error.None? <==> WholeReply(c, append, LastBlock(chain))) &&
            (a.error.None? ==> a.chain == Newest512(chain + BlocksOf(append.headers))) &&
            (a.error.Some? ==> a.chain == chain) &&
            (a.error.Some? && IsLinkErr(a.error.value) <==> BrokenReply(c, append, LastBlock(chain)))
  {
    if append.Headers? {
      VerifyIff(c, append.headers, LastBlock(chain));
      AppendGiven(c, chain, tip, append, VerifyFrom(c.keccak, append.headers, LastBlock(chain)));
    }
  }

  lemma AppendGiven(c: Crypto, chain: seq<Block>, tip: nat, append: Reply, r: Result<seq<Block>, SyncError>)
    requires tip > LastNumber(chain) && append.Headers? && r == VerifyFrom(c.keccak, append.headers, LastBlock(chain))
    ensures AppendPlain(c.keccak, chain, tip, append) ==
            if r.Ok? then Window(Newest512(chain + r.value), None) else Window(chain, Some(r.error))
  {
  }

  /** Every resync without a checkpoint, in full: it starts over, keeps, extends or replaces the window exactly as
      stated, and any other ends in an error with the window as it was. */
  lemma ResyncIs(c: Crypto, chain: seq<Block>, tip: nat, lookback: nat, append: Reply, walk: Reply)
    requires Verified(c.keccak, chain) && LastNumber(chain) + lookback < U64
    ensures var w, e := ResyncWindow(c.keccak, chain, tip, lookback, append, walk), Expected(c, chain, tip, lookback, append, walk);
            (w.error.None? <==> e.Some?) && w.chain == if e.Some? then e.value else chain
  {
    WalkIs(c, walk);
    if tip > LastNumber(chain) { AppendIs(c, chain, tip, append); }
    var anew := WalkWindow(c.keccak, walk);
    if anew.Ok? && chain != [] {
      AcceptsIff(c.keccak, chain, anew.value);
      ShareIff(chain, anew.value);
    }
  }
}
