/** The light engine: a checkpoint, its header, and the walk forward from it. */
module Engine {
  import opened Base
  import opened Vote
  import opened Headers
  import opened Snapshot
  import opened Runs
  import opened Finality
  import opened Validators
  import opened Sync

  /** What the upstream answers while a walk boots: the checkpoint's header and the two epoch headers. */
  datatype BootReply = BootReply(header: Option<Header>, epoch: Option<Header>, prev: Option<Header>)

  predicate DistinctVoteKeys(s: seq<VoteKey>) {
    forall i, j | 0 <= i < j < |s| :: s[i] != s[j]
  }

  predicate ValidateBasic(cp: Checkpoint) {
    cp.sealingSet != [] && DistinctSet(cp.sealingSet) &&
    (cp.voteKeys.Some? ==> |cp.voteKeys.value| == |cp.sealingSet| && DistinctVoteKeys(cp.voteKeys.value))
  }

  predicate HeaderMatches(keccak: Hasher, cp: Checkpoint, h: Header) {
    h.number == cp.number && keccak(Preimage(h)) == cp.hash.bytes &&
    h.parentHash == cp.parentHash && h.stateRoot == cp.stateRoot
  }

  /** The turn length in force at the checkpoint; None refuses the checkpoint. */
  function SeededSnap(cp: Checkpoint, up: BootReply): Option<Snap> {
    var s := FromCheckpoint(cp);
    if cp.number / EPOCH_LENGTH == 0 then Some(s)
    else if up.epoch.None? || up.prev.None? then None
    else match EpochSeedAt(cp.number, up.epoch.value, up.prev.value)
      case Active(_, turn) => SeedTurnLength(s, turn)
      case PendingActivation(_, _) => None
      case SeedError => None
  }

  /** First block and snapshot of a walk. */
  function Boot(c: Crypto, cp: Checkpoint, up: BootReply): Option<(Block, Snap)> {
    if up.header.None? || !ValidateBasic(cp) then None
    else
      var h := up.header.value;
      if !HeaderMatches(c.keccak, cp, h) || VerifySealCoinbase(c.keccak, h).Err? then None
      else match SeededSnap(cp, up)
        case None => None
        case Some(s) => Some((BlockOf(h), s))
  }

  /** `walk_from_checkpoint`: boot, then every header up to the tip. */
  function Walk(c: Crypto, cp: Checkpoint, to: nat, maxSync: nat, up: BootReply, reply: Reply): Synced {
    var nothing := Synced([], FromCheckpoint(cp), Some(BootFailed));
    if SatSub(to, cp.number) > maxSync then nothing.(error := Some(CheckpointTooFar))
    else match Boot(c, cp, up)
      case None => nothing
      case Some((first, s)) =>
        if to <= s.number then Synced([first], s, None)
        else match reply
          case Failed => nothing.(error := Some(Transport))
          case Headers(hs) =>
            var r := AppendAll(c, [first], s, hs);
            r.(chain := Keep(r.chain))
  }

  /** A block number a checkpoint can have. */
  predicate Bootable(cp: Checkpoint) {
    cp.number < MAX_NUMBER
  }

  /** A booted snapshot has walked nothing and stands on the checkpoint the operator trusts. */
  lemma BootIsFresh(c: Crypto, cp: Checkpoint, up: BootReply)
    requires Bootable(cp) && Boot(c, cp, up).Some?
    ensures var (first, s) := Boot(c, cp, up).value;
            WellBooted(Branch(s, first, [])) && s.number == cp.number && s.hash == cp.hash && first.stateRoot == cp.stateRoot
  {
    var s0 := FromCheckpoint(cp);
    BootstrapIsFresh(cp, 0);
    match SeededSnap(cp, up) {
      case Some(s) =>
        if cp.number / EPOCH_LENGTH != 0 {
          var turn := EpochSeedAt(cp.number, up.epoch.value, up.prev.value).turnLength;
          BootstrapIsFresh(cp, turn);
        }
    }
  }

  /** ... and its validators and vote keys are aligned. */
  lemma BootIsAligned(c: Crypto, cp: Checkpoint, up: BootReply)
    requires Boot(c, cp, up).Some?
    ensures Aligned(Boot(c, cp, up).value.1)
  {
    CheckpointAligned(cp, if SeededSnap(cp, up).Some? then SeededSnap(cp, up).value.turnLength else 0);
  }

  lemma FirstFollows(c: Crypto, b: Branch)
    requires WellBooted(b) && b.hist == []
    ensures Follows(c, b, 0, [b.genesis], b.base)
  {
  }

  /** A successful walk ends on a branch that starts at the checkpoint and holds the reply's headers. */
  lemma WalkFollows(c: Crypto, cp: Checkpoint, to: nat, maxSync: nat, up: BootReply, reply: Reply)
    returns (b: Branch, from: nat)
    requires Bootable(cp) && Walk(c, cp, to, maxSync, up, reply).error.None?
    ensures var r := Walk(c, cp, to, maxSync, up, reply); Follows(c, b, from, r.chain, r.snap)
    ensures b.base.number == cp.number && b.base.hash == cp.hash
    ensures b.hist == if to <= cp.number || reply.Failed? then [] else reply.headers
    ensures IsFold(c, b, Walk(c, cp, to, maxSync, up, reply).snap)
  {
    BootIsFresh(c, cp, up);
    var (first, s) := Boot(c, cp, up).value;
    b, from := Branch(s, first, []), 0;
    FirstFollows(c, b);
    if to > s.number {
      var hs := reply.headers;
      var all := AppendAll(c, [first], s, hs);
      var n := AppendAllFollows(c, b, 0, [first], s, hs);
      AppendAllExact(c, b, [first], s, hs, all);
      from := WalkKept(c, b, hs, n, all);
      b := Extend(b, hs);
    }
  }

  lemma WalkKept(c: Crypto, b: Branch, hs: seq<Header>, n: nat, r: Synced) returns (from: nat)
    requires GrownBy(c, b, 0, hs, n, r) && r.error.None?
    ensures Follows(c, Extend(b, hs), from, Keep(r.chain), r.snap)
  {
    assert hs[..n] == hs;
    from := KeepFollows(c, Extend(b, hs), 0, r.chain, r.snap);
  }

  // ----- the engine object -----

  lemma KeepPush(full: seq<Block>, x: Block)
    requires full != []
    ensures Keep(Keep(full) + [x]) == Keep(full + [x])
    ensures Keep(full) != [] && Keep(full)[|Keep(full)| - 1] == full[|full| - 1]
  {
  }

  /** Trimming after every header or once at the end is the same. */
  lemma KeepStep(c: Crypto, full: seq<Block>, s: Snap, h: Header)
    requires full != []
    ensures var whole, kept := AppendOne(c, full, s, h), AppendOne(c, Keep(full), s, h);
            kept.snap == whole.snap && kept.error == whole.error &&
            (whole.error.None? ==> Keep(kept.chain) == Keep(whole.chain)) && (whole.error.Some? ==> whole.chain == full)
  {
    KeepPush(full, BlockOf(h));
    var next := AppendOneCases(c, full, s, h);
    var kept := AppendOneCases(c, Keep(full), s, h);
  }

  class LightEngine {
    var snapshot: Snap
    var chain: seq<Block>
    var safe: Option<SafeHead>

    predicate Valid()
      reads this
    {
      0 < |chain| <= KEEP
    }

    constructor (first: Block, booted: Snap)
      ensures Valid() && chain == [first] && snapshot == booted && safe == None
    {
      chain, snapshot, safe := [first], booted, None;
    }

    method ApplyHeader(c: Crypto, h: Header) returns (error: Option<SyncError>)
      requires Valid()
      modifies this
      ensures Valid()
      ensures var r := AppendOne(c, old(chain), old(snapshot), h);
              error == r.error && snapshot == r.snap && chain == Keep(r.chain)
      ensures safe == if error.None? then NewestSafe(chain, |snapshot.validators|) else old(safe)
    {
      var prev := chain[|chain| - 1];
      if !CascadingOk(prev.milli, prev.gasLimit, h) {
        return Some(Cascading);
      }
      var applied := Snapshot.ApplyHeader(c, snapshot, h);
      snapshot := applied.snap;
      if applied.Rejected? {
        return Some(Refused(applied.error));
      }
      chain := chain + [BlockOf(h)];
      if |chain| > KEEP {
        chain := chain[|chain| - KEEP..];
      }
      safe := NewestSafeLoop(chain, |snapshot.validators|);
      return None;
    }

    /** The loop stops at the first refused header. */
    method ApplyHeaders(c: Crypto, hs: seq<Header>) returns (error: Option<SyncError>)
      requires Valid()
      modifies this
      ensures Valid()
      ensures var r := AppendAll(c, old(chain), old(snapshot), hs);
              error == r.error && snapshot == r.snap && chain == Keep(r.chain)
    {
      ghost var full := chain;
      for i := 0 to |hs|
        invariant Valid() && full != [] && chain == Keep(full)
        invariant AppendAll(c, full, snapshot, hs[i..]) == AppendAll(c, old(chain), old(snapshot), hs)
      {
        ghost var one := AppendOne(c, full, snapshot, hs[i]);
        KeepStep(c, full, snapshot, hs[i]);
        AppendAllStep(c, full, snapshot, hs, i);
        error := ApplyHeader(c, hs[i]);
        if error.Some? {
          return;
        }
        full := one.chain;
      }
      return None;
    }
  }
}
