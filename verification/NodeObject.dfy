/** The node as the source runs it: lock-guarded fields that the sync methods update in place. Every
    method is tied to the value-level step of module `Node`. */
module NodeObject {
  import opened Base
  import opened Vote
  import opened Headers
  import opened Snapshot
  import opened Finality
  import opened Sync
  import opened Engine
  import N = Node
  import P = Publish

  lemma UptoStep(done: seq<Block>, b: Block, rest: seq<Block>, n: nat)
    ensures b.number <= n ==> done + N.Upto([b] + rest, n) == done + [b] + N.Upto(rest, n)
    ensures b.number > n ==> done + N.Upto([b] + rest, n) == done
  {
    assert ([b] + rest)[1..] == rest;
  }

  /** The blocks of the chain up to a height, taken while they last. */
  method TakeUpto(chain: seq<Block>, n: nat) returns (candidate: seq<Block>)
    ensures candidate == N.Upto(chain, n)
  {
    candidate := [];
    var i := 0;
    while i < |chain| && chain[i].number <= n
      invariant i <= |chain| && candidate + N.Upto(chain[i..], n) == N.Upto(chain, n)
    {
      assert chain[i..] == [chain[i]] + chain[i + 1..];
      UptoStep(candidate, chain[i], chain[i + 1..], n);
      candidate := candidate + [chain[i]];
      i := i + 1;
    }
    assert N.Upto(chain[i..], n) == [];
  }

  /** Boot a fresh engine and walk it to the tip. */
  method WalkFromCheckpoint(c: Crypto, cp: Checkpoint, to: nat, maxSync: nat, up: BootReply, reply: Reply) returns (r: Synced)
    ensures r == Walk(c, cp, to, maxSync, up, reply)
  {
    var nothing := Synced([], FromCheckpoint(cp), Some(BootFailed));
    if SatSub(to, cp.number) > maxSync {
      return nothing.(error := Some(CheckpointTooFar));
    }
    var booted := Boot(c, cp, up);
    if booted.None? {
      return nothing;
    }
    var (first, s) := booted.value;
    var engine := new LightEngine(first, s);
    if to <= engine.snapshot.number {
      return Synced(engine.chain, engine.snapshot, None);
    }
    if reply.Failed? {
      return nothing.(error := Some(Transport));
    }
    var error := engine.ApplyHeaders(c, reply.headers);
    return Synced(engine.chain, engine.snapshot, error);
  }

  /** The boot's wait for a first Safe head. */
  method WaitLoop(c: Crypto, chain0: seq<Block>, snap0: Snap, polls: seq<N.Poll>) returns (w: Option<N.Waited>)
    ensures w == N.WaitForSafe(c, chain0, snap0, polls)
  {
    var chain, snap := chain0, snap0;
    for i := 0 to |polls|
      invariant N.WaitForSafe(c, chain, snap, polls[i..]) == N.WaitForSafe(c, chain0, snap0, polls)
    {
      var safe := NewestSafeLoop(chain, N.N_SEAL);
      if safe.Some? {
        return Some(N.Waited(chain, snap, safe.value));
      }
      var r := AppendNewWithSnapshot(c, chain, snap, polls[i].tip, polls[i].reply);
      assert polls[i..][1..] == polls[i + 1..];
      if r.error.Some? {
        return None;
      }
      chain, snap := r.chain, r.snap;
    }
    var safe := NewestSafeLoop(chain, N.N_SEAL);
    return if safe.Some? then Some(N.Waited(chain, snap, safe.value)) else None;
  }

  /** `bootstrap_from_checkpoint`: walk, wait for a Safe head, build the node. */
  method BootstrapFromCheckpoint(
      c: Crypto, cfg: N.Config, cp: Checkpoint, tip: nat, up: BootReply, reply: Reply, polls: seq<N.Poll>) returns (node: Node?)
    ensures (node != null) == N.Bootstrap(c, cp, tip, cfg.maxSync, up, reply, polls).Some?
    ensures node != null ==>
              var o := N.Bootstrap(c, cp, tip, cfg.maxSync, up, reply, polls).value;
              fresh(node) && node.cfg == cfg && node.View() == o.state && node.Gauges() == P.BootGauges(o.state.snap, tip, o.safe)
  {
    var walked := WalkFromCheckpoint(c, cp, tip, cfg.maxSync, up, reply);
    if walked.error.Some? {
      return null;
    }
    var w := WaitLoop(c, walked.chain, walked.snap, polls);
    if w.None? {
      return null;
    }
    node := new Node(cfg, w.value.chain, w.value.snap, tip, w.value.safe);
  }

  class Node {
    const cfg: N.Config
    var chain: seq<Block>
    var snapshot: Snap
    var rollbacks: seq<Snap>
    var lastTip: nat
    var lastSafe: nat
    var lastJustified: Option<nat>
    var lastFinalized: Option<nat>
    var finality: P.FinalityView

    function View(): N.State
      reads this
    {
      N.State(chain, snapshot, rollbacks)
    }

    function Gauges(): P.Gauges
      reads this
    {
      P.Gauges(lastTip, lastSafe, lastJustified, lastFinalized, finality)
    }

    /** A booted node: its own head is its first rollback point, the tip sampled before the walk is
        published, and the view is still the default one. */
    constructor (config: N.Config, walked: seq<Block>, booted: Snap, tip: nat, safe: SafeHead)
      ensures cfg == config && View() == N.State(walked, booted, [booted]) && Gauges() == P.BootGauges(booted, tip, safe)
    {
      cfg := config;
      chain, snapshot, rollbacks := walked, booted, [booted];
      lastTip, lastSafe := tip, safe.number;
      var a := booted.attestation;
      lastJustified := if a.Some? then Some(a.value.targetNumber) else None;
      lastFinalized := if a.Some? then Some(a.value.sourceNumber) else None;
      finality := P.FinalityView(0, false, None, None, None, false);
    }

    /** The rest of one point's turn: truncate, check the end, walk. None passes the point over unwalked. */
    method TryPoint(c: Crypto, point: Snap, tip: nat, up: N.Upstream) returns (r: Option<Synced>)
      ensures r.Some? == N.Usable(chain, point, tip)
      ensures r.Some? ==> r.value == N.WalkFrom(c, chain, point, tip, up)
    {
      if point.number < FirstNumber(chain) || point.number > tip {
        return None;
      }
      var candidate := TakeUpto(chain, point.number);
      if candidate == [] || LastNumber(candidate) != point.number {
        return None;
      }
      var walked := AppendNewWithSnapshot(c, candidate, point, tip, up.rewind(point.number));
      return Some(walked);
    }

    method RecordRollback(floor: nat)
      modifies this`rollbacks
      ensures rollbacks == N.RecordRollback(old(rollbacks), snapshot, floor)
    {
      while rollbacks != [] && rollbacks[0].number < floor
        invariant N.DropBelow(rollbacks, floor) == N.DropBelow(old(rollbacks), floor)
        decreases |rollbacks|
      {
        rollbacks := rollbacks[1..];
      }
      if !N.Due(rollbacks, snapshot) {
        return;
      }
      ghost var all := rollbacks + [snapshot];
      rollbacks := rollbacks + [snapshot];
      while |rollbacks| > N.ROLLBACK_KEEP
        invariant N.NewestPoints(rollbacks) == N.NewestPoints(all)
        decreases |rollbacks|
      {
        rollbacks := rollbacks[1..];
      }
    }

    method PopAbove(n: nat)
      modifies this`rollbacks
      ensures rollbacks == N.DropAbove(old(rollbacks), n)
    {
      while rollbacks != [] && rollbacks[|rollbacks| - 1].number > n
        invariant N.DropAbove(rollbacks, n) == N.DropAbove(old(rollbacks), n)
        decreases |rollbacks|
      {
        rollbacks := rollbacks[..|rollbacks| - 1];
      }
    }

    /** The loop over points, newest first; it writes nothing. */
    method SearchPoints(c: Crypto, tip: nat, up: N.Upstream) returns (a: N.Attempt, r: Synced)
      ensures a == N.Search(c, View(), tip, up, |rollbacks|)
      ensures a.Rewound? ==> r == N.WalkFrom(c, chain, rollbacks[a.point], tip, up)
    {
      var i := |rollbacks|;
      r := Synced([], snapshot, None);
      while i > 0
        invariant 0 <= i <= |rollbacks|
        invariant N.Search(c, View(), tip, up, |rollbacks|) == N.Search(c, View(), tip, up, i)
      {
        N.SearchStep(c, View(), tip, up, i);
        i := i - 1;
        var tried := TryPoint(c, rollbacks[i], tip, up);
        if tried.None? {
          continue;
        }
        r := tried.value;
        if r.error.None? {
          return N.Rewound(i), r;
        }
        if !IsLinkErr(r.error.value) {
          return N.Stopped(r.error.value), r;
        }
      }
      return N.Exhausted, r;
    }

    /** Nothing is written until a walk has succeeded. */
    method RecoverFromLinkBreak(c: Crypto, tip: nat, up: N.Upstream, err: SyncError) returns (error: Option<SyncError>)
      modifies this`chain, this`snapshot, this`rollbacks
      ensures N.Outcome(View(), error) == N.Recover(c, cfg, old(View()), tip, up, err)
    {
      var a, r := SearchPoints(c, tip, up);
      match a {
        case Stopped(e) =>
          return Some(e);
        case Rewound(i) =>
          var point := rollbacks[i];
          chain, snapshot := r.chain, r.snap;
          PopAbove(point.number);
          return None;
        case Exhausted =>
          if cfg.origin.None? {
            return Some(err);
          }
          var replay := WalkFromCheckpoint(c, cfg.origin.value, tip, cfg.maxSync, up.boot, up.replay);
          if replay.error.Some? {
            return replay.error;
          }
          chain, snapshot, rollbacks := replay.chain, replay.snap, [];
          return None;
      }
    }

    method ResyncLocked(c: Crypto, tip: nat, up: N.Upstream) returns (result: Result<N.Heads, SyncError>)
      modifies this`chain, this`snapshot, this`rollbacks
      ensures N.Resynced(View(), result) == N.Resync(c, cfg, old(View()), tip, up)
    {
      if tip > SatAdd(LastNumber(chain), cfg.maxSync) {
        return Err(TipJumped);
      }
      var a := AppendNewWithSnapshot(c, chain, snapshot, tip, up.append);
      chain, snapshot := a.chain, a.snap;
      var error := a.error;
      if error.Some? && IsLinkErr(error.value) {
        error := RecoverFromLinkBreak(c, tip, up, error.value);
      }
      if error.Some? {
        return Err(error.value);
      }
      RecordRollback(FirstNumber(chain));
      var conf := NewestSafeLoop(chain, N.N_SEAL);
      if conf.None? {
        return Err(NoSafe);
      }
      return Ok(N.Heads(N.ReadHead(cfg.fast, chain, snapshot, conf.value), conf.value));
    }

    /** One refresh, the tip already sampled: every gauge comes from this sync, or none changes. */
    method RefreshNow(c: Crypto, tip: nat, up: N.Upstream) returns (result: Result<(nat, SafeHead), SyncError>)
      modifies this
      ensures var r := N.Resync(c, cfg, old(View()), tip, up);
              View() == r.state && result.Ok? == r.result.Ok? &&
              (r.result.Ok? ==> Gauges() == P.Sample(r.state, r.result.value)
                                && result == Ok((LastNumber(r.state.chain), r.result.value.read))) &&
              (r.result.Err? ==> Gauges() == old(Gauges()) && result == Err(r.result.error))
    {
      var synced := ResyncLocked(c, tip, up);
      if synced.Err? {
        return Err(synced.error);
      }
      var heads := synced.value;
      var head := LastNumber(chain);
      var a := snapshot.attestation;
      var justified := if a.Some? then Some((a.value.targetNumber, a.value.targetHash)) else None;
      var finalized := if a.Some? then Some((a.value.sourceNumber, a.value.sourceHash)) else None;
      lastTip := head;
      lastSafe := heads.conf.number;
      lastJustified := if justified.Some? then Some(justified.value.0) else None;
      lastFinalized := if finalized.Some? then Some(finalized.value.0) else None;
      finality := P.FinalityView(head, snapshot.voteSet != [], justified, finalized,
                                 Some(heads.read), heads.read.number != heads.conf.number);
      return Ok((head, heads.read));
    }
  }
}
