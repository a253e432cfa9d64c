/** How far back the node can rewind: the spacing and the number of its retained states, over every run. */
module Retention {
  import opened Base
  import opened Vote
  import opened Headers
  import opened Snapshot
  import opened Finality
  import opened Sync
  import opened Engine
  import opened Node
  import opened Progress

  // ----- spacing -----

  /** Each retained state is at least 16 blocks past the one before. */
  ghost predicate Spaced(points: seq<Snap>) {
    forall i: nat | i + 1 < |points| :: SpacedAt(points, i)
  }

  ghost predicate SpacedAt(points: seq<Snap>, i: nat)
    requires i + 1 < |points|
  {
    points[i + 1].number >= SatAdd(points[i].number, 16)
  }

  lemma SpacedPart(points: seq<Snap>, lo: nat, hi: nat)
    requires Spaced(points) && lo <= hi <= |points|
    ensures Spaced(points[lo..hi])
  {
    forall i: nat | i + 1 < hi - lo
      ensures SpacedAt(points[lo..hi], i)
    {
      assert SpacedAt(points, lo + i);
    }
  }

  lemma {:induction false} AboveIsPart(points: seq<Snap>, n: nat)
    ensures DropAbove(points, n) <= points
  {
    if points != [] && points[|points| - 1].number > n { AboveIsPart(points[..|points| - 1], n); }
  }

  lemma {:induction false} BelowIsPart(points: seq<Snap>, floor: nat) returns (k: nat)
    ensures k <= |points| && DropBelow(points, floor) == points[k..|points|]
  {
    k := 0;
    if points != [] && points[0].number < floor {
      var m := BelowIsPart(points[1..], floor);
      k := m + 1;
    }
  }

  lemma RecordSpaced(points: seq<Snap>, s: Snap, floor: nat)
    requires Spaced(points)
    ensures Spaced(RecordRollback(points, s, floor)) && |RecordRollback(points, s, floor)| <= if |points| > 16 then |points| else 16
  {
    var k := BelowIsPart(points, floor);
    SpacedPart(points, k, |points|);
    var kept := DropBelow(points, floor);
    if Due(kept, s) {
      PushSpaced(kept, s);
      var all := kept + [s];
      var lo := if |all| > 16 then |all| - 16 else 0;
      SpacedPart(all, lo, |all|);
      assert all[lo..|all|] == NewestPoints(all);
    }
  }

  lemma PushSpaced(kept: seq<Snap>, s: Snap)
    requires Spaced(kept) && Due(kept, s)
    ensures Spaced(kept + [s])
  {
    var all := kept + [s];
    forall i: nat | i + 1 < |all|
      ensures SpacedAt(all, i)
    {
      if i + 1 < |kept| { assert SpacedAt(kept, i); }
    }
  }

  lemma RecoverSpaced(c: Crypto, cfg: Config, st: State, tip: nat, up: Upstream, err: SyncError)
    requires Spaced(st.rollbacks)
    ensures Spaced(Recover(c, cfg, st, tip, up, err).state.rollbacks)
    ensures Recover(c, cfg, st, tip, up, err).state.rollbacks <= st.rollbacks
  {
    var a := Search(c, st, tip, up, |st.rollbacks|);
    if a.Rewound? {
      var n := st.rollbacks[a.point].number;
      AboveIsPart(st.rollbacks, n);
      SpacedPart(st.rollbacks, 0, |DropAbove(st.rollbacks, n)|);
      assert st.rollbacks[0..|DropAbove(st.rollbacks, n)|] == DropAbove(st.rollbacks, n);
    }
  }

  lemma ResyncSpaced(c: Crypto, cfg: Config, st: State, tip: nat, up: Upstream)
    requires Spaced(st.rollbacks) && |st.rollbacks| <= 16
    ensures var r := Resync(c, cfg, st, tip, up).state; Spaced(r.rollbacks) && |r.rollbacks| <= 16
  {
    var a := Append(c, st.chain, st.snap, tip, up.append);
    if a.error.Some? { RecoverSpaced(c, cfg, st.(chain := a.chain, snap := a.snap), tip, up, a.error.value); }
    var o := AppendOrRecover(c, cfg, st, tip, up);
    RecordSpaced(o.state.rollbacks, o.state.snap, FirstNumber(o.state.chain));
  }

  /** Over every run from boot the retained states are at least 16 blocks apart, 16 of them at most. */
  lemma {:induction false} CallsSpaced(c: Crypto, cfg: Config, st: State, calls: seq<Call>)
    requires Spaced(st.rollbacks) && |st.rollbacks| <= 16
    ensures var r := Calls(c, cfg, st, calls); Spaced(r.rollbacks) && |r.rollbacks| <= 16
  {
    if calls != [] {
      var n := |calls| - 1;
      CallsSpaced(c, cfg, st, calls[..n]);
      ResyncSpaced(c, cfg, Calls(c, cfg, st, calls[..n]), calls[n].tip, calls[n].up);
    }
  }

  lemma BootSpaced(c: Crypto, cp: Checkpoint, tip: nat, maxSync: nat, up: BootReply, reply: Reply, polls: seq<Poll>)
    requires Bootstrap(c, cp, tip, maxSync, up, reply, polls).Some?
    ensures var o := Bootstrap(c, cp, tip, maxSync, up, reply, polls).value.state; Spaced(o.rollbacks) && o.rollbacks == [o.snap]
  {
  }

  /** What a resync retains, exactly. */
  lemma ResyncRecords(c: Crypto, cfg: Config, st: State, b: Branch, from: nat, tip: nat, up: Upstream) returns (k: nat)
    requires Inv(c, st, b, from) && (cfg.origin.Some? ==> Bootable(cfg.origin.value))
    requires tip <= LastNumber(st.chain) + cfg.maxSync < U64
    requires var o := AppendOrRecover(c, cfg, st, tip, up); o.error.None? && o.state.snap.number + 16 < U64
    ensures var o := AppendOrRecover(c, cfg, st, tip, up);
            RecordedAs(o.state.rollbacks, o.state.snap, FirstNumber(o.state.chain), Resync(c, cfg, st, tip, up).state.rollbacks, k)
  {
    var o := AppendOrRecover(c, cfg, st, tip, up);
    var more, won, later, recovered := AdvanceFollows(c, cfg, st, b, from, tip, up);
    HeadNumber(c, won, o.state.snap);
    k := RecordIs(c, won, o.state.rollbacks, o.state.snap, FirstNumber(o.state.chain));
  }

  // ----- what that covers -----

  lemma {:induction false} Reach(points: seq<Snap>, i: nat, j: nat)
    requires Spaced(points) && i <= j < |points| && points[j].number < U64 - 1
    ensures points[j].number >= points[i].number + 16 * (j - i)
    decreases j
  {
    if i < j {
      assert SpacedAt(points, j - 1);
      Reach(points, i, j - 1);
    }
  }

  /** The newest retained state is at most 15 blocks behind the head; sixteen of them span 240 blocks. */
  predicate Deep(st: State) {
    var last := |st.rollbacks| - 1;
    0 <= last < 16 && st.snap.number - 15 <= st.rollbacks[last].number <= st.snap.number &&
    (last == 15 ==> st.rollbacks[0].number + 240 <= st.rollbacks[15].number)
  }

  /** After any run from boot whose last resync succeeded: the newest retained state is at most 15 blocks behind
      the head, and a full sixteen reach back at least 240 blocks from there. */
  lemma DepthCovered(
      c: Crypto, cfg: Config, cp: Checkpoint, tip: nat, up: BootReply, reply: Reply, polls: seq<Poll>, calls: seq<Call>)
    requires Bootable(cp) && cfg.origin == Some(cp) && Bootstrap(c, cp, tip, cfg.maxSync, up, reply, polls).Some? && calls != []
    requires var n := |calls| - 1;
             Resync(c, cfg, Calls(c, cfg, Bootstrap(c, cp, tip, cfg.maxSync, up, reply, polls).value.state, calls[..n]),
                    calls[n].tip, calls[n].up).result.Ok?
    requires Calls(c, cfg, Bootstrap(c, cp, tip, cfg.maxSync, up, reply, polls).value.state, calls).snap.number < U64 - 1
    ensures var st := Calls(c, cfg, Bootstrap(c, cp, tip, cfg.maxSync, up, reply, polls).value.state, calls);
            Deep(st)
  {
    var st0 := Bootstrap(c, cp, tip, cfg.maxSync, up, reply, polls).value.state;
    var b, from := BootHolds(c, cp, tip, cfg.maxSync, up, reply, polls);
    BootSpaced(c, cp, tip, cfg.maxSync, up, reply, polls);
    DepthFrom(c, cfg, st0, b, from, calls);
  }

  lemma DepthFrom(c: Crypto, cfg: Config, st0: State, b0: Branch, from0: nat, calls: seq<Call>)
    requires Inv(c, st0, b0, from0) && (cfg.origin.Some? ==> Bootable(cfg.origin.value)) && calls != []
    requires Spaced(st0.rollbacks) && |st0.rollbacks| <= 16
    requires var n := |calls| - 1; Resync(c, cfg, Calls(c, cfg, st0, calls[..n]), calls[n].tip, calls[n].up).result.Ok?
    requires Calls(c, cfg, st0, calls).snap.number < U64 - 1
    ensures Deep(Calls(c, cfg, st0, calls))
  {
    var n := |calls| - 1;
    CallsSpaced(c, cfg, st0, calls);
    var b, from := RunsAreSound(c, cfg, st0, b0, from0, calls[..n]);
    var more, recovered;
    more, b, from, recovered := ResyncFollows(c, cfg, Calls(c, cfg, st0, calls[..n]), b, from, calls[n].tip, calls[n].up);
    CoveredIsDeep(c, Calls(c, cfg, st0, calls), b, from);
  }

  lemma CoveredIsDeep(c: Crypto, st: State, b: Branch, from: nat)
    requires Inv(c, st, b, from) && Spaced(st.rollbacks) && 0 < |st.rollbacks| <= 16 && st.snap.number < U64 - 1
    requires st.snap.number < st.rollbacks[|st.rollbacks| - 1].number + 16
    ensures Deep(st)
  {
    PointBelow(c, b, st.rollbacks, |st.rollbacks| - 1);
    HeadNumber(c, b, st.snap);
    if |st.rollbacks| == 16 { Reach(st.rollbacks, 0, 15); }
  }
}
