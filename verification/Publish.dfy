/** Publishing under the chain lock: several threads sample a tip outside the lock, sync inside it and
    store the gauges one by one before releasing it. */
module Publish {
  import opened Base
  import opened Vote
  import opened Headers
  import opened Snapshot
  import opened Runs
  import opened Finality
  import opened Sync
  import opened Engine
  import opened Node
  import Served
  import TwoChain

  datatype FinalityView = FinalityView(
    head: nat, available: bool, justified: Option<(nat, Hash)>, finalized: Option<(nat, Hash)>,
    readHead: Option<SafeHead>, readHeadIsFast: bool)

  /** The four atomics and the view, as `/metrics` and the status call read them. */
  datatype Gauges = Gauges(tip: nat, safe: nat, justified: Option<nat>, finalized: Option<nat>, view: FinalityView)

  /** Everything one successful sync publishes. */
  function Sample(st: State, heads: Heads): Gauges {
    var head := LastNumber(st.chain);
    var a := st.snap.attestation;
    Gauges(head, heads.conf.number,
           if a.Some? then Some(a.value.targetNumber) else None,
           if a.Some? then Some(a.value.sourceNumber) else None,
           FinalityView(head, st.snap.voteSet != [],
                        if a.Some? then Some((a.value.targetNumber, a.value.targetHash)) else None,
                        if a.Some? then Some((a.value.sourceNumber, a.value.sourceHash)) else None,
                        Some(heads.read), heads.read.number != heads.conf.number))
  }

  /** Every sample a sync can publish is in order: finalized below justified below the tip, the safe
      head below the tip, the read head between them, and the view repeats the gauges. */
  ghost predicate InOrder(g: Gauges) {
    g.safe < g.tip && g.view.head == g.tip &&
    (g.justified.Some? <==> g.finalized.Some?) &&
    (g.justified.Some? ==> g.finalized.value < g.justified.value < g.tip) &&
    (g.view.justified.Some? <==> g.justified.Some?) && (g.view.justified.Some? ==> g.view.justified.value.0 == g.justified.value) &&
    (g.view.finalized.Some? <==> g.finalized.Some?) && (g.view.finalized.Some? ==> g.view.finalized.value.0 == g.finalized.value) &&
    g.view.readHead.Some? && g.safe <= g.view.readHead.value.number <= g.tip &&
    (g.view.readHeadIsFast <==> g.view.readHead.value.number > g.safe)
  }

  lemma VotesInOrder(c: Crypto, st: State, b: Branch, from: nat)
    requires Inv(c, st, b, from) && st.snap.attestation.Some?
    ensures var a := st.snap.attestation.value; a.sourceNumber < a.targetNumber < st.snap.number
  {
    ExtendNone(b);
    var r := Served.RunOf(c, b, []);
    ResidueKeepsHead(st.snap, r.states[|b.hist|]);
    TwoChain.TwoChainFinality(r, |b.hist|);
    TwoChain.VotesAlways(r, |b.hist|);
  }

  lemma HeadsInOrder(c: Crypto, fast: bool, st: State, b: Branch, from: nat)
    requires Inv(c, st, b, from) && HeadsOf(fast, st).Ok?
    ensures var h := HeadsOf(fast, st).value; h.conf.number < LastNumber(st.chain) && h.conf.number <= h.read.number <= LastNumber(st.chain)
  {
    FollowsShape(c, b, from, st.chain, st.snap);
    var k := Served.HeadIsLocal(fast, st);
  }

  lemma SampleInOrder(c: Crypto, fast: bool, st: State, b: Branch, from: nat)
    requires Inv(c, st, b, from) && HeadsOf(fast, st).Ok?
    ensures InOrder(Sample(st, HeadsOf(fast, st).value))
  {
    FollowsShape(c, b, from, st.chain, st.snap);
    HeadsInOrder(c, fast, st, b, from);
    if st.snap.attestation.Some? {
      VotesInOrder(c, st, b, from);
    }
  }

  /** What the boot publishes: the tip it sampled, its Safe head, the attestation, and no view yet. */
  function BootGauges(s: Snap, tip: nat, safe: SafeHead): Gauges {
    Gauges(tip, safe.number,
           if s.attestation.Some? then Some(s.attestation.value.targetNumber) else None,
           if s.attestation.Some? then Some(s.attestation.value.sourceNumber) else None,
           FinalityView(0, false, None, None, None, false))
  }

  const STORES: nat := 5

  /** Gauges of which the first n stores of a sample have landed. */
  function Mix(prev: Gauges, g: Gauges, n: nat): Gauges {
    Gauges(if n >= 1 then g.tip else prev.tip, if n >= 2 then g.safe else prev.safe,
           if n >= 3 then g.justified else prev.justified, if n >= 4 then g.finalized else prev.finalized,
           if n >= 5 then g.view else prev.view)
  }

  /** The n-th store. */
  function StoreOne(cur: Gauges, g: Gauges, n: nat): Gauges {
    if n == 0 then cur.(tip := g.tip)
    else if n == 1 then cur.(safe := g.safe)
    else if n == 2 then cur.(justified := g.justified)
    else if n == 3 then cur.(finalized := g.finalized)
    else cur.(view := g.view)
  }

  datatype Thread = Idle | Sampled(tip: nat) | Syncing(tip: nat) | Storing(sample: Gauges, done: nat)

  datatype Machine = Machine(threads: seq<Thread>, lock: Option<nat>, node: State, gauges: Gauges)

  datatype Event =
    | SampleTip(thread: nat, tip: nat)
    | Acquire(thread: nat)
    | Sync(thread: nat, up: Upstream)
    | Store(thread: nat)
    | Release(thread: nat)

  function At(m: Machine, t: nat): Thread {
    if t < |m.threads| then m.threads[t] else Idle
  }

  function Put(m: Machine, t: nat, th: Thread): Machine
    requires t < |m.threads|
  {
    m.(threads := m.threads[t := th])
  }

  /** The sync a lock holder is about to run. */
  function SyncOf(c: Crypto, cfg: Config, m: Machine, e: Event): Resynced
    requires e.Sync? && At(m, e.thread).Syncing?
  {
    Resync(c, cfg, m.node, At(m, e.thread).tip, e.up)
  }

  /** One step of one thread; an event its thread is not ready for does nothing. A failed sync drops
      its guards on the way out and publishes nothing. */
  function Do(c: Crypto, cfg: Config, m: Machine, e: Event): Machine {
    if e.thread >= |m.threads| then m
    else
      var th := m.threads[e.thread];
      match e
      case SampleTip(t, tip) => if th.Idle? then Put(m, t, Sampled(tip)) else m
      case Acquire(t) => if th.Sampled? && m.lock.None? then Put(m, t, Syncing(th.tip)).(lock := Some(t)) else m
      case Sync(t, up) =>
        if !th.Syncing? then m
        else
          var r := Resync(c, cfg, m.node, th.tip, up);
          if r.result.Ok? then Put(m, t, Storing(Sample(r.state, r.result.value), 0)).(node := r.state)
          else Put(m, t, Idle).(node := r.state, lock := None)
      case Store(t) =>
        if th.Storing? && th.done < STORES
        then Put(m, t, Storing(th.sample, th.done + 1)).(gauges := StoreOne(m.gauges, th.sample, th.done)) else m
      case Release(t) => if th.Storing? && th.done == STORES then Put(m, t, Idle).(lock := None) else m
  }

  function Exec(c: Crypto, cfg: Config, m: Machine, es: seq<Event>): Machine {
    if es == [] then m else Do(c, cfg, Exec(c, cfg, m, es[..|es| - 1]), es[|es| - 1])
  }

  predicate Succeeds(c: Crypto, cfg: Config, m: Machine, e: Event) {
    e.Sync? && At(m, e.thread).Syncing? && SyncOf(c, cfg, m, e).result.Ok?
  }

  /** The newest successful sync, if this event is one. */
  function After(c: Crypto, cfg: Config, m: Machine, e: Event, latest: Gauges): Gauges {
    if Succeeds(c, cfg, m, e) then Sample(SyncOf(c, cfg, m, e).state, SyncOf(c, cfg, m, e).result.value) else latest
  }

  /** What the newest successful sync of a run published, or is publishing. */
  function Latest(c: Crypto, cfg: Config, m: Machine, es: seq<Event>): Gauges {
    if es == [] then m.gauges
    else
      var init, n := es[..|es| - 1], |es| - 1;
      After(c, cfg, Exec(c, cfg, m, init), es[n], Latest(c, cfg, m, init))
  }

  /** What the successful sync before that one published. */
  function Previous(c: Crypto, cfg: Config, m: Machine, es: seq<Event>): Gauges {
    if es == [] then m.gauges
    else
      var init, n := es[..|es| - 1], |es| - 1;
      if Succeeds(c, cfg, Exec(c, cfg, m, init), es[n]) then Latest(c, cfg, m, init) else Previous(c, cfg, m, init)
  }

  // ----- mutual exclusion and coherence, whatever the upstream answers -----

  /** Only the lock holder is past the lock. */
  ghost predicate Exclusive(threads: seq<Thread>, lock: Option<nat>) {
    (lock.Some? ==> lock.value < |threads|) && forall t: nat | t < |threads| :: ExclusiveAt(threads, lock, t)
  }

  ghost predicate ExclusiveAt(threads: seq<Thread>, lock: Option<nat>, t: nat)
    requires t < |threads|
  {
    (threads[t].Syncing? || threads[t].Storing?) <==> lock == Some(t)
  }

  /** Stores of the newest sync that have landed: all of them unless its thread is still storing. */
  function Landed(m: Machine): nat {
    if m.lock.Some? && At(m, m.lock.value).Storing? then At(m, m.lock.value).done else STORES
  }

  /** Gauges against the two newest successful syncs. */
  ghost predicate Coherent(m: Machine, latest: Gauges, prev: Gauges) {
    Exclusive(m.threads, m.lock) && m.gauges == Mix(prev, latest, Landed(m)) && Landed(m) <= STORES &&
    (m.lock.Some? && At(m, m.lock.value).Storing? ==> At(m, m.lock.value).sample == latest)
  }

  lemma PutExclusive(threads: seq<Thread>, lock: Option<nat>, t: nat, th: Thread, lock': Option<nat>)
    requires Exclusive(threads, lock) && t < |threads|
    requires (th.Syncing? || th.Storing?) <==> lock' == Some(t)
    requires lock' == lock || (lock.None? && lock' == Some(t)) || (lock == Some(t) && lock'.None?)
    ensures Exclusive(threads[t := th], lock')
  {
    var after := threads[t := th];
    forall u: nat | u < |after|
      ensures ExclusiveAt(after, lock', u)
    {
      assert ExclusiveAt(threads, lock, u);
    }
  }

  /** Sampling, locking, storing and releasing: the node is not touched and no store is undone. */
  lemma LocalStep(c: Crypto, cfg: Config, m: Machine, e: Event, latest: Gauges, prev: Gauges)
    requires Coherent(m, latest, prev) && !e.Sync?
    ensures var n := Do(c, cfg, m, e); Coherent(n, latest, prev) && n.node == m.node && Landed(m) <= Landed(n)
  {
    var t := e.thread;
    if t < |m.threads| {
      assert ExclusiveAt(m.threads, m.lock, t);
      var th := m.threads[t];
      match e {
        case SampleTip(_, tip) => if th.Idle? { PutExclusive(m.threads, m.lock, t, Sampled(tip), m.lock); }
        case Acquire(_) => if th.Sampled? && m.lock.None? { PutExclusive(m.threads, m.lock, t, Syncing(th.tip), Some(t)); }
        case Store(_) => if th.Storing? && th.done < STORES { PutExclusive(m.threads, m.lock, t, Storing(th.sample, th.done + 1), m.lock); }
        case Release(_) => if th.Storing? && th.done == STORES { PutExclusive(m.threads, m.lock, t, Idle, None); }
      }
    }
  }

  /** The sync itself, its result given: nothing is stored yet. */
  lemma SyncStep(m: Machine, t: nat, r: Resynced, latest: Gauges, prev: Gauges)
    requires Coherent(m, latest, prev) && t < |m.threads| && m.threads[t].Syncing?
    ensures Landed(m) == STORES
    ensures r.result.Ok? ==>
              var g := Sample(r.state, r.result.value);
              var n := Put(m, t, Storing(g, 0)).(node := r.state);
              Coherent(n, g, latest)
    ensures r.result.Err? ==>
              var n := Put(m, t, Idle).(node := r.state, lock := None);
              Coherent(n, latest, prev) && Landed(n) == STORES
  {
    assert ExclusiveAt(m.threads, m.lock, t);
    if r.result.Ok? {
      PutExclusive(m.threads, m.lock, t, Storing(Sample(r.state, r.result.value), 0), m.lock);
    } else {
      PutExclusive(m.threads, m.lock, t, Idle, None);
    }
  }

  /** The sync before the newest one, after this event. */
  function Superseded(c: Crypto, cfg: Config, m: Machine, e: Event, latest: Gauges, prev: Gauges): Gauges {
    if Succeeds(c, cfg, m, e) then latest else prev
  }

  lemma DoCoherent(c: Crypto, cfg: Config, m: Machine, e: Event, latest: Gauges, prev: Gauges)
    requires Coherent(m, latest, prev)
    ensures Coherent(Do(c, cfg, m, e), After(c, cfg, m, e, latest), Superseded(c, cfg, m, e, latest, prev))
    ensures if Succeeds(c, cfg, m, e) then Do(c, cfg, m, e).gauges == m.gauges else Landed(m) <= Landed(Do(c, cfg, m, e))
  {
    if !e.Sync? {
      LocalStep(c, cfg, m, e, latest, prev);
    } else if At(m, e.thread).Syncing? {
      SyncStep(m, e.thread, SyncOf(c, cfg, m, e), latest, prev);
    }
  }

  /** All threads idle and the lock free. */
  ghost predicate Quiescent(m: Machine) {
    (forall t: nat | t < |m.threads| :: At(m, t).Idle?) && m.lock.None?
  }

  lemma QuiescentCoherent(m: Machine)
    requires Quiescent(m)
    ensures Coherent(m, m.gauges, m.gauges)
  {
    forall t: nat | t < |m.threads|
      ensures ExclusiveAt(m.threads, m.lock, t)
    {
      assert At(m, t).Idle?;
    }
  }

  lemma {:induction false} ExecCoherent(c: Crypto, cfg: Config, m: Machine, es: seq<Event>)
    requires Quiescent(m)
    ensures Coherent(Exec(c, cfg, m, es), Latest(c, cfg, m, es), Previous(c, cfg, m, es))
  {
    if es == [] {
      QuiescentCoherent(m);
    } else {
      var n := |es| - 1;
      ExecCoherent(c, cfg, m, es[..n]);
      DoCoherent(c, cfg, Exec(c, cfg, m, es[..n]), es[n], Latest(c, cfg, m, es[..n]), Previous(c, cfg, m, es[..n]));
    }
  }

  /** Whatever the upstream answers: at any moment the gauges hold the first few stores of the newest
      successful sync over the complete sample of the one before; and whenever the chain lock is
      free, every gauge and the finality view come from the newest one alone. */
  lemma PublishedTogether(c: Crypto, cfg: Config, m: Machine, es: seq<Event>)
    requires Quiescent(m)
    ensures var now := Exec(c, cfg, m, es);
            now.gauges == Mix(Previous(c, cfg, m, es), Latest(c, cfg, m, es), Landed(now))
            && (now.lock.None? ==> now.gauges == Latest(c, cfg, m, es))
  {
    ExecCoherent(c, cfg, m, es);
  }

  // ----- the node under the lock, whatever the upstream answers -----

  lemma {:induction false} NodeFollows(c: Crypto, cfg: Config, m: Machine, b: Branch, from: nat, es: seq<Event>)
    returns (b': Branch, from': nat)
    requires Inv(c, m.node, b, from) && (cfg.origin.Some? ==> Bootable(cfg.origin.value))
    ensures Inv(c, Exec(c, cfg, m, es).node, b', from')
  {
    b', from' := b, from;
    if es != [] {
      var n := |es| - 1;
      b', from' := NodeFollows(c, cfg, m, b, from, es[..n]);
      b', from' := NodeStep(c, cfg, Exec(c, cfg, m, es[..n]), b', from', es[n]);
    }
  }

  lemma NodeStep(c: Crypto, cfg: Config, m: Machine, b: Branch, from: nat, e: Event) returns (b': Branch, from': nat)
    requires Inv(c, m.node, b, from) && (cfg.origin.Some? ==> Bootable(cfg.origin.value))
    ensures Inv(c, Do(c, cfg, m, e).node, b', from')
  {
    b', from' := b, from;
    if e.Sync? && At(m, e.thread).Syncing? {
      var more, recovered;
      more, b', from', recovered := ResyncFollows(c, cfg, m.node, b, from, At(m, e.thread).tip, e.up);
    }
  }

  lemma SuccessInOrder(c: Crypto, cfg: Config, m: Machine, b: Branch, from: nat, e: Event)
    requires Inv(c, m.node, b, from) && (cfg.origin.Some? ==> Bootable(cfg.origin.value)) && Succeeds(c, cfg, m, e)
    ensures InOrder(After(c, cfg, m, e, m.gauges))
  {
    var b', from' := NodeStep(c, cfg, m, b, from, e);
    SampleInOrder(c, cfg.fast, SyncOf(c, cfg, m, e).state, b', from');
  }

  /** Every sample any interleaving publishes is in order, whatever the upstream answers; with the lock
      free, that is what the gauges show. */
  lemma {:induction false} PublishedInOrder(c: Crypto, cfg: Config, m: Machine, b: Branch, from: nat, es: seq<Event>)
    requires Quiescent(m) && Inv(c, m.node, b, from) && (cfg.origin.Some? ==> Bootable(cfg.origin.value))
    ensures Latest(c, cfg, m, es) == m.gauges || InOrder(Latest(c, cfg, m, es))
    ensures Exec(c, cfg, m, es).lock.None? ==> Exec(c, cfg, m, es).gauges == Latest(c, cfg, m, es)
  {
    PublishedTogether(c, cfg, m, es);
    if es != [] {
      var n := |es| - 1;
      PublishedInOrder(c, cfg, m, b, from, es[..n]);
      var before := Exec(c, cfg, m, es[..n]);
      if Succeeds(c, cfg, before, es[n]) {
        var b', from' := NodeFollows(c, cfg, m, b, from, es[..n]);
        SuccessInOrder(c, cfg, before, b', from', es[n]);
      }
    }
  }

  // ----- a sync under the lock never shortens the chain -----

  /** `headers_range` returns exactly the headers asked for, when it returns any. */
  ghost predicate Exact(cfg: Config, st: State, tip: nat, up: Upstream) {
    (up.append.Headers? && tip > LastNumber(st.chain) ==> |up.append.headers| == tip - LastNumber(st.chain)) &&
    (forall n: nat | n < tip && up.rewind(n).Headers? :: |up.rewind(n).headers| == tip - n) &&
    (cfg.origin.Some? && up.replay.Headers? && tip > cfg.origin.value.number ==>
       |up.replay.headers| == tip - cfg.origin.value.number)
  }

  /** The number a branch ends on is the number of the chain's last block. */
  lemma EndsOn(c: Crypto, st: State, b: Branch, from: nat)
    requires Inv(c, st, b, from)
    ensures LastNumber(st.chain) == b.base.number + |b.hist|
  {
    FollowsShape(c, b, from, st.chain, st.snap);
    HeadNumber(c, b, st.snap);
  }

  lemma RewindReaches(c: Crypto, cfg: Config, st: State, st1: State, b: Branch, i: nat, tip: nat, up: Upstream, won: Branch)
    requires WonByRewind(c, st1, b, i, tip, up, won) && Exact(cfg, st, tip, up)
    ensures won.base.number + |won.hist| == tip
  {
    var p := st1.rollbacks[i];
    assert LastNumber(Upto(st1.chain, p.number)) == p.number;
    if p.number < tip {
      assert |up.rewind(p.number).headers| == tip - p.number;
    }
  }

  lemma ReplayReaches(cfg: Config, st: State, tip: nat, up: Upstream, won: Branch)
    requires WonByReplay(cfg, tip, up, won) && Exact(cfg, st, tip, up)
    ensures won.base.number + |won.hist| >= tip
  {
  }

  /** With exact replies the verified chain never ends lower than before, even through a recovery. */
  lemma ResyncRaises(c: Crypto, cfg: Config, st: State, b: Branch, from: nat, tip: nat, up: Upstream) returns (won: Branch, from': nat)
    requires Inv(c, st, b, from) && (cfg.origin.Some? ==> Bootable(cfg.origin.value)) && Exact(cfg, st, tip, up)
    ensures Inv(c, Resync(c, cfg, st, tip, up).state, won, from')
    ensures LastNumber(st.chain) <= LastNumber(Resync(c, cfg, st, tip, up).state.chain)
  {
    var more, recovered;
    more, won, from', recovered := ResyncFollows(c, cfg, st, b, from, tip, up);
    EndsOn(c, st, b, from);
    EndsOn(c, Resync(c, cfg, st, tip, up).state, won, from');
    if recovered {
      assert tip > LastNumber(st.chain);
      var a := Append(c, st.chain, st.snap, tip, up.append);
      var st1 := st.(chain := a.chain, snap := a.snap);
      if i: nat :| WonByRewind(c, st1, Extend(b, more), i, tip, up, won) {
        RewindReaches(c, cfg, st, st1, Extend(b, more), i, tip, up, won);
      } else {
        ReplayReaches(cfg, st, tip, up, won);
      }
    }
  }

  /** Exact replies are needed: a rewind lowers the head precisely when its reply is shorter than the
      blocks it gave up. */
  lemma RewindLowersIff(c: Crypto, cfg: Config, st: State, b: Branch, from: nat, tip: nat, up: Upstream, err: SyncError)
    requires Inv(c, st, b, from) && Search(c, st, tip, up, |st.rollbacks|).Rewound?
    ensures var p := st.rollbacks[Search(c, st, tip, up, |st.rollbacks|).point];
            LastNumber(Recover(c, cfg, st, tip, up, err).state.chain) < LastNumber(st.chain) <==>
            |Seen(Upto(st.chain, p.number), tip, up.rewind(p.number))| < LastNumber(st.chain) - p.number
  {
    var i := Search(c, st, tip, up, |st.rollbacks|).point;
    var won, from' := RewindWins(c, st, b, from, i, tip, up);
    EndsOn(c, st, b, from);
    EndsOn(c, Recover(c, cfg, st, tip, up, err).state, won, from');
  }

  // ----- published heads never fall, given exact replies -----

  /** The heads of one sample are not above another's. */
  predicate HeadsRise(a: Gauges, b: Gauges) {
    a.tip <= b.tip && a.view.head <= b.view.head
  }

  lemma MixRises(prev: Gauges, latest: Gauges, j: nat, k: nat)
    requires j <= k
    ensures HeadsRise(prev, latest) ==> HeadsRise(Mix(prev, latest, j), Mix(prev, latest, k))
    ensures ReadRises(prev, latest) ==> ReadRises(Mix(prev, latest, j), Mix(prev, latest, k))
  {
  }

  /** What an event does to the gauges themselves. */
  lemma GaugesRise(c: Crypto, cfg: Config, m: Machine, e: Event, latest: Gauges, prev: Gauges)
    requires Coherent(m, latest, prev)
    ensures HeadsRise(prev, latest) ==> HeadsRise(m.gauges, Do(c, cfg, m, e).gauges)
    ensures ReadRises(prev, latest) ==> ReadRises(m.gauges, Do(c, cfg, m, e).gauges)
  {
    DoCoherent(c, cfg, m, e, latest, prev);
    if !Succeeds(c, cfg, m, e) {
      MixRises(prev, latest, Landed(m), Landed(Do(c, cfg, m, e)));
    }
  }

  /** The heads published so far are heads of verified blocks. */
  predicate HeadsBelow(g: Gauges, node: State) {
    g.tip <= LastNumber(node.chain) && g.view.head <= LastNumber(node.chain)
  }

  /** Quiescent, with the boot tip a verified block's number. */
  ghost predicate Started(m: Machine) {
    Quiescent(m) && HeadsBelow(m.gauges, m.node)
  }

  /** A booted node with idle workers is a start state of the theorems here, unless the boot's reply
      stopped short of the tip it publishes. */
  lemma BootStarts(
      c: Crypto, cfg: Config, cp: Checkpoint, tip: nat, up: BootReply, reply: Reply, polls: seq<Poll>, threads: seq<Thread>)
    returns (b: Branch, from: nat)
    requires Bootable(cp) && Bootstrap(c, cp, tip, cfg.maxSync, up, reply, polls).Some?
    requires forall t: nat | t < |threads| :: threads[t].Idle?
    ensures var o := Bootstrap(c, cp, tip, cfg.maxSync, up, reply, polls).value;
            var m := Machine(threads, None, o.state, BootGauges(o.state.snap, tip, o.safe));
            Quiescent(m) && Inv(c, m.node, b, from) && m.gauges.view.readHead.None? &&
            (tip <= cp.number || (reply.Headers? && |reply.headers| >= tip - cp.number) ==> Started(m))
  {
    b, from := BootHolds(c, cp, tip, cfg.maxSync, up, reply, polls);
  }

  ghost predicate ExactEvent(cfg: Config, m: Machine, e: Event) {
    e.Sync? && At(m, e.thread).Syncing? ==> Exact(cfg, m.node, At(m, e.thread).tip, e.up)
  }

  ghost predicate ExactAt(c: Crypto, cfg: Config, m: Machine, es: seq<Event>, i: nat)
    requires i < |es|
  {
    ExactEvent(cfg, Exec(c, cfg, m, es[..i]), es[i])
  }

  ghost predicate AllExact(c: Crypto, cfg: Config, m: Machine, es: seq<Event>) {
    forall i: nat | i < |es| :: ExactAt(c, cfg, m, es, i)
  }

  lemma AllExactPrefix(c: Crypto, cfg: Config, m: Machine, es: seq<Event>, n: nat)
    requires AllExact(c, cfg, m, es) && n <= |es|
    ensures AllExact(c, cfg, m, es[..n])
  {
    forall i: nat | i < n
      ensures ExactAt(c, cfg, m, es[..n], i)
    {
      assert ExactAt(c, cfg, m, es, i);
      assert es[..n][..i] == es[..i];
    }
  }

  lemma SampleHeads(st: State, heads: Heads)
    ensures Sample(st, heads).tip == LastNumber(st.chain) == Sample(st, heads).view.head
  {
  }

  lemma AfterSync(c: Crypto, cfg: Config, m: Machine, e: Event, latest: Gauges)
    requires e.Sync? && At(m, e.thread).Syncing? && HeadsBelow(latest, m.node)
    requires LastNumber(m.node.chain) <= LastNumber(SyncOf(c, cfg, m, e).state.chain)
    ensures Do(c, cfg, m, e).node == SyncOf(c, cfg, m, e).state
    ensures HeadsRise(latest, After(c, cfg, m, e, latest)) && HeadsBelow(After(c, cfg, m, e, latest), SyncOf(c, cfg, m, e).state)
  {
    var r := SyncOf(c, cfg, m, e);
    if r.result.Ok? {
      SampleHeads(r.state, r.result.value);
    }
  }

  lemma ExactStep(c: Crypto, cfg: Config, m: Machine, e: Event, latest: Gauges, b: Branch, from: nat)
    returns (b': Branch, from': nat)
    requires Inv(c, m.node, b, from) && (cfg.origin.Some? ==> Bootable(cfg.origin.value))
    requires ExactEvent(cfg, m, e) && HeadsBelow(latest, m.node)
    ensures Inv(c, Do(c, cfg, m, e).node, b', from')
    ensures HeadsRise(latest, After(c, cfg, m, e, latest)) && HeadsBelow(After(c, cfg, m, e, latest), Do(c, cfg, m, e).node)
  {
    b', from' := b, from;
    if e.Sync? && At(m, e.thread).Syncing? {
      b', from' := ResyncRaises(c, cfg, m.node, b, from, At(m, e.thread).tip, e.up);
      AfterSync(c, cfg, m, e, latest);
    }
  }

  /** In every state of every interleaving with exact replies the newest sample is not below the one
      before, and both are heads of verified blocks. */
  lemma {:induction false} SamplesRise(c: Crypto, cfg: Config, m: Machine, b: Branch, from: nat, es: seq<Event>)
    returns (b': Branch, from': nat)
    requires Started(m) && Inv(c, m.node, b, from) && AllExact(c, cfg, m, es)
    requires cfg.origin.Some? ==> Bootable(cfg.origin.value)
    ensures Inv(c, Exec(c, cfg, m, es).node, b', from')
    ensures HeadsRise(Previous(c, cfg, m, es), Latest(c, cfg, m, es)) && HeadsBelow(Latest(c, cfg, m, es), Exec(c, cfg, m, es).node)
  {
    b', from' := b, from;
    if es != [] {
      var n := |es| - 1;
      AllExactPrefix(c, cfg, m, es, n);
      b', from' := SamplesRise(c, cfg, m, b, from, es[..n]);
      assert ExactAt(c, cfg, m, es, n);
      b', from' := ExactStep(c, cfg, Exec(c, cfg, m, es[..n]), es[n], Latest(c, cfg, m, es[..n]), b', from');
    }
  }

  ghost predicate HeadsRiseAt(c: Crypto, cfg: Config, m: Machine, es: seq<Event>, k: nat)
    requires k < |es|
  {
    HeadsRise(Exec(c, cfg, m, es[..k]).gauges, Exec(c, cfg, m, es[..k + 1]).gauges)
  }

  lemma HeadsStep(c: Crypto, cfg: Config, m: Machine, b: Branch, from: nat, es: seq<Event>, k: nat)
    requires Started(m) && Inv(c, m.node, b, from) && AllExact(c, cfg, m, es) && k < |es|
    requires cfg.origin.Some? ==> Bootable(cfg.origin.value)
    ensures HeadsRiseAt(c, cfg, m, es, k)
  {
    AllExactPrefix(c, cfg, m, es, k);
    var b', from' := SamplesRise(c, cfg, m, b, from, es[..k]);
    ExecCoherent(c, cfg, m, es[..k]);
    GaugesRise(c, cfg, Exec(c, cfg, m, es[..k]), es[k], Latest(c, cfg, m, es[..k]), Previous(c, cfg, m, es[..k]));
    ExecStep(c, cfg, m, es, k);
  }

  lemma ExecStep(c: Crypto, cfg: Config, m: Machine, es: seq<Event>, k: nat)
    requires k < |es|
    ensures Exec(c, cfg, m, es[..k + 1]) == Do(c, cfg, Exec(c, cfg, m, es[..k]), es[k])
  {
    assert es[..k + 1][..k] == es[..k];
  }

  /** The gauges after each prefix of the run. */
  ghost function History(c: Crypto, cfg: Config, m: Machine, es: seq<Event>): (gs: seq<Gauges>)
    ensures |gs| == |es| + 1
  {
    seq(|es| + 1, k requires 0 <= k <= |es| => Exec(c, cfg, m, es[..k]).gauges)
  }

  ghost predicate HeadsRiseIn(gs: seq<Gauges>, k: nat)
    requires k + 1 < |gs|
  {
    HeadsRise(gs[k], gs[k + 1])
  }

  lemma {:induction false} HeadsRiseFar(gs: seq<Gauges>, i: nat, j: nat)
    requires i <= j < |gs| && forall k: nat | k + 1 < |gs| :: HeadsRiseIn(gs, k)
    ensures HeadsRise(gs[i], gs[j])
    decreases j
  {
    if i < j {
      HeadsRiseFar(gs, i, j - 1);
      assert HeadsRiseIn(gs, j - 1);
    }
  }

  /** Neither the tip gauge nor the head of the finality view ever decreases, under any interleaving,
      although tips are sampled outside the lock. */
  lemma PublishedHeadMonotone(c: Crypto, cfg: Config, m: Machine, b: Branch, from: nat, es: seq<Event>, i: nat, j: nat)
    requires Started(m) && Inv(c, m.node, b, from) && AllExact(c, cfg, m, es) && i <= j <= |es|
    requires cfg.origin.Some? ==> Bootable(cfg.origin.value)
    ensures HeadsRise(Exec(c, cfg, m, es[..i]).gauges, Exec(c, cfg, m, es[..j]).gauges)
  {
    var gs := History(c, cfg, m, es);
    forall k: nat | k + 1 < |gs|
      ensures HeadsRiseIn(gs, k)
    {
      HeadsStep(c, cfg, m, b, from, es, k);
    }
    HeadsRiseFar(gs, i, j);
  }

  // ----- the published read head never falls while nothing has to be recovered -----

  function ReadNumber(v: FinalityView): int {
    if v.readHead.Some? then v.readHead.value.number else -1
  }

  predicate ReadRises(a: Gauges, b: Gauges) {
    ReadNumber(a.view) <= ReadNumber(b.view)
  }

  predicate QuietEvent(c: Crypto, m: Machine, e: Event) {
    e.Sync? && At(m, e.thread).Syncing? ==> Served.NoRecovery(c, m.node, Call(At(m, e.thread).tip, e.up))
  }

  ghost predicate QuietAt(c: Crypto, cfg: Config, m: Machine, es: seq<Event>, i: nat)
    requires i < |es|
  {
    QuietEvent(c, Exec(c, cfg, m, es[..i]), es[i])
  }

  ghost predicate AllQuiet(c: Crypto, cfg: Config, m: Machine, es: seq<Event>) {
    forall i: nat | i < |es| :: QuietAt(c, cfg, m, es, i)
  }

  lemma AllQuietPrefix(c: Crypto, cfg: Config, m: Machine, es: seq<Event>, n: nat)
    requires AllQuiet(c, cfg, m, es) && n <= |es|
    ensures AllQuiet(c, cfg, m, es[..n])
  {
    forall i: nat | i < n
      ensures QuietAt(c, cfg, m, es[..n], i)
    {
      assert QuietAt(c, cfg, m, es, i);
      assert es[..n][..i] == es[..i];
    }
  }

  /** A state of the growing branch at which a read head was sampled. */
  datatype Origin = Origin(state: State, branch: Branch, from: nat, more: seq<Header>)

  /** The sample was taken from a state that the node has only grown from since, or at boot. */
  ghost predicate SampledFrom(c: Crypto, fast: bool, g: Gauges, o: Option<Origin>, b: Branch, from: nat) {
    if o.None? then g.view.readHead.None?
    else
      var p := o.value;
      Follows(c, p.branch, p.from, p.state.chain, p.state.snap) && p.from <= from && b == Extend(p.branch, p.more) &&
      HeadsOf(fast, p.state).Ok? && g.view.readHead == Some(HeadsOf(fast, p.state).value.read)
  }

  lemma QuietEventStep(c: Crypto, cfg: Config, m: Machine, e: Event, latest: Gauges, b: Branch, from: nat, o: Option<Origin>)
    returns (b': Branch, from': nat, o': Option<Origin>)
    requires Follows(c, b, from, m.node.chain, m.node.snap) && SampledFrom(c, cfg.fast, latest, o, b, from)
    requires QuietEvent(c, m, e)
    ensures var n := Do(c, cfg, m, e).node;
            Follows(c, b', from', n.chain, n.snap) && SampledFrom(c, cfg.fast, After(c, cfg, m, e, latest), o', b', from')
    ensures ReadRises(latest, After(c, cfg, m, e, latest))
  {
    b', from', o' := b, from, o;
    if e.Sync? && At(m, e.thread).Syncing? {
      var tip := At(m, e.thread).tip;
      var more;
      more, from' := Served.QuietStep(c, cfg, m.node, b, from, Call(tip, e.up));
      b' := Extend(b, more);
      var r := SyncOf(c, cfg, m, e);
      if o.Some? {
        ExtendTwice(o.value.branch, o.value.more, more);
        o' := Some(o.value.(more := o.value.more + more));
      }
      if r.result.Ok? {
        if o.Some? {
          var p := o'.value;
          Served.HeadNeverFalls(c, cfg.fast, p.branch, p.from, p.state, p.more, from', r.state);
        }
        ExtendNone(b');
        o' := Some(Origin(r.state, b', from', []));
      }
    }
  }

  lemma {:induction false} ReadsSampled(c: Crypto, cfg: Config, m: Machine, b: Branch, from: nat, es: seq<Event>)
    returns (b': Branch, from': nat, o: Option<Origin>)
    requires Quiescent(m) && m.gauges.view.readHead.None? && AllQuiet(c, cfg, m, es)
    requires Follows(c, b, from, m.node.chain, m.node.snap)
    ensures var n := Exec(c, cfg, m, es).node;
            Follows(c, b', from', n.chain, n.snap) && SampledFrom(c, cfg.fast, Latest(c, cfg, m, es), o, b', from')
    ensures ReadRises(Previous(c, cfg, m, es), Latest(c, cfg, m, es))
  {
    b', from', o := b, from, None;
    if es != [] {
      var n := |es| - 1;
      AllQuietPrefix(c, cfg, m, es, n);
      b', from', o := ReadsSampled(c, cfg, m, b, from, es[..n]);
      assert QuietAt(c, cfg, m, es, n);
      b', from', o := QuietEventStep(c, cfg, Exec(c, cfg, m, es[..n]), es[n], Latest(c, cfg, m, es[..n]), b', from', o);
    }
  }

  /** The read head in the published view never falls, under any interleaving and whatever the upstream
      answers, as long as no sync has to recover from a reorg: one step ... */
  lemma PublishedReadStep(c: Crypto, cfg: Config, m: Machine, b: Branch, from: nat, es: seq<Event>, k: nat)
    requires Quiescent(m) && m.gauges.view.readHead.None? && AllQuiet(c, cfg, m, es) && k < |es|
    requires Follows(c, b, from, m.node.chain, m.node.snap)
    ensures ReadRises(Exec(c, cfg, m, es[..k]).gauges, Exec(c, cfg, m, es[..k + 1]).gauges)
  {
    AllQuietPrefix(c, cfg, m, es, k);
    var b', from', o := ReadsSampled(c, cfg, m, b, from, es[..k]);
    ExecCoherent(c, cfg, m, es[..k]);
    GaugesRise(c, cfg, Exec(c, cfg, m, es[..k]), es[k], Latest(c, cfg, m, es[..k]), Previous(c, cfg, m, es[..k]));
    ExecStep(c, cfg, m, es, k);
  }

  ghost predicate ReadRisesIn(gs: seq<Gauges>, k: nat)
    requires k + 1 < |gs|
  {
    ReadRises(gs[k], gs[k + 1])
  }

  lemma {:induction false} ReadRisesFar(gs: seq<Gauges>, i: nat, j: nat)
    requires i <= j < |gs| && forall k: nat | k + 1 < |gs| :: ReadRisesIn(gs, k)
    ensures ReadRises(gs[i], gs[j])
    decreases j
  {
    if i < j {
      ReadRisesFar(gs, i, j - 1);
      assert ReadRisesIn(gs, j - 1);
    }
  }

  /** ... and any number of them. */
  lemma PublishedReadMonotone(c: Crypto, cfg: Config, m: Machine, b: Branch, from: nat, es: seq<Event>, i: nat, j: nat)
    requires Quiescent(m) && m.gauges.view.readHead.None? && AllQuiet(c, cfg, m, es) && i <= j <= |es|
    requires Follows(c, b, from, m.node.chain, m.node.snap)
    ensures ReadRises(Exec(c, cfg, m, es[..i]).gauges, Exec(c, cfg, m, es[..j]).gauges)
  {
    var gs := History(c, cfg, m, es);
    forall k: nat | k + 1 < |gs|
      ensures ReadRisesIn(gs, k)
    {
      PublishedReadStep(c, cfg, m, b, from, es, k);
    }
    ReadRisesFar(gs, i, j);
  }
}
