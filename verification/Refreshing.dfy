/** Publishing makes progress: a refresh that gets the lock ends with it free, and shows its own sync or nothing. */
module Refreshing {
  import opened Base
  import opened Vote
  import opened Sync
  import opened Node
  import opened Publish

  /** Steps of one thread alone. */
  ghost predicate Own(es: seq<Event>, t: nat) {
    forall i | 0 <= i < |es| :: es[i].thread == t
  }

  lemma {:induction false} ExecFirst(c: Crypto, cfg: Config, m: Machine, es: seq<Event>)
    requires es != []
    ensures Exec(c, cfg, m, es) == Exec(c, cfg, Do(c, cfg, m, es[0]), es[1..])
  {
    var n := |es| - 1;
    if n > 0 {
      ExecFirst(c, cfg, m, es[..n]);
      assert es[..n][1..] == es[1..][..n - 1];
    } else {
      assert es[..0] == [] && es[1..] == [];
    }
  }

  lemma {:induction false} ExecJoin(c: Crypto, cfg: Config, m: Machine, a: seq<Event>, b: seq<Event>)
    ensures Exec(c, cfg, m, a + b) == Exec(c, cfg, Exec(c, cfg, m, a), b)
  {
    if b == [] {
      assert a + b == a;
    } else {
      var n := |b| - 1;
      ExecJoin(c, cfg, m, a, b[..n]);
      assert (a + b)[..|a + b| - 1] == a + b[..n];
    }
  }

  lemma Then(c: Crypto, cfg: Config, m: Machine, e: Event, rest: seq<Event>)
    ensures Exec(c, cfg, m, [e] + rest) == Exec(c, cfg, Do(c, cfg, m, e), rest)
  {
    ExecFirst(c, cfg, m, [e] + rest);
  }

  /** Thread t has stored the first n gauges of its sample over older ones. */
  ghost predicate Half(m: Machine, t: nat, prev: Gauges, g: Gauges, n: nat) {
    t < |m.threads| && n <= 5 && m.lock == Some(t) && m.threads[t] == Storing(g, n) && m.gauges == Mix(prev, g, n)
  }

  /** What the machine is once it has stored the rest and let go. */
  function Done(m: Machine, t: nat, g: Gauges): Machine
    requires t < |m.threads|
  {
    Machine(m.threads[t := Idle], None, m.node, g)
  }

  lemma StoreStep(c: Crypto, cfg: Config, m: Machine, t: nat, prev: Gauges, g: Gauges, n: nat)
    requires Half(m, t, prev, g, n) && n < 5
    ensures var next := Do(c, cfg, m, Store(t)); Half(next, t, prev, g, n + 1) && Done(next, t, g) == Done(m, t, g)
  {
    var next := Do(c, cfg, m, Store(t));
    assert next.threads == m.threads[t := Storing(g, n + 1)];
    assert m.threads[t := Storing(g, n + 1)][t := Idle] == m.threads[t := Idle];
  }

  lemma ReleaseStep(c: Crypto, cfg: Config, m: Machine, t: nat, prev: Gauges, g: Gauges)
    requires Half(m, t, prev, g, 5)
    ensures Do(c, cfg, m, Release(t)) == Done(m, t, g)
  {
  }

  /** A thread that is storing can always finish: five gauges of one sample, and the lock is free. */
  lemma {:induction false} Finishes(c: Crypto, cfg: Config, m: Machine, t: nat, prev: Gauges, g: Gauges, n: nat) returns (es: seq<Event>)
    requires Half(m, t, prev, g, n)
    ensures Own(es, t) && Exec(c, cfg, m, es) == Done(m, t, g)
    decreases 5 - n
  {
    if n == 5 {
      es := [Release(t)];
      ReleaseStep(c, cfg, m, t, prev, g);
      Then(c, cfg, m, Release(t), []);
      assert [Release(t)] + [] == es;
    } else {
      StoreStep(c, cfg, m, t, prev, g, n);
      var rest := Finishes(c, cfg, Do(c, cfg, m, Store(t)), t, prev, g, n + 1);
      es := [Store(t)] + rest;
      Then(c, cfg, m, Store(t), rest);
    }
  }

  // ----- one refresh -----

  /** Thread t is about to sync. */
  ghost predicate Ready(m: Machine, t: nat, tip: nat) {
    t < |m.threads| && m.lock == Some(t) && m.threads[t] == Syncing(tip)
  }

  /** What a refresh leaves: the resync's state, its sample published whole or the gauges as they were. */
  function Refreshed(m: Machine, t: nat, r: Resynced): Machine
    requires t < |m.threads|
  {
    Machine(m.threads[t := Idle], None, r.state, if r.result.Ok? then Sample(r.state, r.result.value) else m.gauges)
  }

  lemma SyncTo(c: Crypto, cfg: Config, m: Machine, t: nat, tip: nat, up: Upstream, r: Resynced)
    requires Ready(m, t, tip) && r == Resync(c, cfg, m.node, tip, up)
    ensures var next := Do(c, cfg, m, Sync(t, up));
            if r.result.Ok? then Half(next, t, m.gauges, Sample(r.state, r.result.value), 0)
                                 && Done(next, t, Sample(r.state, r.result.value)) == Refreshed(m, t, r)
            else next == Refreshed(m, t, r)
  {
    if r.result.Ok? {
      var g := Sample(r.state, r.result.value);
      assert m.threads[t := Storing(g, 0)][t := Idle] == m.threads[t := Idle];
    }
  }

  /** From the lock on, a thread needs nobody: whatever the upstream answers, its own steps alone end with the lock
      free, the node where the resync leaves it, and its sample published whole or not at all. */
  lemma SyncFinishes(c: Crypto, cfg: Config, m: Machine, t: nat, tip: nat, up: Upstream) returns (es: seq<Event>)
    requires Ready(m, t, tip)
    ensures Own(es, t) && Exec(c, cfg, m, es) == Refreshed(m, t, Resync(c, cfg, m.node, tip, up))
  {
    var r := Resync(c, cfg, m.node, tip, up);
    SyncTo(c, cfg, m, t, tip, up, r);
    var next := Do(c, cfg, m, Sync(t, up));
    var rest: seq<Event> := [];
    if r.result.Ok? {
      rest := Finishes(c, cfg, next, t, m.gauges, Sample(r.state, r.result.value), 0);
    }
    es := [Sync(t, up)] + rest;
    Then(c, cfg, m, Sync(t, up), rest);
  }

  lemma Locks(c: Crypto, cfg: Config, m: Machine, t: nat, tip: nat)
    requires t < |m.threads| && m.threads[t].Idle? && m.lock.None?
    ensures var taken := Do(c, cfg, Do(c, cfg, m, SampleTip(t, tip)), Acquire(t));
            Ready(taken, t, tip) && taken.node == m.node && taken.gauges == m.gauges && taken.threads == m.threads[t := Syncing(tip)]
  {
    assert m.threads[t := Sampled(tip)][t := Syncing(tip)] == m.threads[t := Syncing(tip)];
  }

  /** A whole refresh of an idle thread with the lock free: tip, lock, sync, stores, release. */
  lemma RefreshCompletes(c: Crypto, cfg: Config, m: Machine, t: nat, tip: nat, up: Upstream) returns (es: seq<Event>)
    requires t < |m.threads| && m.threads[t].Idle? && m.lock.None?
    ensures Own(es, t)
    ensures var r := Resync(c, cfg, m.node, tip, up);
            Exec(c, cfg, m, es) ==
            Machine(m.threads, None, r.state, if r.result.Ok? then Sample(r.state, r.result.value) else m.gauges)
  {
    Locks(c, cfg, m, t, tip);
    var sampled := Do(c, cfg, m, SampleTip(t, tip));
    var taken := Do(c, cfg, sampled, Acquire(t));
    var rest := SyncFinishes(c, cfg, taken, t, tip, up);
    Then(c, cfg, sampled, Acquire(t), rest);
    Then(c, cfg, m, SampleTip(t, tip), [Acquire(t)] + rest);
    es := [SampleTip(t, tip)] + ([Acquire(t)] + rest);
    assert m.threads[t := Syncing(tip)][t := Idle] == m.threads;
  }

  // ----- nothing gets stuck -----

  lemma HolderIs(m: Machine, latest: Gauges, prev: Gauges) returns (t: nat)
    requires Coherent(m, latest, prev) && m.lock.Some?
    ensures m.lock == Some(t) && t < |m.threads|
    ensures (m.threads[t].Syncing? && Ready(m, t, m.threads[t].tip)) || Half(m, t, prev, latest, Landed(m))
  {
    t := m.lock.value;
    assert ExclusiveAt(m.threads, m.lock, t);
  }

  /** In every reachable state with the lock held, its holder can let go by itself. */
  lemma LockComesFree(c: Crypto, cfg: Config, m: Machine, es: seq<Event>, up: Upstream) returns (t: nat, more: seq<Event>)
    requires Quiescent(m) && Exec(c, cfg, m, es).lock.Some?
    ensures Exec(c, cfg, m, es).lock == Some(t) && Own(more, t) && Exec(c, cfg, m, es + more).lock.None?
  {
    var now := Exec(c, cfg, m, es);
    ExecCoherent(c, cfg, m, es);
    t := HolderIs(now, Latest(c, cfg, m, es), Previous(c, cfg, m, es));
    if now.threads[t].Syncing? {
      more := SyncFinishes(c, cfg, now, t, now.threads[t].tip, up);
    } else {
      more := Finishes(c, cfg, now, t, Previous(c, cfg, m, es), Latest(c, cfg, m, es), Landed(now));
    }
    ExecJoin(c, cfg, m, es, more);
  }
}
