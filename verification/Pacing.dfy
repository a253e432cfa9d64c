/** Block times and gas limits along the verified chain, through every append, rewind and replay. */
module Pacing {
  import opened Base
  import opened Vote
  import opened Headers
  import opened Snapshot
  import opened Finality
  import opened Sync
  import opened Engine
  import opened Node
  import Fields

  /** The shortest block interval of any fork. */
  const MIN_INTERVAL_MS: nat := 450

  /** Block i+1 passed the cascading check against block i. */
  ghost predicate PacedAt(chain: seq<Block>, i: nat)
    requires i + 1 < |chain|
  {
    var b := chain[i + 1];
    b.header.Some? && b == BlockOf(b.header.value) && CascadingOk(chain[i].milli, chain[i].gasLimit, b.header.value)
  }

  ghost predicate Paced(chain: seq<Block>) {
    forall i: nat | i + 1 < |chain| :: PacedAt(chain, i)
  }

  lemma PacedPart(chain: seq<Block>, lo: nat, hi: nat)
    requires Paced(chain) && lo <= hi <= |chain|
    ensures Paced(chain[lo..hi])
  {
    forall i: nat | i + 1 < hi - lo
      ensures PacedAt(chain[lo..hi], i)
    {
      assert PacedAt(chain, lo + i);
    }
  }

  lemma KeepPaced(chain: seq<Block>)
    requires Paced(chain)
    ensures Paced(Keep(chain))
  {
    var lo := if |chain| > KEEP then |chain| - KEEP else 0;
    PacedPart(chain, lo, |chain|);
    assert Keep(chain) == chain[lo..|chain|];
  }

  lemma UptoPaced(chain: seq<Block>, n: nat)
    requires Paced(chain)
    ensures Paced(Upto(chain, n))
  {
    UptoIsPart(chain, n);
    PacedPart(chain, 0, |Upto(chain, n)|);
    assert chain[0..|Upto(chain, n)|] == Upto(chain, n);
  }

  lemma PushPaced(chain: seq<Block>, h: Header)
    requires Paced(chain) && (chain != [] ==> CascadingOk(chain[|chain| - 1].milli, chain[|chain| - 1].gasLimit, h))
    ensures Paced(chain + [BlockOf(h)])
  {
    var longer := chain + [BlockOf(h)];
    forall i: nat | i + 1 < |longer|
      ensures PacedAt(longer, i)
    {
      if i + 1 < |chain| { assert PacedAt(chain, i); }
    }
  }

  lemma CheckedFirst(c: Crypto, chain: seq<Block>, s: Snap, h: Header)
    requires AppendOne(c, chain, s, h).error.None? && chain != []
    ensures CascadingOk(chain[|chain| - 1].milli, chain[|chain| - 1].gasLimit, h)
  {
  }

  lemma AppendOnePaced(c: Crypto, chain: seq<Block>, s: Snap, h: Header)
    requires Paced(chain)
    ensures Paced(AppendOne(c, chain, s, h).chain)
  {
    var next := AppendOneCases(c, chain, s, h);
    if AppendOne(c, chain, s, h).error.None? {
      if chain != [] { CheckedFirst(c, chain, s, h); }
      PushPaced(chain, h);
    }
  }

  lemma {:induction false} AppendAllPaced(c: Crypto, chain: seq<Block>, s: Snap, hs: seq<Header>)
    requires Paced(chain)
    ensures Paced(AppendAll(c, chain, s, hs).chain)
    decreases |hs|
  {
    if hs != [] {
      var one := AppendOne(c, chain, s, hs[0]);
      AppendOnePaced(c, chain, s, hs[0]);
      if one.error.None? {
        AppendAllPaced(c, one.chain, one.snap, hs[1..]);
      }
    }
  }

  lemma AppendPaced(c: Crypto, chain: seq<Block>, s: Snap, tip: nat, reply: Reply)
    requires Paced(chain)
    ensures Paced(Append(c, chain, s, tip, reply).chain)
  {
    if tip > LastNumber(chain) && reply.Headers? {
      AppendAllPaced(c, chain, s, reply.headers);
      KeepPaced(AppendAll(c, chain, s, reply.headers).chain);
    }
  }

  lemma WalkPaced(c: Crypto, cp: Checkpoint, to: nat, maxSync: nat, up: BootReply, reply: Reply)
    ensures Paced(Walk(c, cp, to, maxSync, up, reply).chain)
  {
    var b := Boot(c, cp, up);
    if b.Some? && reply.Headers? {
      var (first, s) := b.value;
      AppendAllPaced(c, [first], s, reply.headers);
      KeepPaced(AppendAll(c, [first], s, reply.headers).chain);
    }
  }

  lemma RecoverPaced(c: Crypto, cfg: Config, st: State, tip: nat, up: Upstream, err: SyncError)
    requires Paced(st.chain)
    ensures Paced(Recover(c, cfg, st, tip, up, err).state.chain)
  {
    var a := Search(c, st, tip, up, |st.rollbacks|);
    if a.Rewound? {
      var p := st.rollbacks[a.point];
      UptoPaced(st.chain, p.number);
      AppendPaced(c, Upto(st.chain, p.number), p, tip, up.rewind(p.number));
    } else if a.Exhausted? && cfg.origin.Some? {
      WalkPaced(c, cfg.origin.value, tip, cfg.maxSync, up.boot, up.replay);
    }
  }

  lemma ResyncPaced(c: Crypto, cfg: Config, st: State, tip: nat, up: Upstream)
    requires Paced(st.chain)
    ensures Paced(Resync(c, cfg, st, tip, up).state.chain)
  {
    var a := Append(c, st.chain, st.snap, tip, up.append);
    AppendPaced(c, st.chain, st.snap, tip, up.append);
    if a.error.Some? {
      RecoverPaced(c, cfg, st.(chain := a.chain, snap := a.snap), tip, up, a.error.value);
    }
  }

  /** Over every run of resyncs each block of the chain passed the cascading check against its own
      parent, even where a rewind joined two branches. */
  lemma {:induction false} CallsPaced(c: Crypto, cfg: Config, st: State, calls: seq<Call>)
    requires Paced(st.chain)
    ensures Paced(Calls(c, cfg, st, calls).chain)
  {
    if calls != [] {
      var n := |calls| - 1;
      CallsPaced(c, cfg, st, calls[..n]);
      ResyncPaced(c, cfg, Calls(c, cfg, st, calls[..n]), calls[n].tip, calls[n].up);
    }
  }

  // ----- what that means -----

  lemma {:induction false} GasStays(chain: seq<Block>, i: nat)
    requires Paced(chain) && i < |chain| && chain[0].gasLimit > 0
    ensures chain[i].gasLimit > 0 && (i > 0 ==> chain[i].gasLimit >= MIN_GAS_LIMIT)
  {
    if i > 0 {
      GasStays(chain, i - 1);
      assert PacedAt(chain, i - 1);
    }
  }

  /** Time cannot be compressed: k blocks take at least k times the shortest interval. */
  lemma {:induction false} MillisRise(chain: seq<Block>, i: nat, j: nat)
    requires Paced(chain) && i <= j < |chain| && chain[0].gasLimit > 0 && chain[i].milli < U64
    ensures chain[j].milli >= SatAdd(chain[i].milli, Times(j - i, MIN_INTERVAL_MS))
    decreases j
  {
    if i < j {
      MillisRise(chain, i, j - 1);
      GasStays(chain, j - 1);
      assert PacedAt(chain, j - 1);
    }
  }

  // ----- the rule in numbers -----

  /** A header that passed its field checks has its seconds in `time` and its milliseconds in the last two
      bytes of the mix digest. */
  lemma MilliSplits(h: Header)
    requires Fields.UnsealedFields(h) && h.time >= 1_745_903_100 && h.time * 1000 + 65_535 < U64
    ensures var hi: int, lo: int := h.mixHash[30], h.mixHash[31];
            MilliTimestamp(h) / 1000 == h.time && MilliTimestamp(h) % 1000 == 256 * hi + lo
  {
    var b := h.mixHash[30..];
    var hi: int, lo: int := h.mixHash[30], h.mixHash[31];
    assert b == [h.mixHash[30], h.mixHash[31]] && b[..1] == [h.mixHash[30]] && b[..1][..0] == [];
    assert FromBe(b[..1]) == hi && FromBe(b) == hi * 256 + lo;
  }

  /** A live header passes against its parent exactly when it comes 750 ms later, 450 from Fermi on, and moves
      the gas limit by less than a 1024th of the parent's, never below 5000. */
  lemma CascadingIff(parentMilli: nat, parentGas: nat, h: Header)
    requires h.time >= 1_751_250_600 && parentGas > 0 && parentMilli + 750 < U64
    ensures CascadingOk(parentMilli, parentGas, h) <==>
            MilliTimestamp(h) >= parentMilli + (if h.time >= 1_768_357_800 then 450 else 750) && h.gasLimit >= 5000 &&
            1024 * (h.gasLimit - parentGas + 1) <= parentGas && 1024 * (parentGas - h.gasLimit + 1) <= parentGas
  {
    var diff := if parentGas >= h.gasLimit then parentGas - h.gasLimit else h.gasLimit - parentGas;
    BelowQuotient(diff, parentGas);
  }

  lemma BelowQuotient(d: nat, p: nat)
    ensures d < p / 1024 <==> 1024 * (d + 1) <= p
  {
  }

  /** Consecutive blocks of a paced chain carry headers that pass the rule against each other. */
  lemma HeadersPaced(chain: seq<Block>, i: nat)
    requires Paced(chain) && i + 2 < |chain|
    ensures chain[i + 1].header.Some? && chain[i + 2].header.Some?
    ensures var p, h := chain[i + 1].header.value, chain[i + 2].header.value;
            chain[i + 1].milli == MilliTimestamp(p) && chain[i + 1].gasLimit == p.gasLimit &&
            CascadingOk(MilliTimestamp(p), p.gasLimit, h)
  {
    assert PacedAt(chain, i) && PacedAt(chain, i + 1);
  }
}
