/** What the hash of a verified block commits the client to: one block, and below it one chain and one head. */
module Committed {
  import opened Base
  import opened Vote
  import opened Headers
  import opened Snapshot
  import opened Runs
  import opened Finality
  import opened Sync
  import opened Engine
  import opened Node
  import opened HeaderHash
  import opened Lookback
  import Served

  // ----- every block is the header it was made from -----

  /** Number, hash, state root, sealer, clock and gas limit are those of a header that hashes to that hash. */
  ghost predicate GenuineAt(keccak: Hasher, chain: seq<Block>, i: nat)
    requires i < |chain|
  {
    chain[i].header.Some? && MadeOf(chain[i], chain[i].header.value) &&
    keccak(Preimage(chain[i].header.value)) == chain[i].hash.bytes
  }

  predicate MadeOf(b: Block, h: Header) {
    b.number == h.number && b.hash == h.hash && b.stateRoot == h.stateRoot && b.miner == h.miner &&
    b.milli == MilliTimestamp(h) && b.gasLimit == h.gasLimit
  }

  ghost predicate Genuine(keccak: Hasher, chain: seq<Block>) {
    forall i: nat | i < |chain| :: GenuineAt(keccak, chain, i)
  }

  lemma GenuinePart(keccak: Hasher, chain: seq<Block>, lo: nat, hi: nat)
    requires Genuine(keccak, chain) && lo <= hi <= |chain|
    ensures Genuine(keccak, chain[lo..hi])
  {
    forall i: nat | i < hi - lo
      ensures GenuineAt(keccak, chain[lo..hi], i)
    {
      assert GenuineAt(keccak, chain, lo + i);
    }
  }

  lemma KeepGenuine(keccak: Hasher, chain: seq<Block>)
    requires Genuine(keccak, chain)
    ensures Genuine(keccak, Keep(chain))
  {
    var lo := if |chain| > KEEP then |chain| - KEEP else 0;
    GenuinePart(keccak, chain, lo, |chain|);
    assert Keep(chain) == chain[lo..|chain|];
  }

  lemma UptoGenuine(keccak: Hasher, chain: seq<Block>, n: nat)
    requires Genuine(keccak, chain)
    ensures Genuine(keccak, Upto(chain, n))
  {
    UptoIsPart(chain, n);
    GenuinePart(keccak, chain, 0, |Upto(chain, n)|);
    assert chain[0..|Upto(chain, n)|] == Upto(chain, n);
  }

  lemma PushGenuine(keccak: Hasher, chain: seq<Block>, h: Header)
    requires Genuine(keccak, chain) && VerifySealCoinbase(keccak, h).Ok?
    ensures Genuine(keccak, chain + [BlockOf(h)])
  {
    var longer := chain + [BlockOf(h)];
    forall i: nat | i < |longer|
      ensures GenuineAt(keccak, longer, i)
    {
      if i < |chain| { assert GenuineAt(keccak, chain, i); }
    }
  }

  lemma AppendOneGenuine(c: Crypto, chain: seq<Block>, s: Snap, h: Header)
    requires Genuine(c.keccak, chain)
    ensures Genuine(c.keccak, AppendOne(c, chain, s, h).chain)
  {
    var next := AppendOneCases(c, chain, s, h);
    if next.Accepted? {
      AcceptFacts(c, s, h);
      PushGenuine(c.keccak, chain, h);
    }
  }

  lemma {:induction false} AppendAllGenuine(c: Crypto, chain: seq<Block>, s: Snap, hs: seq<Header>)
    requires Genuine(c.keccak, chain)
    ensures Genuine(c.keccak, AppendAll(c, chain, s, hs).chain)
    decreases |hs|
  {
    if hs != [] {
      var one := AppendOne(c, chain, s, hs[0]);
      AppendOneGenuine(c, chain, s, hs[0]);
      if one.error.None? {
        AppendAllGenuine(c, one.chain, one.snap, hs[1..]);
      }
    }
  }

  lemma AppendGenuine(c: Crypto, chain: seq<Block>, s: Snap, tip: nat, reply: Reply)
    requires Genuine(c.keccak, chain)
    ensures Genuine(c.keccak, Append(c, chain, s, tip, reply).chain)
  {
    if tip > LastNumber(chain) && reply.Headers? {
      AppendAllGenuine(c, chain, s, reply.headers);
      KeepGenuine(c.keccak, AppendAll(c, chain, s, reply.headers).chain);
    }
  }

  lemma BootGenuine(c: Crypto, cp: Checkpoint, up: BootReply)
    requires Boot(c, cp, up).Some?
    ensures Genuine(c.keccak, [Boot(c, cp, up).value.0])
  {
    var first := Boot(c, cp, up).value.0;
    assert first == BlockOf(up.header.value) && VerifySealCoinbase(c.keccak, up.header.value).Ok?;
    PushGenuine(c.keccak, [], up.header.value);
    assert [] + [first] == [first];
  }

  lemma WalkGenuine(c: Crypto, cp: Checkpoint, to: nat, maxSync: nat, up: BootReply, reply: Reply)
    ensures Genuine(c.keccak, Walk(c, cp, to, maxSync, up, reply).chain)
  {
    var b := Boot(c, cp, up);
    if b.Some? {
      BootGenuine(c, cp, up);
      var (first, s) := b.value;
      if reply.Headers? {
        AppendAllGenuine(c, [first], s, reply.headers);
        KeepGenuine(c.keccak, AppendAll(c, [first], s, reply.headers).chain);
      }
    }
  }

  lemma RecoverGenuine(c: Crypto, cfg: Config, st: State, tip: nat, up: Upstream, err: SyncError)
    requires Genuine(c.keccak, st.chain)
    ensures Genuine(c.keccak, Recover(c, cfg, st, tip, up, err).state.chain)
  {
    var a := Search(c, st, tip, up, |st.rollbacks|);
    if a.Rewound? {
      var p := st.rollbacks[a.point];
      UptoGenuine(c.keccak, st.chain, p.number);
      AppendGenuine(c, Upto(st.chain, p.number), p, tip, up.rewind(p.number));
    } else if a.Exhausted? && cfg.origin.Some? {
      WalkGenuine(c, cfg.origin.value, tip, cfg.maxSync, up.boot, up.replay);
    }
  }

  lemma ResyncGenuine(c: Crypto, cfg: Config, st: State, tip: nat, up: Upstream)
    requires Genuine(c.keccak, st.chain)
    ensures Genuine(c.keccak, Resync(c, cfg, st, tip, up).state.chain)
  {
    var a := Append(c, st.chain, st.snap, tip, up.append);
    AppendGenuine(c, st.chain, st.snap, tip, up.append);
    if a.error.Some? {
      RecoverGenuine(c, cfg, st.(chain := a.chain, snap := a.snap), tip, up, a.error.value);
    }
  }

  lemma {:induction false} CallsGenuine(c: Crypto, cfg: Config, st: State, calls: seq<Call>)
    requires Genuine(c.keccak, st.chain)
    ensures Genuine(c.keccak, Calls(c, cfg, st, calls).chain)
  {
    if calls != [] {
      var n := |calls| - 1;
      CallsGenuine(c, cfg, st, calls[..n]);
      ResyncGenuine(c, cfg, Calls(c, cfg, st, calls[..n]), calls[n].tip, calls[n].up);
    }
  }

  lemma {:induction false} WaitGenuine(c: Crypto, chain: seq<Block>, s: Snap, polls: seq<Poll>)
    requires Genuine(c.keccak, chain) && WaitForSafe(c, chain, s, polls).Some?
    ensures Genuine(c.keccak, WaitForSafe(c, chain, s, polls).value.chain)
    decreases |polls|
  {
    if NewestSafe(chain, N_SEAL).None? {
      var r := WaitStep(c, chain, s, polls);
      AppendGenuine(c, chain, s, polls[0].tip, polls[0].reply);
      WaitGenuine(c, r.chain, r.snap, polls[1..]);
    }
  }

  /** From boot on, every block the client ever holds is the header that hashes to its hash. */
  lemma BootedGenuine(
      c: Crypto, cfg: Config, cp: Checkpoint, tip: nat, up: BootReply, reply: Reply, polls: seq<Poll>, calls: seq<Call>)
    requires Bootstrap(c, cp, tip, cfg.maxSync, up, reply, polls).Some?
    ensures Genuine(c.keccak, Calls(c, cfg, Bootstrap(c, cp, tip, cfg.maxSync, up, reply, polls).value.state, calls).chain)
  {
    var r := Walk(c, cp, tip, cfg.maxSync, up, reply);
    WalkGenuine(c, cp, tip, cfg.maxSync, up, reply);
    WaitGenuine(c, r.chain, r.snap, polls);
    CallsGenuine(c, cfg, Bootstrap(c, cp, tip, cfg.maxSync, up, reply, polls).value.state, calls);
  }

  // ----- one hash, one block, one chain -----

  /** Genuine and parent-linked: every chain of every run. */
  ghost predicate Solid(keccak: Hasher, chain: seq<Block>) {
    Genuine(keccak, chain) && forall i: nat | i + 1 < |chain| :: LinkedBlocks(chain, i)
  }

  /** The same block, every field that is served or checked included. */
  predicate AlikeBlocks(x: Block, y: Block) {
    x.header.Some? && y.header.Some? && SameMandatory(x.header.value, y.header.value) &&
    SameOptional(x.header.value, y.header.value) && x.number == y.number && x.hash == y.hash &&
    x.stateRoot == y.stateRoot && x.miner == y.miner && x.milli == y.milli && x.gasLimit == y.gasLimit
  }

  /** Blocks with one hash agree on every field of their headers, the state root included, or the headers
      collide. */
  lemma OneBlockPerHash(keccak: Hasher, a: seq<Block>, b: seq<Block>, i: nat, j: nat)
    requires Genuine(keccak, a) && Genuine(keccak, b) && WindowFits(a) && i < |a| && j < |b| && a[i].hash == b[j].hash
    ensures AlikeBlocks(a[i], b[j]) || CollideAt(keccak, a, b, i, j)
  {
    assert GenuineAt(keccak, a, i) && GenuineAt(keccak, b, j) && BlockFitsAt(a, i);
    var x, y := a[i].header.value, b[j].header.value;
    PreimageIff(x, y);
    if Preimage(x) == Preimage(y) {
      SameClock(x, y);
    }
  }

  lemma SameClock(x: Header, y: Header)
    requires SameMandatory(x, y)
    ensures MilliTimestamp(x) == MilliTimestamp(y)
  {
  }

  /** k blocks below the end. */
  function FromEnd(chain: seq<Block>, k: nat): Block
    requires k < |chain|
  {
    chain[|chain| - 1 - k]
  }

  lemma ParentsAgree(keccak: Hasher, a: seq<Block>, b: seq<Block>, k: nat)
    requires Solid(keccak, a) && Solid(keccak, b) && k + 1 < |a| && k + 1 < |b| && AlikeBlocks(FromEnd(a, k), FromEnd(b, k))
    ensures FromEnd(a, k + 1).hash == FromEnd(b, k + 1).hash
  {
    assert LinkedBlocks(a, |a| - 2 - k) && LinkedBlocks(b, |b| - 2 - k);
  }

  /** From one shared tip hash the two chains agree block by block, all the way down. */
  lemma {:induction false} OneChainPerTip(keccak: Hasher, a: seq<Block>, b: seq<Block>, k: nat)
    requires Solid(keccak, a) && Solid(keccak, b) && WindowFits(a) && k < |a| && k < |b| && FromEnd(a, 0).hash == FromEnd(b, 0).hash
    ensures AlikeBlocks(FromEnd(a, k), FromEnd(b, k)) || Collision(keccak, a, b)
  {
    if k > 0 {
      OneChainPerTip(keccak, a, b, k - 1);
      if AlikeBlocks(FromEnd(a, k - 1), FromEnd(b, k - 1)) {
        ParentsAgree(keccak, a, b, k - 1);
      }
    }
    if !Collision(keccak, a, b) {
      OneBlockPerHash(keccak, a, b, |a| - 1 - k, |b| - 1 - k);
    }
  }

  // ----- one tip, one head -----

  ghost predicate AllAlike(a: seq<Block>, b: seq<Block>) {
    |a| == |b| && forall i: nat | i < |a| :: AlikeBlocks(a[i], b[i])
  }

  lemma {:induction false} TailsAlike(a: seq<Block>, b: seq<Block>, i: nat)
    requires AllAlike(a, b) && i <= |a|
    ensures Tail(a, i) == Tail(b, i)
    decreases |a| - i
  {
    if i < |a| {
      TailsAlike(a, b, i + 1);
      assert AlikeBlocks(a[i], b[i]);
    }
  }

  lemma {:induction false} PivotsAlike(a: seq<Block>, b: seq<Block>, t: nat, i: int)
    requires AllAlike(a, b) && -1 <= i < |a|
    ensures PivotFrom(a, t, i) == PivotFrom(b, t, i)
  {
    if i >= 0 {
      TailsAlike(a, b, i);
      PivotsAlike(a, b, t, i - 1);
    }
  }

  lemma SafeAlike(a: seq<Block>, b: seq<Block>, nSeal: nat)
    requires AllAlike(a, b)
    ensures NewestSafe(a, nSeal) == NewestSafe(b, nSeal)
  {
    var t := MinDistinctSealers(nSeal);
    PivotsAlike(a, b, t, |a| - 1);
    var p := Pivot(a, t);
    if p > 0 {
      TailsAlike(a, b, p);
      assert AlikeBlocks(a[p - 1], b[p - 1]);
    }
  }

  lemma LongerAgrees(keccak: Hasher, a: seq<Block>, b: seq<Block>)
    requires Solid(keccak, a) && Solid(keccak, b) && WindowFits(a) && b != [] && |a| >= |b| && FromEnd(a, 0).hash == FromEnd(b, 0).hash
    ensures AllAlike(a[|a| - |b|..], b) || Collision(keccak, a, b)
  {
    if !Collision(keccak, a, b) {
      forall i: nat | i < |b|
        ensures AlikeBlocks(a[|a| - |b|..][i], b[i])
      {
        OneChainPerTip(keccak, a, b, |b| - 1 - i);
      }
    }
  }

  lemma CollisionSwaps(keccak: Hasher, a: seq<Block>, b: seq<Block>)
    requires Collision(keccak, b, a)
    ensures Collision(keccak, a, b)
  {
    var i: nat, j: nat :| CollideAt(keccak, b, a, i, j);
    assert CollideAt(keccak, a, b, j, i);
  }

  /** Two chains that end on one block hash have one confirmation-depth head, its state root included, wherever
      both have one. */
  lemma OneSafePerTip(keccak: Hasher, a: seq<Block>, b: seq<Block>, nSeal: nat)
    requires Solid(keccak, a) && Solid(keccak, b) && WindowFits(a) && WindowFits(b) && a != [] && b != [] && FromEnd(a, 0).hash == FromEnd(b, 0).hash
    requires NewestSafe(a, nSeal).Some? && NewestSafe(b, nSeal).Some?
    ensures NewestSafe(a, nSeal) == NewestSafe(b, nSeal) || Collision(keccak, a, b)
  {
    if |a| >= |b| {
      OneSafeHere(keccak, a, b, nSeal);
    } else {
      OneSafeHere(keccak, b, a, nSeal);
      if Collision(keccak, b, a) { CollisionSwaps(keccak, a, b); }
    }
  }

  lemma OneSafeHere(keccak: Hasher, a: seq<Block>, b: seq<Block>, nSeal: nat)
    requires Solid(keccak, a) && Solid(keccak, b) && WindowFits(a) && b != [] && |a| >= |b| && FromEnd(a, 0).hash == FromEnd(b, 0).hash
    requires NewestSafe(a, nSeal).Some? && NewestSafe(b, nSeal).Some?
    ensures NewestSafe(a, nSeal) == NewestSafe(b, nSeal) || Collision(keccak, a, b)
  {
    LongerAgrees(keccak, a, b);
    if !Collision(keccak, a, b) {
      DropKeepsSafe(a, |a| - |b|, nSeal);
      SafeAlike(a[|a| - |b|..], b, nSeal);
    }
  }

  // ----- what two clients serve -----

  /** A read head is a block of the chain, hash and state root included. */
  lemma ServedBlock(fast: bool, st: State) returns (k: nat)
    requires HeadsOf(fast, st).Ok?
    ensures Served.Holds(st.chain, k, HeadsOf(fast, st).value.read)
  {
    k := Served.HeadIsLocal(fast, st);
  }

  /** Two clients of one hash function that serve one block hash serve one state root and number. */
  lemma OneRootPerHead(keccak: Hasher, fastA: bool, a: State, fastB: bool, b: State)
    requires Genuine(keccak, a.chain) && Genuine(keccak, b.chain) && WindowFits(a.chain)
    requires HeadsOf(fastA, a).Ok? && HeadsOf(fastB, b).Ok?
    requires HeadsOf(fastA, a).value.read.hash == HeadsOf(fastB, b).value.read.hash
    ensures var x, y := HeadsOf(fastA, a).value.read, HeadsOf(fastB, b).value.read;
            (x.stateRoot == y.stateRoot && x.number == y.number) || Collision(keccak, a.chain, b.chain)
  {
    var i := ServedBlock(fastA, a);
    var j := ServedBlock(fastB, b);
    OneBlockPerHash(keccak, a.chain, b.chain, i, j);
  }

  lemma {:induction false} NumbersFall(keccak: Hasher, chain: seq<Block>, k: nat)
    requires Solid(keccak, chain) && k < |chain|
    ensures FromEnd(chain, k).number + k == FromEnd(chain, 0).number
  {
    if k > 0 {
      NumbersFall(keccak, chain, k - 1);
      assert LinkedBlocks(chain, |chain| - 1 - k);
    }
  }

  /** Chains that end on one block hash have one block at each height both hold. */
  lemma OneBlockPerHeight(keccak: Hasher, a: seq<Block>, b: seq<Block>, i: nat, j: nat)
    requires Solid(keccak, a) && Solid(keccak, b) && WindowFits(a) && i < |a| && j < |b|
    requires FromEnd(a, 0).hash == FromEnd(b, 0).hash && a[i].number == b[j].number
    ensures AlikeBlocks(a[i], b[j]) || Collision(keccak, a, b)
  {
    OneChainPerTip(keccak, a, b, 0);
    NumbersFall(keccak, a, |a| - 1 - i);
    NumbersFall(keccak, b, |b| - 1 - j);
    if !Collision(keccak, a, b) {
      assert |a| - 1 - i == |b| - 1 - j;
      OneChainPerTip(keccak, a, b, |a| - 1 - i);
    }
  }

  lemma OneReadPerHeight(keccak: Hasher, fastA: bool, a: State, fastB: bool, b: State)
    requires Solid(keccak, a.chain) && Solid(keccak, b.chain) && WindowFits(a.chain) && a.chain != [] && b.chain != []
    requires HeadsOf(fastA, a).Ok? && HeadsOf(fastB, b).Ok? && FromEnd(a.chain, 0).hash == FromEnd(b.chain, 0).hash
    requires HeadsOf(fastA, a).value.read.number == HeadsOf(fastB, b).value.read.number
    ensures var x, y := HeadsOf(fastA, a).value.read, HeadsOf(fastB, b).value.read;
            (x.hash == y.hash && x.stateRoot == y.stateRoot) || Collision(keccak, a.chain, b.chain)
  {
    var i := ServedBlock(fastA, a);
    var j := ServedBlock(fastB, b);
    OneBlockPerHeight(keccak, a.chain, b.chain, i, j);
  }

  /** Any chain of any run of the client is solid. */
  lemma SoundIsSolid(keccak: Hasher, st: State)
    requires Sound(st) && Genuine(keccak, st.chain)
    ensures Solid(keccak, st.chain) && st.chain != []
  {
  }

  /** A booted client after any resyncs. */
  datatype Client = Client(
    cfg: Config, cp: Checkpoint, tip: nat, up: BootReply, reply: Reply, polls: seq<Poll>, calls: seq<Call>)

  predicate Boots(c: Crypto, n: Client) {
    Bootable(n.cp) && n.cfg.origin == Some(n.cp) && Bootstrap(c, n.cp, n.tip, n.cfg.maxSync, n.up, n.reply, n.polls).Some?
  }

  function StateOf(c: Crypto, n: Client): State
    requires Boots(c, n)
  {
    Calls(c, n.cfg, Bootstrap(c, n.cp, n.tip, n.cfg.maxSync, n.up, n.reply, n.polls).value.state, n.calls)
  }

  lemma ClientIsSolid(c: Crypto, n: Client)
    requires Boots(c, n)
    ensures Solid(c.keccak, StateOf(c, n).chain) && StateOf(c, n).chain != []
  {
    var won, from := BootedRunsAreSound(c, n.cfg, n.cp, n.tip, n.up, n.reply, n.polls, n.calls);
    BootedGenuine(c, n.cfg, n.cp, n.tip, n.up, n.reply, n.polls, n.calls);
    SoundIsSolid(c.keccak, StateOf(c, n));
  }

  /** Two clients, each booted from whatever checkpoint and fed anything: if their chains end on one block
      hash they serve one confirmation-depth block with one state root, and one block at one read height; if
      they serve one block hash they serve one state root; otherwise two of the headers they hold collide. */
  lemma OneTipOneRoot(c: Crypto, m: Client, n: Client)
    requires Boots(c, m) && Boots(c, n) && WindowFits(StateOf(c, m).chain) && WindowFits(StateOf(c, n).chain)
    requires HeadsOf(m.cfg.fast, StateOf(c, m)).Ok? && HeadsOf(n.cfg.fast, StateOf(c, n)).Ok?
    ensures var x, y := StateOf(c, m), StateOf(c, n);
            var a, b := HeadsOf(m.cfg.fast, x).value, HeadsOf(n.cfg.fast, y).value;
            x.chain != [] && y.chain != [] &&
            (Collision(c.keccak, x.chain, y.chain) ||
             ((FromEnd(x.chain, 0).hash == FromEnd(y.chain, 0).hash ==>
                 a.conf == b.conf && (a.read.number == b.read.number ==> a.read.hash == b.read.hash)) &&
              (a.read.hash == b.read.hash ==> a.read.stateRoot == b.read.stateRoot && a.read.number == b.read.number)))
  {
    ClientIsSolid(c, m);
    ClientIsSolid(c, n);
    var x, y := StateOf(c, m), StateOf(c, n);
    if FromEnd(x.chain, 0).hash == FromEnd(y.chain, 0).hash {
      OneSafePerTip(c.keccak, x.chain, y.chain, N_SEAL);
      if HeadsOf(m.cfg.fast, x).value.read.number == HeadsOf(n.cfg.fast, y).value.read.number {
        OneReadPerHeight(c.keccak, m.cfg.fast, x, n.cfg.fast, y);
      }
    }
    if HeadsOf(m.cfg.fast, x).value.read.hash == HeadsOf(n.cfg.fast, y).value.read.hash {
      OneRootPerHead(c.keccak, m.cfg.fast, x, n.cfg.fast, y);
    }
  }
}
