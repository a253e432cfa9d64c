/** Transaction and receipt lists: the trie of items keyed by their RLP-coded index. */
module OrderedTrie {
  import opened Base
  import opened HexPrefix
  import opened Lex
  import opened Trie
  import opened Proof
  import opened TrieProof
  import Rlp

  const MAX_ITEMS: nat := 4096

  function Key(i: nat): Nibbles {
    BytesToNibbles(Rlp.EncodeUint(i))
  }

  function Indexed(items: seq<Bytes>): (r: seq<Entry>)
    ensures |r| == |items| && forall i | 0 <= i < |r| :: r[i] == Entry(Key(i), items[i])
  {
    seq(|items|, i requires 0 <= i < |items| => Entry(Key(i), items[i]))
  }

  // ----- sorting by key -----

  function Insert(e: Entry, s: seq<Entry>): seq<Entry> {
    if s == [] || Less(e.key, s[0].key) then [e] + s else [s[0]] + Insert(e, s[1..])
  }

  function SortByKey(s: seq<Entry>): seq<Entry> {
    if s == [] then [] else Insert(s[0], SortByKey(s[1..]))
  }

  ghost predicate DistinctKeys(s: seq<Entry>) {
    forall i, j | 0 <= i < j < |s| :: s[i].key != s[j].key
  }

  lemma {:induction false} InsertSorts(e: Entry, s: seq<Entry>)
    requires Sorted(s) && forall i | 0 <= i < |s| :: s[i].key != e.key
    ensures Sorted(Insert(e, s))
    ensures forall x :: x in Insert(e, s) <==> x == e || x in s
  {
    if s != [] && !Less(e.key, s[0].key) {
      TailSorted(s);
      InsertSorts(e, s[1..]);
      Trichotomy(e.key, s[0].key);
      forall j: nat | j < |s[1..]|
        ensures Less(s[0].key, s[1..][j].key)
      {
        assert Before(s, 0, j + 1);
      }
      ConsSorted(s[0], Insert(e, s[1..]));
    } else if s != [] {
      forall j: nat | j < |s|
        ensures Less(e.key, s[j].key)
      {
        if j > 0 {
          assert Before(s, 0, j);
          Transitive(e.key, s[0].key, s[j].key);
        }
      }
      ConsSorted(e, s);
    }
  }

  lemma TailSorted(s: seq<Entry>)
    requires Sorted(s) && s != []
    ensures Sorted(s[1..])
  {
    forall i: nat, j: nat | i < j < |s[1..]|
      ensures Before(s[1..], i, j)
    {
      assert Before(s, i + 1, j + 1);
    }
  }

  lemma ConsSorted(e: Entry, s: seq<Entry>)
    requires Sorted(s) && forall x | x in s :: Less(e.key, x.key)
    ensures Sorted([e] + s)
  {
    forall i: nat, j: nat | i < j < |s| + 1
      ensures Before([e] + s, i, j)
    {
      assert s[j - 1] in s;
      if i > 0 { assert Before(s, i - 1, j - 1); }
    }
  }

  lemma {:induction false} SortSorts(s: seq<Entry>)
    requires DistinctKeys(s)
    ensures Sorted(SortByKey(s))
    ensures forall x :: x in SortByKey(s) <==> x in s
  {
    if s != [] {
      var tail := s[1..];
      SortSorts(tail);
      var r := SortByKey(tail);
      forall i | 0 <= i < |r|
        ensures r[i].key != s[0].key
      {
        assert r[i] in r;
        var j :| 0 <= j < |tail| && tail[j] == r[i];
        assert s[j + 1] == tail[j];
      }
      InsertSorts(s[0], r);
    }
  }

  // ----- index keys -----

  /** RLP is prefix-free, so no index key continues another. */
  lemma KeysPrefixFree(i: nat, j: nat)
    requires i < U64 && j < U64 && Key(i) <= Key(j)
    ensures i == j
  {
    Pow256Is64Bits();
    BeLength(j, 8);
    BeRoundTrip(i);
    BeRoundTrip(j);
    NibblePrefix(Rlp.EncodeUint(i), Rlp.EncodeUint(j));
    EncStrSize(ToBe(j));
    Rlp.EncPrefixFree(Rlp.Str(ToBe(i)), Rlp.Str(ToBe(j)));
  }

  ghost predicate ItemsFit(items: seq<Bytes>) {
    forall i | 0 <= i < |items| :: |items[i]| <= MAX_LEN
  }

  ghost function Entries(items: seq<Bytes>): seq<Entry> {
    SortByKey(Indexed(items))
  }

  lemma IndexedDistinct(items: seq<Bytes>)
    requires |items| <= MAX_ITEMS
    ensures DistinctKeys(Indexed(items))
  {
    var ix := Indexed(items);
    forall i, j | 0 <= i < j < |ix|
      ensures ix[i].key != ix[j].key
    {
      if ix[i].key == ix[j].key { KeysPrefixFree(i, j); }
    }
  }

  lemma KeyShort(i: nat)
    requires i < U64
    ensures |Key(i)| <= 18
  {
    Pow256Is64Bits();
    BeLength(i, 8);
  }

  lemma EntryFits(items: seq<Bytes>, e: Entry) returns (j: nat)
    requires |items| <= MAX_ITEMS && e in Indexed(items)
    ensures j < |items| && e == Entry(Key(j), items[j]) && |e.key| <= 18
  {
    var ix := Indexed(items);
    j :| 0 <= j < |ix| && ix[j] == e;
    KeyShort(j);
  }

  lemma EntriesReady(items: seq<Bytes>)
    requires |items| <= MAX_ITEMS
    ensures Entries(items) == [] || Ready(Entries(items), 0)
    ensures Entries(items) == [] <==> items == []
    ensures forall x :: x in Entries(items) <==> x in Indexed(items)
    ensures ItemsFit(items) ==> EntriesFit(Entries(items))
  {
    var ix := Indexed(items);
    IndexedDistinct(items);
    SortSorts(ix);
    var e := Entries(items);
    assert items != [] ==> ix[0] in ix && ix[0] in e;
    forall i | 0 <= i < |e|
      ensures exists j :: 0 <= j < |items| && e[i] == Entry(Key(j), items[j])
      ensures |e[i].key| <= 18
    {
      assert e[i] in e;
      var j := EntryFits(items, e[i]);
    }
  }

  function Read(items: seq<Bytes>, i: nat): Option<Bytes> {
    if i < |items| then Some(items[i]) else None
  }

  lemma SameReads(xs: seq<Bytes>, ys: seq<Bytes>)
    requires |xs| <= MAX_ITEMS && |ys| <= MAX_ITEMS
    requires forall i: nat | i <= MAX_ITEMS :: Read(xs, i) == Read(ys, i)
    ensures xs == ys
  {
    assert Read(xs, |xs|) == Read(ys, |xs|) && Read(xs, |ys|) == Read(ys, |ys|);
    forall i | 0 <= i < |xs|
      ensures i < |ys| ==> xs[i] == ys[i]
    {
      assert Read(xs, i) == Read(ys, i);
    }
  }

  /** Looking an index up in the trie of a list reads the list at that index. */
  lemma LookupIndex(items: seq<Bytes>, i: nat)
    requires |items| <= MAX_ITEMS && i <= MAX_ITEMS
    requires Entries(items) == [] || Ready(Entries(items), 0)
    ensures var t := Build(Entries(items), 0);
            !Overruns(t, Key(i)) && Lookup(t, Key(i)) == Read(items, i)
  {
    EntriesReady(items);
    var ix, e := Indexed(items), Entries(items);
    forall n | 0 <= n < |e|
      ensures exists j :: 0 <= j < |items| && e[n] == Entry(Key(j), items[j])
    {
      assert e[n] in e;
      var j :| 0 <= j < |ix| && ix[j] == e[n];
    }
    forall n | 0 <= n < |e|
      ensures !(e[n].key < Key(i)) && !(Key(i) < e[n].key)
      ensures e[n].key == Key(i) ==> i < |items| && e[n].value == items[i]
    {
      var j :| 0 <= j < |items| && e[n] == Entry(Key(j), items[j]);
      if Key(j) <= Key(i) { KeysPrefixFree(j, i); }
      if Key(i) <= Key(j) { KeysPrefixFree(i, j); }
    }
    LookupBuild(e, 0, Key(i));
    assert Key(i)[0..] == Key(i);
    if i < |items| {
      assert ix[i] in ix && ix[i] in e;
    }
  }

  // ----- the root -----

  ghost function ListTrie(items: seq<Bytes>): Node
    requires |items| <= MAX_ITEMS
  {
    EntriesReady(items);
    Build(Entries(items), 0)
  }

  function Truncated(items: seq<Bytes>): seq<Bytes> {
    if |items| <= MAX_ITEMS then items else items[..MAX_ITEMS]
  }

  ghost function OrderedRoot(keccak: Hasher, items: seq<Bytes>): Digest {
    keccak(Raw(keccak, ListTrie(Truncated(items))))
  }

  /** Nodes on the path of one index, root included. */
  ghost function IndexProof(keccak: Hasher, items: seq<Bytes>, i: nat): seq<Bytes>
    requires |items| <= MAX_ITEMS
  {
    ProofOf(keccak, ListTrie(items), Key(i))
  }

  /** The first 4096 items. */
  function Capped(items: seq<Bytes>): seq<Bytes> {
    if |items| <= 4096 then items else items[..4096]
  }

  /** Item i sits at the nibbles of RLP(i), i as minimal big-endian bytes: the nodes on that path are what
      the walker accepts against the list's root, with item i for an answer, or an absence past the
      end. A root node under 32 bytes is refused, as for any trie. */
  lemma IndexAnswers(keccak: Hasher, items: seq<Bytes>, i: nat, b: Bytes)
    requires ItemsFit(items) && i <= 4096 && FromBe(b) == i && (b == [] || b[0] != 0)
    ensures var k := BytesToNibbles(Rlp.Enc(Rlp.Str(b)));
            var proof := ProofOf(keccak, ListTrie(Capped(items)), k);
            VerifyNibbleProof(keccak, OrderedRoot(keccak, items), k, proof) ==
            if |proof[0]| < 32 then Err(HashMismatch)
            else Ok(if i < |Capped(items)| then Some(Capped(items)[i]) else None)
  {
    var list := Capped(items);
    BeCanonical(b);
    assert Key(i) == BytesToNibbles(Rlp.Enc(Rlp.Str(b)));
    assert Truncated(items) == list;
    EntriesReady(list);
    LookupIndex(list, i);
    if list == [] {
      EmptyTrieRefused(keccak, Key(i));
    } else {
      HonestProofWalks(keccak, Entries(list), Key(i));
    }
  }

  lemma SameRootSameAnswer(keccak: Hasher, xs: seq<Bytes>, ys: seq<Bytes>, i: nat)
    requires |xs| <= MAX_ITEMS && |ys| <= MAX_ITEMS && ItemsFit(xs) && ItemsFit(ys) && i <= MAX_ITEMS
    requires ItemOf(keccak, ListTrie(xs)) == ItemOf(keccak, ListTrie(ys)) && xs != [] && ys != []
    ensures Read(xs, i) == Read(ys, i)
            || Clash(keccak, IndexProof(keccak, xs, i), IndexProof(keccak, ys, i))
  {
    EntriesReady(xs);
    EntriesReady(ys);
    var tx, ty, k := ListTrie(xs), ListTrie(ys), Key(i);
    BuildWellFormed(Entries(xs), 0);
    BuildWellFormed(Entries(ys), 0);
    BuildFits(Entries(xs), 0);
    BuildFits(Entries(ys), 0);
    LookupIndex(xs, i);
    LookupIndex(ys, i);
    WalkHonest(keccak, tx, k);
    WalkHonest(keccak, ty, k);
    var p, q := IndexProof(keccak, xs, i), IndexProof(keccak, ys, i);
    assert p[1..] == Path(keccak, tx, k) && q[1..] == Path(keccak, ty, k);
    WalkUnique(keccak, ItemOf(keccak, tx).items, p[1..], q[1..], k);
    if Clash(keccak, p[1..], q[1..]) {
      ClashTail(keccak, p, q);
    }
  }

  /** One root admits one list: equal roots mean equal lists, or for some index the two lists'
      own trie nodes on that index's path contain a keccak collision. */
  lemma RootCommitsToList(keccak: Hasher, xs: seq<Bytes>, ys: seq<Bytes>)
    requires |xs| <= MAX_ITEMS && |ys| <= MAX_ITEMS && ItemsFit(xs) && ItemsFit(ys)
    requires OrderedRoot(keccak, xs) == OrderedRoot(keccak, ys)
    ensures xs == ys
            || exists i | 0 <= i <= MAX_ITEMS :: Clash(keccak, IndexProof(keccak, xs, i), IndexProof(keccak, ys, i))
  {
    EntriesReady(xs);
    EntriesReady(ys);
    var tx, ty := ListTrie(xs), ListTrie(ys);
    if Raw(keccak, tx) != Raw(keccak, ty) {
      assert Collide(keccak, IndexProof(keccak, xs, 0)[0], IndexProof(keccak, ys, 0)[0]);
    } else {
      BuildWellFormed(Entries(xs), 0);
      BuildFits(Entries(xs), 0);
      RawFits(keccak, tx);
      Rlp.EncInjective(ItemOf(keccak, tx), ItemOf(keccak, ty));
      if xs != [] && ys != [] && !exists i | 0 <= i <= MAX_ITEMS :: Clash(keccak, IndexProof(keccak, xs, i), IndexProof(keccak, ys, i)) {
        forall i: nat | i <= MAX_ITEMS
          ensures Read(xs, i) == Read(ys, i)
        {
          SameRootSameAnswer(keccak, xs, ys, i);
        }
        SameReads(xs, ys);
      }
    }
  }

  datatype TxListResult = TooMany | RootMismatch | Hashes(hashes: seq<Digest>)

  ghost function VerifyTxList(keccak: Hasher, raws: seq<Bytes>, root: Digest): TxListResult {
    if |raws| > MAX_ITEMS then TooMany
    else if OrderedRoot(keccak, raws) != root then RootMismatch
    else Hashes(seq(|raws|, i requires 0 <= i < |raws| => keccak(raws[i])))
  }

  /** A list is bound to a root exactly when it has at most 4096 items and that root, and then every item
      is answered by its own hash, in order. */
  lemma TxListIff(keccak: Hasher, raws: seq<Bytes>, root: Digest, hashes: seq<Digest>)
    ensures VerifyTxList(keccak, raws, root) == Hashes(hashes)
            <==> |raws| <= 4096 && OrderedRoot(keccak, raws) == root && |hashes| == |raws|
                 && forall i | 0 <= i < |raws| :: hashes[i] == keccak(raws[i])
  {
    if |hashes| == |raws| && forall i | 0 <= i < |raws| :: hashes[i] == keccak(raws[i]) {
      assert hashes == seq(|raws|, i requires 0 <= i < |raws| => keccak(raws[i]));
    }
  }

  /** A sealed transactions root admits one transaction list, of any length the upstream offers. */
  lemma OneListPerRoot(keccak: Hasher, xs: seq<Bytes>, ys: seq<Bytes>, root: Digest)
    requires ItemsFit(xs) && ItemsFit(ys)
    requires VerifyTxList(keccak, xs, root).Hashes? && VerifyTxList(keccak, ys, root).Hashes?
    ensures |xs| <= MAX_ITEMS && |ys| <= MAX_ITEMS
    ensures xs == ys
            || exists i | 0 <= i <= MAX_ITEMS :: Clash(keccak, IndexProof(keccak, xs, i), IndexProof(keccak, ys, i))
  {
    RootCommitsToList(keccak, xs, ys);
  }

  // ----- the builder as the source runs it -----

  lemma StartOfBranch(input: seq<Entry>, pre: nat)
    requires Ready(input, pre) && |input| > 1
    ensures forall i | 0 <= i < |input| :: pre <= |input[i].key|
    ensures Start(input, pre, 0) == if |input[0].key| == pre then 1 else 0
    ensures Start(input, pre, 16) == |input|
  {
    GroupIsRun(input, pre, -1);
    assert Start(input, pre, -1) == 0;
    assert Before(input, 0, 1) && input[0].key[..pre] <= input[1].key;
    if |input[0].key| == pre {
      SharedIs(input[0].key, input[1].key, pre);
    }
  }

  lemma SharedStep(input: seq<Entry>, i: nat)
    requires 0 < i < |input|
    ensures SharedAll(input[..i + 1]) == Min(SharedAll(input[..i]), SharedPrefixLen(input[0].key, input[i].key))
  {
    assert input[..i + 1][..i] == input[..i];
  }

  method SharedLoop(input: seq<Entry>) returns (shared: nat)
    requires input != []
    ensures shared == SharedAll(input)
  {
    var key := input[0].key;
    shared := |key|;
    for i := 1 to |input|
      invariant shared == SharedAll(input[..i])
    {
      var m := SharedPrefixLen(key, input[i].key);
      SharedStep(input, i);
      if m < shared { shared := m; }
    }
    assert input[..|input|] == input;
  }

  /** `encode_node`: the recursive builder with its 16-way splitting loop. Every index it reads is
      inside its key, and the bytes are the encoding of the abstract trie. */
  method EncodeNode(keccak: Hasher, input: seq<Entry>, pre: nat) returns (out: Bytes)
    requires input == [] || Ready(input, pre)
    ensures out == Raw(keccak, Build(input, pre))
    decreases |input|, if input == [] then 0 else 1 + |input[0].key| - pre, 1
  {
    if input == [] {
      return Rlp.EncodeBytes([]);
    }
    var key := input[0].key;
    if |input| == 1 {
      var hp := EncodeLoop(key[pre..], true);
      PairEncodes(Rlp.Str(hp), Rlp.Str(input[0].value));
      return Rlp.EncodeList([Rlp.EncodeBytes(hp), Rlp.EncodeBytes(input[0].value)]);
    }
    var shared := SharedLoop(input);
    SharedReady(input, pre);
    if shared > pre {
      var hp := EncodeLoop(key[pre..shared], false);
      var child := EncodeNode(keccak, input, shared);
      PairEncodes(Rlp.Str(hp), Ref(keccak, Build(input, shared)));
      return Rlp.EncodeList([Rlp.EncodeBytes(hp), ChildRef(keccak, child)]);
    }
    ghost var slots := BranchShape(keccak, input, pre);
    var children := EncodeSlots(keccak, input, pre, slots);
    return Rlp.EncodeList(children + [Rlp.EncodeBytes(if |key| == pre then input[0].value else [])]);
  }

  lemma PairEncodes(a: Rlp.Item, b: Rlp.Item)
    ensures Rlp.EncodeList([Rlp.Enc(a), Rlp.Enc(b)]) == Rlp.Enc(Rlp.List([a, b]))
  {
    Rlp.ConcatIsEncAll([a, b], [Rlp.Enc(a), Rlp.Enc(b)]);
  }

  /** The encoded slot of one nibble in the branch over these entries. */
  ghost predicate SlotIs(keccak: Hasher, input: seq<Entry>, pre: nat, slots: seq<Bytes>, n: Nibble)
    requires Ready(input, pre) && |slots| == 16
  {
    slots[n] == Rlp.Enc(Ref(keccak, Build(Group(input, pre, n), pre + 1)))
  }

  /** The 16-way split: each run of one nibble becomes that slot of the branch. */
  method EncodeSlots(keccak: Hasher, input: seq<Entry>, pre: nat, ghost slots: seq<Bytes>) returns (children: seq<Bytes>)
    requires Ready(input, pre) && |input| > 1 && SharedAll(input) == pre
    requires |slots| == 16 && forall n: Nibble :: SlotIs(keccak, input, pre, slots, n)
    ensures children == slots
    decreases |input|, 0, 1
  {
    children := [];
    var begin := if pre == |input[0].key| then 1 else 0;
    StartOfBranch(input, pre);
    for nibble := 0 to 16
      invariant begin == Start(input, pre, nibble)
      invariant children == slots[..nibble]
    {
      var slot, len := EncodeSlot(keccak, input, pre, begin, nibble, slots);
      children := children + [slot];
      begin := begin + len;
    }
  }

  lemma BranchShape(keccak: Hasher, input: seq<Entry>, pre: nat) returns (slots: seq<Bytes>)
    requires Ready(input, pre) && |input| > 1 && SharedAll(input) == pre
    ensures |slots| == 16 && forall n: Nibble :: SlotIs(keccak, input, pre, slots, n)
    ensures Rlp.EncodeList(slots + [Rlp.EncodeBytes(if |input[0].key| == pre then input[0].value else [])])
            == Raw(keccak, Build(input, pre))
  {
    var t := Build(input, pre);
    assert t.Branch? && t.value == if |input[0].key| == pre then input[0].value else [];
    BranchChild(input, pre, 0);
    slots := seq(16, n requires 0 <= n < 16 => Rlp.Enc(Ref(keccak, t.children[n])));
    forall n: Nibble
      ensures SlotIs(keccak, input, pre, slots, n)
    {
      BranchChild(input, pre, n);
    }
    BranchEncodes(keccak, t, slots);
  }

  lemma BranchEncodes(keccak: Hasher, t: Node, children: seq<Bytes>)
    requires t.Branch? && |children| == |t.children|
    requires forall n | 0 <= n < |children| :: children[n] == Rlp.Enc(Ref(keccak, t.children[n]))
    ensures Rlp.EncodeList(children + [Rlp.EncodeBytes(t.value)]) == Raw(keccak, t)
  {
    BranchItem(keccak, t.children, t.value);
    Rlp.ConcatIsEncAll(Refs(keccak, t.children) + [Rlp.Str(t.value)], children + [Rlp.EncodeBytes(t.value)]);
  }

  method EncodeSlot(keccak: Hasher, input: seq<Entry>, pre: nat, begin: nat, nibble: Nibble, ghost slots: seq<Bytes>)
    returns (slot: Bytes, len: nat)
    requires Ready(input, pre) && |input| > 1 && SharedAll(input) == pre
    requires forall i | 0 <= i < |input| :: pre <= |input[i].key|
    requires begin == Start(input, pre, nibble)
    requires |slots| == 16 && SlotIs(keccak, input, pre, slots, nibble)
    ensures begin + len == Start(input, pre, nibble + 1)
    ensures slot == slots[nibble]
    decreases |input|, 0, 0
  {
    len := RunLength(input, pre, begin, nibble);
    GroupShrinks(input, pre, nibble);
    slot := EncodeChild(keccak, input[begin..begin + len], pre + 1);
  }

  /** One slot of a branch: empty, inlined or hashed. */
  method EncodeChild(keccak: Hasher, run: seq<Entry>, pre: nat) returns (slot: Bytes)
    requires run == [] || Ready(run, pre)
    ensures slot == Rlp.Enc(Ref(keccak, Build(run, pre)))
    decreases |run|, if run == [] then 0 else 1 + |run[0].key| - pre, 2
  {
    if |run| == 0 {
      return Rlp.EncodeBytes([]);
    }
    var child := EncodeNode(keccak, run, pre);
    return ChildRef(keccak, child);
  }

  /** The `take_while` of one nibble, from where the previous nibble stopped. */
  method RunLength(input: seq<Entry>, pre: nat, begin: nat, nibble: Nibble) returns (len: nat)
    requires Ready(input, pre) && forall i | 0 <= i < |input| :: pre <= |input[i].key|
    requires begin == Start(input, pre, nibble)
    ensures begin + len == Start(input, pre, nibble + 1)
    ensures Group(input, pre, nibble) == input[begin..begin + len]
  {
    StartBounds(input, pre, nibble);
    StartBounds(input, pre, nibble + 1);
    ghost var end := Start(input, pre, nibble + 1);
    len := 0;
    while begin + len < |input| && input[begin + len].key[pre] == nibble
      invariant begin + len <= end
      invariant forall i | begin <= i < |input| :: pre < |input[i].key|
    {
      assert Slot(input[begin + len], pre) == nibble;
      len := len + 1;
    }
    assert begin + len < |input| ==> Slot(input[begin + len], pre) != nibble;
  }

  /** `ordered_trie_root`, with the library sort as `SortByKey`. */
  method OrderedTrieRoot(keccak: Hasher, items: seq<Bytes>) returns (root: Digest)
    ensures root == OrderedRoot(keccak, items)
  {
    var kept := Truncated(items);
    EntriesReady(kept);
    var pairs := SortByKey(Indexed(kept));
    var node := EncodeNode(keccak, pairs, 0);
    root := keccak(node);
  }

  /** `verify_tx_list`: bind first, then hash item by item. */
  method BindTxList(keccak: Hasher, raws: seq<Bytes>, root: Digest) returns (r: TxListResult)
    ensures r == VerifyTxList(keccak, raws, root)
  {
    if |raws| > MAX_ITEMS {
      return TooMany;
    }
    var got := OrderedTrieRoot(keccak, raws);
    if got != root {
      return RootMismatch;
    }
    var hashes: seq<Digest> := [];
    for i := 0 to |raws|
      invariant |hashes| == i && forall j | 0 <= j < i :: hashes[j] == keccak(raws[j])
    {
      hashes := hashes + [keccak(raws[i])];
    }
    TxListIff(keccak, raws, root, hashes);
    return Hashes(hashes);
  }
}
