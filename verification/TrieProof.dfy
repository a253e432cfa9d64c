/** The builder and the walker agree: the nodes on a key's path are accepted, and say what the
    entries say. */
module TrieProof {
  import opened Base
  import opened HexPrefix
  import opened Trie
  import opened Proof
  import Rlp

  /** Nodes below t that the proof of a key must list, root side first. Inlined nodes are part of
      their parent and are not listed. */
  ghost function Path(keccak: Hasher, t: Node, nibbles: Nibbles): seq<Bytes>
    decreases t, 0
  {
    match t
    case Empty => []
    case Leaf(_, _) => []
    case Ext(path, child) => if path <= nibbles then ChildPath(keccak, child, nibbles[|path|..]) else []
    case Branch(children, _) =>
      if nibbles == [] || |children| != 16 then [] else ChildPath(keccak, children[nibbles[0]], nibbles[1..])
  }

  ghost function ChildPath(keccak: Hasher, t: Node, nibbles: Nibbles): seq<Bytes>
    decreases t, 1
  {
    if |Raw(keccak, t)| < 32 then Path(keccak, t, nibbles) else [Raw(keccak, t)] + Path(keccak, t, nibbles)
  }

  /** The whole proof of a key, root node included. */
  ghost function ProofOf(keccak: Hasher, t: Node, nibbles: Nibbles): seq<Bytes> {
    [Raw(keccak, t)] + Path(keccak, t, nibbles)
  }

  // ----- every node's encoding fits a buffer, and nests within the reader's limit -----

  /** Paths and values as a 64-bit machine can hold them. */
  const MAX_LEN: nat := 0x7fff_ffff_ffff_ffff

  ghost predicate Fits(t: Node) {
    match t
    case Empty => true
    case Leaf(path, value) => |path| <= MAX_LEN && |value| <= MAX_LEN
    case Ext(path, child) => |path| <= MAX_LEN && Fits(child)
    case Branch(children, value) => |value| <= MAX_LEN && forall i | 0 <= i < |children| :: Fits(children[i])
  }

  ghost predicate EntriesFit(input: seq<Entry>) {
    forall i | 0 <= i < |input| :: |input[i].key| <= MAX_LEN && |input[i].value| <= MAX_LEN
  }

  lemma GroupIsSlice(input: seq<Entry>, pre: nat, n: nat)
    requires Ready(input, pre)
    ensures exists s, e :: 0 <= s <= e <= |input| && Group(input, pre, n) == input[s..e]
  {
    GroupIsRun(input, pre, n);
    var s, e := Start(input, pre, n), Start(input, pre, n + 1);
    assert Group(input, pre, n) == input[s..e];
  }

  lemma GroupFits(input: seq<Entry>, pre: nat, n: nat)
    requires Ready(input, pre) && EntriesFit(input)
    ensures EntriesFit(Group(input, pre, n))
  {
    GroupIsSlice(input, pre, n);
  }

  lemma GroupSameLength(input: seq<Entry>, pre: nat, n: nat, len: nat)
    requires Ready(input, pre) && SameLength(input, len)
    ensures SameLength(Group(input, pre, n), len)
  {
    GroupIsSlice(input, pre, n);
  }

  lemma {:induction false} BuildFits(input: seq<Entry>, pre: nat)
    requires input == [] || Ready(input, pre)
    requires EntriesFit(input)
    ensures Fits(Build(input, pre))
    decreases |input|, if input == [] then 0 else |input[0].key| - pre
  {
    if |input| <= 1 {
      BuildSmall(input, pre);
    } else {
      SharedReady(input, pre);
      if SharedAll(input) > pre {
        BuildShared(input, pre);
        BuildFits(input, SharedAll(input));
      } else {
        var t := Build(input, pre);
        BranchChild(input, pre, 0);
        BranchValueFits(input, pre);
        forall n: Nibble
          ensures Fits(t.children[n])
        {
          BranchChild(input, pre, n);
          GroupShrinks(input, pre, n);
          GroupFits(input, pre, n);
          BuildFits(Group(input, pre, n), pre + 1);
        }
        FitsBranch(t);
      }
    }
  }

  lemma FitsBranch(t: Node)
    requires t.Branch? && |t.children| == 16 && |t.value| <= MAX_LEN && forall n: Nibble :: Fits(t.children[n])
    ensures Fits(t)
  {
    forall i | 0 <= i < |t.children|
      ensures Fits(t.children[i])
    {
      var n: Nibble := i;
      assert Fits(t.children[n]);
    }
  }

  lemma BranchValueFits(input: seq<Entry>, pre: nat)
    requires Ready(input, pre) && |input| > 1 && SharedAll(input) == pre && EntriesFit(input)
    ensures Build(input, pre).Branch? && |Build(input, pre).value| <= MAX_LEN
  {
  }

  lemma EncStrSize(s: Bytes)
    ensures |s| <= |Rlp.Enc(Rlp.Str(s))| <= |s| + 9
  {
  }

  lemma {:induction false} EncAllSize(items: seq<Rlp.Item>)
    requires forall i | 0 <= i < |items| :: |Rlp.Enc(items[i])| <= 33
    ensures |Rlp.EncAll(items)| <= 33 * |items|
  {
    if items != [] {
      EncAllSize(items[1..]);
    }
  }

  lemma JoinsRight(x: Bytes, y: Bytes, z: Bytes)
    ensures (x + y) + z == x + (y + z)
  {
  }

  lemma {:induction false} EncAllAppend(items: seq<Rlp.Item>, more: seq<Rlp.Item>)
    ensures Rlp.EncAll(items + more) == Rlp.EncAll(items) + Rlp.EncAll(more)
  {
    if items == [] {
      assert items + more == more;
    } else {
      var all := items + more;
      assert all[0] == items[0] && all[1..] == items[1..] + more;
      Rlp.EncAllCons(all);
      Rlp.EncAllCons(items);
      EncAllAppend(items[1..], more);
      JoinsRight(Rlp.Enc(items[0]), Rlp.EncAll(items[1..]), Rlp.EncAll(more));
    }
  }

  lemma EncAllPair(a: Rlp.Item, b: Rlp.Item)
    ensures Rlp.EncAll([a, b]) == Rlp.Enc(a) + Rlp.Enc(b)
  {
    assert [a, b][1..] == [b];
    assert [b][1..] == [];
    assert Rlp.EncAll([b]) == Rlp.Enc(b) + Rlp.EncAll([]);
  }

  function Min(a: nat, b: nat): nat { if a < b then a else b }

  lemma HashStrSize(h: Digest)
    ensures |Rlp.Enc(Rlp.Str(h))| == 33
  {
    assert |Rlp.LengthHeader(Rlp.STR_BASE, 32)| == 1;
  }

  lemma RefSize(keccak: Hasher, t: Node)
    ensures |Rlp.Enc(Ref(keccak, t))| <= 33
    ensures |Rlp.Enc(Ref(keccak, t))| >= Min(33, |Raw(keccak, t)|)
  {
    HashStrSize(keccak(Raw(keccak, t)));
  }

  ghost function Refs(keccak: Hasher, children: seq<Node>): (r: seq<Rlp.Item>)
    ensures |r| == |children|
  {
    seq(|children|, i requires 0 <= i < |children| => Ref(keccak, children[i]))
  }

  lemma BranchItem(keccak: Hasher, children: seq<Node>, value: Bytes)
    ensures ItemOf(keccak, Branch(children, value)) == Rlp.List(Refs(keccak, children) + [Rlp.Str(value)])
    ensures Rlp.EncAll(Refs(keccak, children) + [Rlp.Str(value)]) ==
            Rlp.EncAll(Refs(keccak, children)) + Rlp.EncodeBytes(value)
  {
    assert ItemOf(keccak, Branch(children, value)).items == Refs(keccak, children) + [Rlp.Str(value)];
    EncAllAppend(Refs(keccak, children), [Rlp.Str(value)]);
    assert [Rlp.Str(value)][1..] == [];
  }

  lemma RawFits(keccak: Hasher, t: Node)
    requires Fits(t) && WellFormed(t)
    ensures |Raw(keccak, t)| < U64
  {
    match t
    case Empty =>
    case Leaf(path, value) =>
      EncAllPair(Rlp.Str(Encode(path, true)), Rlp.Str(value));
      EncStrSize(Encode(path, true));
      EncStrSize(value);
    case Ext(path, child) =>
      EncAllPair(Rlp.Str(Encode(path, false)), Ref(keccak, child));
      EncStrSize(Encode(path, false));
      RefSize(keccak, child);
    case Branch(children, value) =>
      BranchItem(keccak, children, value);
      forall i | 0 <= i < 16
        ensures |Rlp.Enc(Refs(keccak, children)[i])| <= 33
      {
        RefSize(keccak, children[i]);
      }
      EncAllSize(Refs(keccak, children));
      EncStrSize(value);
  }

  lemma RefNests(keccak: Hasher, t: Node)
    ensures Rlp.Nests(Ref(keccak, t), Rlp.NODE_LEVELS - 1)
  {
    if |Raw(keccak, t)| < 32 {
      Rlp.NestsWithinSize(ItemOf(keccak, t), Rlp.NODE_LEVELS - 1);
    }
  }

  /** An inlined chain is at most 31 bytes, so the 32-list limit never refuses a built node. */
  lemma NodeNests(keccak: Hasher, t: Node)
    ensures Rlp.Nests(ItemOf(keccak, t), Rlp.NODE_LEVELS)
  {
    match t
    case Empty =>
    case Leaf(_, _) =>
    case Ext(_, child) => RefNests(keccak, child);
    case Branch(children, value) =>
      BranchItem(keccak, children, value);
      forall i | 0 <= i < |children|
        ensures Rlp.Nests(Refs(keccak, children)[i], Rlp.NODE_LEVELS - 1)
      {
        RefNests(keccak, children[i]);
      }
  }

  lemma RawDecodes(keccak: Hasher, t: Node)
    requires Fits(t) && WellFormed(t)
    ensures Rlp.DecodeTop(Raw(keccak, t), Rlp.NODE_LEVELS) == Some(ItemOf(keccak, t))
  {
    RawFits(keccak, t);
    NodeNests(keccak, t);
    Rlp.DecodeTopIff(Raw(keccak, t), Rlp.NODE_LEVELS, ItemOf(keccak, t));
  }

  // ----- the walker on an honest proof -----

  /** What the walker answers on the honest proof of a key: the trie's lookup, except that it
      refuses a key that continues past a leaf. */
  ghost function HonestAnswer(t: Node, nibbles: Nibbles): Walk {
    if Overruns(t, nibbles) then Err(KeyLeftover) else Ok(Lookup(t, nibbles))
  }

  lemma {:induction false} WalkHonest(keccak: Hasher, t: Node, nibbles: Nibbles)
    requires Fits(t) && WellFormed(t) && t != Empty
    ensures ItemOf(keccak, t).List?
    ensures WalkItems(keccak, ItemOf(keccak, t).items, Path(keccak, t, nibbles), nibbles) == HonestAnswer(t, nibbles)
    decreases t, 0
  {
    match t
    case Leaf(path, value) =>
      HexPrefix.DecodeIff(Encode(path, true), path, true);
    case Ext(path, child) =>
      HexPrefix.DecodeIff(Encode(path, false), path, false);
      if path <= nibbles {
        FollowHonest(keccak, child, nibbles[|path|..]);
      }
    case Branch(children, value) =>
      BranchItem(keccak, children, value);
      var items := Refs(keccak, children) + [Rlp.Str(value)];
      if nibbles == [] {
        assert items[16] == Rlp.Str(value);
      } else {
        assert items[nibbles[0]] == Ref(keccak, children[nibbles[0]]);
        FollowHonest(keccak, children[nibbles[0]], nibbles[1..]);
      }
  }

  lemma {:induction false} FollowHonest(keccak: Hasher, t: Node, nibbles: Nibbles)
    requires Fits(t) && WellFormed(t)
    ensures FollowChild(keccak, Ref(keccak, t), ChildPath(keccak, t, nibbles), nibbles, false) == HonestAnswer(t, nibbles)
    decreases t, 1
  {
    if t == Empty {
      assert Raw(keccak, t) == [0x80];
    } else {
      WalkHonest(keccak, t, nibbles);
      if |Raw(keccak, t)| >= 32 {
        RawDecodes(keccak, t);
        assert ChildPath(keccak, t, nibbles)[1..] == Path(keccak, t, nibbles);
      }
    }
  }

  // ----- 64-nibble keys: accounts and storage slots -----

  ghost predicate SameLength(input: seq<Entry>, n: nat) {
    forall i | 0 <= i < |input| :: |input[i].key| == n
  }

  lemma SameLengthPrefixFree(input: seq<Entry>, k: Nibbles)
    requires SameLength(input, |k|)
    ensures PrefixFree(input, k)
  {
  }

  lemma {:induction false} RootIsLarge(keccak: Hasher, input: seq<Entry>, pre: nat, n: nat)
    requires Ready(input, pre) && SameLength(input, n) && pre <= n
    ensures |Raw(keccak, Build(input, pre))| >= Min(33, (n - pre) / 2 + 2)
    decreases |input|, |input[0].key| - pre
  {
    var key := input[0].key;
    var t := Build(input, pre);
    if |input| == 1 {
      EncAllPair(Rlp.Str(Encode(t.path, true)), Rlp.Str(t.value));
      EncStrSize(Encode(t.path, true));
    } else {
      SharedReady(input, pre);
      if SharedAll(input) > pre {
        RootIsLarge(keccak, input, SharedAll(input), n);
        EncAllPair(Rlp.Str(Encode(t.path, false)), Ref(keccak, t.child));
        EncStrSize(Encode(t.path, false));
      } else {
        BranchIsLarge(keccak, input, pre, n);
      }
    }
  }

  lemma {:induction false} BranchIsLarge(keccak: Hasher, input: seq<Entry>, pre: nat, n: nat)
    requires Ready(input, pre) && SameLength(input, n) && pre <= n && |input| > 1 && SharedAll(input) == pre
    ensures |Raw(keccak, Build(input, pre))| >= Min(33, (n - pre) / 2 + 2)
    decreases |input|, |input[0].key| - pre, 0
  {
    var key := input[0].key;
    SameLengthPrefixFree(input, key);
    LongerThanBranch(input, pre, key);
    var g := Group(input, pre, key[pre]);
    GroupShrinks(input, pre, key[pre]);
    GroupSameLength(input, pre, key[pre], n);
    FirstGroup(input, pre);
    RootIsLarge(keccak, g, pre + 1, n);
    BranchChild(input, pre, key[pre]);
    BranchSize(keccak, Build(input, pre), key[pre]);
  }

  lemma FirstGroup(input: seq<Entry>, pre: nat)
    requires Ready(input, pre) && pre < |input[0].key|
    ensures Group(input, pre, input[0].key[pre]) != []
  {
    GroupIsRun(input, pre, input[0].key[pre]);
    assert Slot(input[0], pre) == input[0].key[pre];
  }

  lemma BranchSize(keccak: Hasher, t: Node, i: nat)
    requires t.Branch? && |t.children| == 16 && i < 16
    ensures |Raw(keccak, t)| >= Min(33, |Raw(keccak, t.children[i])| + 15)
  {
    BranchItem(keccak, t.children, t.value);
    BranchSpan(Refs(keccak, t.children), i);
    RefSize(keccak, t.children[i]);
  }

  /** Sixteen children encode to at least one of them plus a byte for each other. */
  lemma {:induction false} BranchSpan(items: seq<Rlp.Item>, i: nat)
    requires i < |items|
    ensures |Rlp.EncAll(items)| >= |Rlp.Enc(items[i])| + |items| - 1
  {
    if i > 0 {
      BranchSpan(items[1..], i - 1);
    } else {
      EncAllAtLeast(items[1..]);
    }
  }

  lemma {:induction false} EncAllAtLeast(items: seq<Rlp.Item>)
    ensures |Rlp.EncAll(items)| >= |items|
  {
    if items != [] {
      EncAllAtLeast(items[1..]);
    }
  }

  /** Entries that list a map in key order. */
  ghost predicate Lists(input: seq<Entry>, m: map<Nibbles, Bytes>) {
    Sorted(input) &&
    (forall i | 0 <= i < |input| :: input[i].key in m && m[input[i].key] == input[i].value) &&
    (forall k | k in m :: exists i :: 0 <= i < |input| && input[i].key == k)
  }

  ghost function MapGet(m: map<Nibbles, Bytes>, k: Nibbles): Option<Bytes> {
    if k in m then Some(m[k]) else None
  }

  lemma ListsEmpty(input: seq<Entry>, m: map<Nibbles, Bytes>)
    requires Lists(input, m)
    ensures input == [] <==> m == map[]
  {
    if input != [] { assert input[0].key in m; }
  }

  /** The root of the empty trie is the hash of one byte. The walker compares nodes under 32 bytes
      unhashed, so that byte is never an accepted proof. */
  lemma EmptyTrieRefused(keccak: Hasher, nibbles: Nibbles)
    ensures Raw(keccak, Empty) == [0x80] && ProofOf(keccak, Empty, nibbles) == [[0x80]]
    ensures VerifyNibbleProof(keccak, keccak([0x80]), nibbles, [[0x80]]) == Err(HashMismatch)
  {
  }

  lemma HonestProofWalks(keccak: Hasher, input: seq<Entry>, nibbles: Nibbles)
    requires Ready(input, 0) && EntriesFit(input)
    ensures var t := Build(input, 0);
            VerifyNibbleProof(keccak, keccak(Raw(keccak, t)), nibbles, ProofOf(keccak, t, nibbles)) ==
            if |Raw(keccak, t)| < 32 then Err(HashMismatch) else HonestAnswer(t, nibbles)
  {
    var t := Build(input, 0);
    BuildWellFormed(input, 0);
    BuildFits(input, 0);
    WalkHonest(keccak, t, nibbles);
    RawDecodes(keccak, t);
    assert ProofOf(keccak, t, nibbles)[1..] == Path(keccak, t, nibbles);
  }

  lemma MapAnswer(m: map<Nibbles, Bytes>, input: seq<Entry>, k: Nibbles)
    requires Lists(input, m) && input != [] && SameLength(input, |k|)
    ensures HonestAnswer(Build(input, 0), k) == Ok(MapGet(m, k))
  {
    SameLengthPrefixFree(input, k);
    LookupBuild(input, 0, k);
    assert k[0..] == k;
    if k in m {
      var i :| 0 <= i < |input| && input[i].key == k;
    }
  }

  /** For every map from 64-nibble keys, the builder's nodes on a key's path are an accepted proof
      against the builder's root if and only if the map is not empty, and then the answer is the
      map's: both the values and the absences. */
  lemma BuilderAndWalkerAgree(keccak: Hasher, m: map<Nibbles, Bytes>, input: seq<Entry>, hashedKey: Digest)
    requires Lists(input, m) && SameLength(input, 64) && EntriesFit(input)
    ensures var t := Build(input, 0);
            var k := BytesToNibbles(hashedKey);
            VerifyTrieProof(keccak, keccak(Raw(keccak, t)), hashedKey, ProofOf(keccak, t, k)) ==
            if m == map[] then Err(HashMismatch) else Ok(MapGet(m, k))
  {
    var k := BytesToNibbles(hashedKey);
    ListsEmpty(input, m);
    if input == [] {
      EmptyTrieRefused(keccak, k);
    } else {
      HonestProofWalks(keccak, input, k);
      RootIsLarge(keccak, input, 0, 64);
      MapAnswer(m, input, k);
    }
  }

  /** Against the empty trie's root only a collision with its one byte is ever accepted. */
  lemma EmptyRootClash(keccak: Hasher, nibbles: Nibbles, proof: seq<Bytes>)
    requires VerifyNibbleProof(keccak, keccak([0x80]), nibbles, proof).Ok?
    ensures Clash(keccak, proof, [[0x80]])
  {
    assert Collide(keccak, proof[0], [[0x80]][0]);
  }

  /** Soundness: any accepted proof against the root of a map tells the map's answer, or it holds a
      node that collides with the honest proof's node at the same position. */
  lemma AcceptedProofTellsTheMap(keccak: Hasher, m: map<Nibbles, Bytes>, input: seq<Entry>, hashedKey: Digest, proof: seq<Bytes>)
    requires Lists(input, m) && SameLength(input, 64) && EntriesFit(input)
    requires VerifyTrieProof(keccak, keccak(Raw(keccak, Build(input, 0))), hashedKey, proof).Ok?
    ensures var k := BytesToNibbles(hashedKey);
            VerifyTrieProof(keccak, keccak(Raw(keccak, Build(input, 0))), hashedKey, proof) == Ok(MapGet(m, k))
            || Clash(keccak, proof, ProofOf(keccak, Build(input, 0), k))
  {
    BuilderAndWalkerAgree(keccak, m, input, hashedKey);
    var k := BytesToNibbles(hashedKey);
    ListsEmpty(input, m);
    if input == [] {
      EmptyTrieRefused(keccak, k);
      EmptyRootClash(keccak, k, proof);
    } else {
      AcceptedProofsUnique(keccak, keccak(Raw(keccak, Build(input, 0))), hashedKey, proof, ProofOf(keccak, Build(input, 0), k));
    }
  }

  // ----- the length of the keys matters: a root node under 32 bytes is never accepted -----

  /** The builder always hashes its root; the walker compares a short node unhashed. So the honest
      proof is accepted exactly when the root node has 32 bytes and the key stops inside the trie. */
  lemma HonestProofAcceptedIff(keccak: Hasher, input: seq<Entry>, nibbles: Nibbles)
    requires (input == [] || Ready(input, 0)) && EntriesFit(input)
    ensures var t := Build(input, 0);
            VerifyNibbleProof(keccak, keccak(Raw(keccak, t)), nibbles, ProofOf(keccak, t, nibbles)).Ok?
            <==> |Raw(keccak, t)| >= 32 && !Overruns(t, nibbles)
  {
    if input == [] {
      EmptyTrieRefused(keccak, nibbles);
    } else {
      HonestProofWalks(keccak, input, nibbles);
    }
  }

  // ----- storage: the caller of the walker answers for the empty trie itself -----

  datatype StorageWord = Word(bytes: Bytes) | Refused(error: WalkError) | BadStorageLeaf

  /** `verify_storage_proof`; the empty trie's root needs no proof. */
  function VerifyStorageProof(keccak: Hasher, root: Digest, hashedSlot: Digest, proof: seq<Bytes>): StorageWord {
    if root == keccak([0x80]) then Word([])
    else match VerifyTrieProof(keccak, root, hashedSlot, proof)
      case Err(e) => Refused(e)
      case Ok(None) => Word([])
      case Ok(Some(raw)) =>
        match Rlp.DecodeTop(raw, Rlp.NODE_LEVELS)
        case Some(Str(b)) => if |b| <= 32 then Word(b) else BadStorageLeaf
        case _ => BadStorageLeaf
  }

  /** Non-zero storage words by hashed slot; a leaf holds the word's encoding. */
  ghost predicate StorageOf(m: map<Nibbles, Bytes>, words: map<Nibbles, Bytes>) {
    m.Keys == words.Keys && forall k | k in words :: |words[k]| <= 32 && m[k] == Rlp.Enc(Rlp.Str(words[k]))
  }

  ghost function WordAt(words: map<Nibbles, Bytes>, k: Nibbles): Bytes {
    if k in words then words[k] else []
  }

  /** Two byte strings the storage check itself touches have one hash. */
  ghost predicate EmptyRootCollides(keccak: Hasher, t: Node) {
    Collide(keccak, Raw(keccak, t), [0x80])
  }

  lemma LeafDecodes(w: Bytes)
    requires |w| <= 32
    ensures Rlp.DecodeTop(Rlp.Enc(Rlp.Str(w)), Rlp.NODE_LEVELS) == Some(Rlp.Str(w))
  {
    EncStrSize(w);
    Rlp.DecodeTopIff(Rlp.Enc(Rlp.Str(w)), Rlp.NODE_LEVELS, Rlp.Str(w));
  }

  lemma StorageAnswer(keccak: Hasher, root: Digest, hashedSlot: Digest, proof: seq<Bytes>, m: map<Nibbles, Bytes>, words: map<Nibbles, Bytes>)
    requires StorageOf(m, words) && root != keccak([0x80])
    requires VerifyTrieProof(keccak, root, hashedSlot, proof) == Ok(MapGet(m, BytesToNibbles(hashedSlot)))
    ensures VerifyStorageProof(keccak, root, hashedSlot, proof) == Word(WordAt(words, BytesToNibbles(hashedSlot)))
  {
    var k := BytesToNibbles(hashedSlot);
    if k in words {
      LeafDecodes(words[k]);
    }
  }

  /** Every storage map, the empty one included, is answered exactly by its honest proofs: the word of
      a set slot and the zero word of any other; the one exception is a root that collides with the
      empty trie's. */
  lemma StorageProofsAnswer(keccak: Hasher, words: map<Nibbles, Bytes>, m: map<Nibbles, Bytes>, input: seq<Entry>, hashedSlot: Digest)
    requires StorageOf(m, words) && Lists(input, m) && SameLength(input, 64) && EntriesFit(input)
    ensures var t := Build(input, 0);
            var k := BytesToNibbles(hashedSlot);
            VerifyStorageProof(keccak, keccak(Raw(keccak, t)), hashedSlot, ProofOf(keccak, t, k)) == Word(WordAt(words, k))
            || EmptyRootCollides(keccak, t)
  {
    var t := Build(input, 0);
    ListsEmpty(input, m);
    if input == [] {
      EmptyTrieRefused(keccak, []);
    } else {
      BuilderAndWalkerAgree(keccak, m, input, hashedSlot);
      RootIsLarge(keccak, input, 0, 64);
      if keccak(Raw(keccak, t)) != keccak([0x80]) {
        StorageAnswer(keccak, keccak(Raw(keccak, t)), hashedSlot, ProofOf(keccak, t, BytesToNibbles(hashedSlot)), m, words);
      }
    }
  }

  /** Storage soundness: a word any proof establishes is the map's, or two named byte strings collide. */
  lemma StorageProofsAreSound(
      keccak: Hasher, words: map<Nibbles, Bytes>, m: map<Nibbles, Bytes>, input: seq<Entry>, hashedSlot: Digest, proof: seq<Bytes>)
    requires StorageOf(m, words) && Lists(input, m) && SameLength(input, 64) && EntriesFit(input)
    ensures var t := Build(input, 0);
            var k := BytesToNibbles(hashedSlot);
            var answer := VerifyStorageProof(keccak, keccak(Raw(keccak, t)), hashedSlot, proof);
            answer.Refused? || answer == Word(WordAt(words, k)) || EmptyRootCollides(keccak, t)
            || Clash(keccak, proof, ProofOf(keccak, t, k))
  {
    var t := Build(input, 0);
    var root := keccak(Raw(keccak, t));
    ListsEmpty(input, m);
    if input == [] {
      EmptyTrieRefused(keccak, []);
    } else {
      RootIsLarge(keccak, input, 0, 64);
      if root != keccak([0x80]) && VerifyTrieProof(keccak, root, hashedSlot, proof).Ok? {
        AcceptedProofTellsTheMap(keccak, m, input, hashedSlot, proof);
        if VerifyTrieProof(keccak, root, hashedSlot, proof) == Ok(MapGet(m, BytesToNibbles(hashedSlot))) {
          StorageAnswer(keccak, root, hashedSlot, proof, m, words);
        }
      }
    }
  }

  /** A proven leaf is a word exactly when it is the encoding of at most 32 bytes; anything else is refused. */
  lemma StorageLeafIff(keccak: Hasher, root: Digest, hashedSlot: Digest, proof: seq<Bytes>, raw: Bytes, w: Bytes)
    requires root != keccak([0x80]) && VerifyTrieProof(keccak, root, hashedSlot, proof) == Ok(Some(raw)) && |raw| < U64
    ensures VerifyStorageProof(keccak, root, hashedSlot, proof) == Word(w) <==> |w| <= 32 && raw == Rlp.Enc(Rlp.Str(w))
    ensures VerifyStorageProof(keccak, root, hashedSlot, proof).Word? || VerifyStorageProof(keccak, root, hashedSlot, proof) == BadStorageLeaf
  {
    Rlp.DecodeTopIff(raw, Rlp.NODE_LEVELS, Rlp.Str(w));
  }
}
