/** The ordered Patricia trie builder (Appendix D of the Ethereum Yellow Paper), and the abstract
    trie its byte encoding stands for. */
module Trie {
  import opened Base
  import opened HexPrefix
  import opened Lex
  import Rlp

  datatype Entry = Entry(key: Nibbles, value: Bytes)

  datatype Node =
    | Empty
    | Leaf(path: Nibbles, value: Bytes)
    | Ext(path: Nibbles, child: Node)
    | Branch(children: seq<Node>, value: Bytes)

  // ----- what a node encodes to -----

  ghost function ItemOf(keccak: Hasher, t: Node): Rlp.Item
    decreases t, 0
  {
    match t
    case Empty => Rlp.Str([])
    case Leaf(path, value) => Rlp.List([Rlp.Str(Encode(path, true)), Rlp.Str(value)])
    case Ext(path, child) => Rlp.List([Rlp.Str(Encode(path, false)), Ref(keccak, child)])
    case Branch(children, value) =>
      Rlp.List(seq(|children|, i requires 0 <= i < |children| => Ref(keccak, children[i])) + [Rlp.Str(value)])
  }

  ghost function Raw(keccak: Hasher, t: Node): Bytes
    decreases t, 1
  {
    Rlp.Enc(ItemOf(keccak, t))
  }

  /** Under 32 bytes a node is inlined, otherwise its parent holds its hash. */
  ghost function Ref(keccak: Hasher, t: Node): Rlp.Item
    decreases t, 2
  {
    if |Raw(keccak, t)| < 32 then ItemOf(keccak, t) else Rlp.Str(keccak(Raw(keccak, t)))
  }

  /** `child_ref` on bytes is `Ref` on items. */
  function ChildRef(keccak: Hasher, encoded: Bytes): Bytes {
    if |encoded| < 32 then encoded else Rlp.EncodeBytes(keccak(encoded))
  }

  // ----- the trie a sorted list of entries stands for -----

  ghost predicate Before(input: seq<Entry>, i: nat, j: nat)
    requires i < |input| && j < |input|
  {
    Less(input[i].key, input[j].key)
  }

  ghost predicate Sorted(input: seq<Entry>) {
    forall i: nat, j: nat | i < j < |input| :: Before(input, i, j)
  }

  /** What `encode_node` is called with: sorted entries that agree on the first `pre` nibbles. */
  ghost predicate Ready(input: seq<Entry>, pre: nat) {
    input != [] && Sorted(input) && pre <= |input[0].key| &&
    forall i | 0 <= i < |input| :: input[0].key[..pre] <= input[i].key
  }

  function Slot(e: Entry, pre: nat): int
    requires pre <= |e.key|
  {
    if |e.key| == pre then -1 else e.key[pre]
  }

  /** Number of leading entries whose slot is below n. */
  ghost function Start(input: seq<Entry>, pre: nat, n: int): (s: nat)
    requires forall i | 0 <= i < |input| :: pre <= |input[i].key|
    ensures s <= |input| && forall i | 0 <= i < s :: Slot(input[i], pre) < n
    ensures s < |input| ==> Slot(input[s], pre) >= n
  {
    if input == [] || Slot(input[0], pre) >= n then 0 else 1 + Start(input[1..], pre, n)
  }

  lemma SlotsRise(input: seq<Entry>, pre: nat, i: nat, j: nat)
    requires Ready(input, pre) && i <= j < |input|
    ensures pre <= |input[i].key| && pre <= |input[j].key|
    ensures Slot(input[i], pre) <= Slot(input[j], pre)
  {
    if i < j {
      var a, b := input[i].key, input[j].key;
      assert input[0].key[..pre] <= a && input[0].key[..pre] <= b;
      SharedIsLongest(a, b, pre);
      var n := SharedPrefixLen(a, b);
      assert Before(input, i, j);
      if pre < n {
        assert a[pre] == a[..n][pre] == b[..n][pre] == b[pre];
      }
    }
  }

  /** Entries of one nibble: a contiguous run, because the slots rise. */
  ghost function Group(input: seq<Entry>, pre: nat, n: nat): (g: seq<Entry>)
    requires Ready(input, pre)
    ensures g == [] || Ready(g, pre + 1)
  {
    GroupIsRun(input, pre, n);
    GroupReady(input, pre, n);
    input[Start(input, pre, n)..Start(input, pre, n + 1)]
  }

  lemma StartBounds(input: seq<Entry>, pre: nat, n: int)
    requires Ready(input, pre)
    ensures forall i | 0 <= i < |input| :: pre <= |input[i].key|
    ensures forall i | Start(input, pre, n) <= i < |input| :: Slot(input[i], pre) >= n
  {
    var s := Start(input, pre, n);
    forall i | s <= i < |input|
      ensures pre <= |input[i].key| && Slot(input[i], pre) >= n
    {
      SlotsRise(input, pre, s, i);
    }
  }

  lemma GroupIsRun(input: seq<Entry>, pre: nat, n: int)
    requires Ready(input, pre)
    ensures forall i | 0 <= i < |input| :: pre <= |input[i].key|
    ensures var s, e := Start(input, pre, n), Start(input, pre, n + 1);
            s <= e && (forall i | 0 <= i < |input| :: s <= i < e <==> Slot(input[i], pre) == n)
  {
    StartBounds(input, pre, n);
    StartBounds(input, pre, n + 1);
  }

  lemma SliceSorted(input: seq<Entry>, s: nat, e: nat)
    requires Sorted(input) && s <= e <= |input|
    ensures Sorted(input[s..e])
  {
    forall i: nat, j: nat | i < j < e - s
      ensures Before(input[s..e], i, j)
    {
      assert Before(input, s + i, s + j);
    }
  }

  lemma SlotExtends(input: seq<Entry>, pre: nat, i: nat, n: nat)
    requires Ready(input, pre) && i < |input| && pre <= |input[i].key| && Slot(input[i], pre) == n
    ensures pre < |input[i].key| && input[i].key[..pre + 1] == input[0].key[..pre] + [n]
  {
    assert input[0].key[..pre] <= input[i].key;
  }

  lemma GroupReady(input: seq<Entry>, pre: nat, n: nat)
    requires Ready(input, pre)
    requires forall i | 0 <= i < |input| :: pre <= |input[i].key|
    ensures var s, e := Start(input, pre, n), Start(input, pre, n + 1);
            s < e ==> Ready(input[s..e], pre + 1)
  {
    GroupIsRun(input, pre, n);
    var s, e := Start(input, pre, n), Start(input, pre, n + 1);
    SliceSorted(input, s, e);
    forall i: nat | s <= i < e
      ensures pre < |input[i].key| && input[i].key[..pre + 1] == input[0].key[..pre] + [n]
    {
      SlotExtends(input, pre, i, n);
    }
  }

  /** Nibbles that every key shares with the first. */
  function SharedAll(input: seq<Entry>): (n: nat)
    requires input != []
    ensures n <= |input[0].key|
  {
    var last := |input| - 1;
    if last == 0 then |input[0].key|
    else
      var n := SharedAll(input[..last]);
      var m := SharedPrefixLen(input[0].key, input[last].key);
      if m < n then m else n
  }

  lemma {:induction false} SharedAllIsLeast(input: seq<Entry>)
    requires input != []
    ensures forall i | 0 <= i < |input| :: SharedAll(input) <= SharedPrefixLen(input[0].key, input[i].key)
    ensures SharedAll(input) == |input[0].key|
            || exists i :: 0 < i < |input| && SharedPrefixLen(input[0].key, input[i].key) == SharedAll(input)
  {
    var last := |input| - 1;
    SharedIs(input[0].key, input[0].key, |input[0].key|);
    if last > 0 {
      var init := input[..last];
      SharedAllIsLeast(init);
      assert forall i | 0 <= i < last :: init[i] == input[i];
    }
  }

  lemma SharedReady(input: seq<Entry>, pre: nat)
    requires Ready(input, pre)
    ensures pre <= SharedAll(input) && Ready(input, SharedAll(input))
  {
    SharedAllIsLeast(input);
    var n := SharedAll(input);
    var k := input[0].key;
    forall i | 0 <= i < |input|
      ensures pre <= SharedPrefixLen(k, input[i].key) && k[..n] <= input[i].key
    {
      SharedIsLongest(k, input[i].key, pre);
      var m := SharedPrefixLen(k, input[i].key);
      assert k[..n] == k[..m][..n] == input[i].key[..m][..n];
    }
  }

  /** With nothing more shared, no nibble keeps all the entries: the split makes progress. */
  lemma GroupShrinks(input: seq<Entry>, pre: nat, n: nat)
    requires Ready(input, pre) && |input| > 1 && SharedAll(input) == pre
    ensures |Group(input, pre, n)| < |input|
  {
    GroupIsRun(input, pre, n);
    SharedAllIsLeast(input);
    if |input[0].key| != pre {
      var i :| 0 < i < |input| && SharedPrefixLen(input[0].key, input[i].key) == pre;
      assert Slot(input[0], pre) != Slot(input[i], pre);
    }
  }

  ghost function Build(input: seq<Entry>, pre: nat): Node
    requires input == [] || Ready(input, pre)
    decreases |input|, if input == [] then 0 else |input[0].key| - pre
  {
    if input == [] then Empty
    else
      var key := input[0].key;
      if |input| == 1 then Leaf(key[pre..], input[0].value)
      else
        var shared := SharedAll(input);
        SharedReady(input, pre);
        if shared > pre then Ext(key[pre..shared], Build(input, shared))
        else
          Branch(seq(16, n requires 0 <= n < 16 => GroupShrinks(input, pre, n); Build(Group(input, pre, n), pre + 1)),
                 if |key| == pre then input[0].value else [])
  }

  // ----- lookup, and the honest proof -----

  ghost function Lookup(t: Node, nibbles: Nibbles): Option<Bytes> {
    match t
    case Empty => None
    case Leaf(path, value) => if path == nibbles then Some(value) else None
    case Ext(path, child) => if path <= nibbles then Lookup(child, nibbles[|path|..]) else None
    case Branch(children, value) =>
      if nibbles == [] then (if value == [] then None else Some(value))
      else if |children| == 16 then Lookup(children[nibbles[0]], nibbles[1..])
      else None
  }

  /** The key continues past a leaf: the one case a walker refuses instead of excluding. */
  ghost predicate Overruns(t: Node, nibbles: Nibbles) {
    match t
    case Empty => false
    case Leaf(path, _) => path < nibbles
    case Ext(path, child) => path <= nibbles && Overruns(child, nibbles[|path|..])
    case Branch(children, _) => nibbles != [] && |children| == 16 && Overruns(children[nibbles[0]], nibbles[1..])
  }

  ghost predicate WellFormed(t: Node) {
    match t
    case Empty => true
    case Leaf(_, _) => true
    case Ext(_, child) => child.Branch? && WellFormed(child)
    case Branch(children, _) => |children| == 16 && forall i | 0 <= i < 16 :: WellFormed(children[i])
  }

  /** Answer a map of entries gives for k. */
  ghost predicate Answers(input: seq<Entry>, k: Nibbles, r: Option<Bytes>) {
    (forall i | 0 <= i < |input| && input[i].key == k :: r == Some(input[i].value)) &&
    (r.Some? ==> exists i :: 0 <= i < |input| && input[i].key == k)
  }

  /** No key continues another: true of 64-nibble keys and of RLP-coded indices. */
  ghost predicate PrefixFree(input: seq<Entry>, k: Nibbles) {
    forall i | 0 <= i < |input| :: !(input[i].key < k) && !(k < input[i].key)
  }

  lemma BranchChild(input: seq<Entry>, pre: nat, n: Nibble)
    requires Ready(input, pre) && |input| > 1 && SharedAll(input) == pre
    ensures var t := Build(input, pre);
            t.Branch? && |t.children| == 16 && t.children[n] == Build(Group(input, pre, n), pre + 1)
  {
    GroupShrinks(input, pre, n);
  }

  lemma BuildShared(input: seq<Entry>, pre: nat)
    requires Ready(input, pre) && |input| > 1 && SharedAll(input) > pre
    ensures Ready(input, SharedAll(input))
    ensures Build(input, pre) == Ext(input[0].key[pre..SharedAll(input)], Build(input, SharedAll(input)))
  {
    SharedReady(input, pre);
  }

  lemma BuildSmall(input: seq<Entry>, pre: nat)
    requires input == [] || (Ready(input, pre) && |input| == 1)
    ensures Build(input, pre) == if input == [] then Empty else Leaf(input[0].key[pre..], input[0].value)
  {
  }

  lemma {:induction false} BuildWellFormed(input: seq<Entry>, pre: nat)
    requires input == [] || Ready(input, pre)
    ensures WellFormed(Build(input, pre))
    ensures |input| > 1 && SharedAll(input) == pre ==> Build(input, pre).Branch?
    decreases |input|, if input == [] then 0 else |input[0].key| - pre
  {
    if |input| <= 1 {
      BuildSmall(input, pre);
    } else {
      SharedReady(input, pre);
      if SharedAll(input) > pre {
        BuildShared(input, pre);
        BuildWellFormed(input, SharedAll(input));
      } else {
        BranchChild(input, pre, 0);
        forall n: Nibble
          ensures WellFormed(Build(input, pre).children[n])
        {
          BranchChild(input, pre, n);
          GroupShrinks(input, pre, n);
          BuildWellFormed(Group(input, pre, n), pre + 1);
        }
      }
    }
  }

  /** The built trie answers exactly as the entries do. */
  lemma {:induction false} LookupBuild(input: seq<Entry>, pre: nat, k: Nibbles)
    requires input == [] || (Ready(input, pre) && input[0].key[..pre] <= k)
    requires pre <= |k| && PrefixFree(input, k)
    ensures Answers(input, k, Lookup(Build(input, pre), k[pre..]))
    ensures !Overruns(Build(input, pre), k[pre..])
    decreases |input|, if input == [] then 0 else |input[0].key| - pre
  {
    if |input| == 1 {
      var key := input[0].key;
      assert key == key[..pre] + key[pre..] && k == key[..pre] + k[pre..];
    } else if |input| > 1 {
      SharedReady(input, pre);
      if SharedAll(input) > pre {
        LookupExt(input, pre, k);
      } else {
        LookupBranch(input, pre, k);
      }
    }
  }

  lemma {:induction false} LookupExt(input: seq<Entry>, pre: nat, k: Nibbles)
    requires Ready(input, pre) && input[0].key[..pre] <= k && |input| > 1 && SharedAll(input) > pre
    requires pre <= |k| && PrefixFree(input, k)
    ensures Answers(input, k, Lookup(Build(input, pre), k[pre..]))
    ensures !Overruns(Build(input, pre), k[pre..])
    decreases |input|, |input[0].key| - pre, 0
  {
    var shared, key := SharedAll(input), input[0].key;
    SharedReady(input, pre);
    var path := key[pre..shared];
    PathSplits(key, k, pre, shared);
    if path <= k[pre..] {
      LookupBuild(input, shared, k);
      assert k[pre..][|path|..] == k[shared..];
    } else {
      assert forall i | 0 <= i < |input| :: key[..shared] <= input[i].key;
    }
  }

  lemma PathSplits(key: Nibbles, k: Nibbles, pre: nat, shared: nat)
    requires pre <= shared <= |key| && key[..pre] <= k
    ensures key[pre..shared] <= k[pre..] <==> key[..shared] <= k
  {
    var path := key[pre..shared];
    assert key[..shared] == key[..pre] + path;
    if path <= k[pre..] {
      assert k[..shared] == k[..pre] + k[pre..][..|path|];
    }
    if key[..shared] <= k {
      assert k[pre..][..|path|] == k[..shared][pre..];
    }
  }

  lemma {:induction false} LookupBranch(input: seq<Entry>, pre: nat, k: Nibbles)
    requires Ready(input, pre) && input[0].key[..pre] <= k && |input| > 1 && SharedAll(input) == pre
    requires pre <= |k| && PrefixFree(input, k)
    ensures Answers(input, k, Lookup(Build(input, pre), k[pre..]))
    ensures !Overruns(Build(input, pre), k[pre..])
    decreases |input|, |input[0].key| - pre, 0
  {
    LongerThanBranch(input, pre, k);
    var n := k[pre];
    var g := Group(input, pre, n);
    GroupShrinks(input, pre, n);
    GroupOnPath(input, pre, k);
    LookupBuild(g, pre + 1, k);
    assert k[pre..][1..] == k[pre + 1..] && k[pre..][0] == n;
    AnswersGroup(input, pre, k, Lookup(Build(g, pre + 1), k[pre + 1..]));
  }

  lemma GroupOnPath(input: seq<Entry>, pre: nat, k: Nibbles)
    requires Ready(input, pre) && input[0].key[..pre] <= k && pre < |k| && PrefixFree(input, k)
    ensures var g := Group(input, pre, k[pre]); PrefixFree(g, k) && (g != [] ==> g[0].key[..pre + 1] <= k)
  {
    GroupIsRun(input, pre, k[pre]);
    var s := Start(input, pre, k[pre]);
    var g := Group(input, pre, k[pre]);
    assert forall i | 0 <= i < |g| :: g[i] == input[s + i];
    if g != [] {
      assert Slot(input[s], pre) == k[pre];
      assert input[0].key[..pre] <= input[s].key;
      assert g[0].key[..pre + 1] == k[..pre] + [k[pre]] == k[..pre + 1];
    }
  }

  /** Two keys leave a branch, so a key that no other continues does not stop there. */
  lemma LongerThanBranch(input: seq<Entry>, pre: nat, k: Nibbles)
    requires Ready(input, pre) && input[0].key[..pre] <= k && |input| > 1
    requires pre <= |k| && PrefixFree(input, k)
    ensures pre < |k|
  {
    var a, b := input[0].key, input[1].key;
    assert Before(input, 0, 1);
    Trichotomy(a, a);
    NotBoth(a, b, k, pre);
  }

  lemma NotBoth(a: Nibbles, b: Nibbles, k: Nibbles, pre: nat)
    requires pre <= |a| && a[..pre] <= k && a[..pre] <= b && pre <= |k| && a != b
    ensures !(a < k) && !(k < a) && !(b < k) && !(k < b) ==> pre < |k|
  {
    assert |k| == pre ==> k == a[..pre];
  }

  lemma AnswersGroup(input: seq<Entry>, pre: nat, k: Nibbles, r: Option<Bytes>)
    requires Ready(input, pre) && pre < |k| && Answers(Group(input, pre, k[pre]), k, r)
    ensures Answers(input, k, r)
  {
    GroupIsRun(input, pre, k[pre]);
    var s := Start(input, pre, k[pre]);
    var g := Group(input, pre, k[pre]);
    assert forall i | 0 <= i < |g| :: g[i] == input[s + i];
    forall i | 0 <= i < |input| && input[i].key == k
      ensures r == Some(input[i].value)
    {
      assert Slot(input[i], pre) == k[pre];
      assert g[i - s] == input[i];
    }
  }
}
