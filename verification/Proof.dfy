/** The EIP-1186 proof walker: which answers a list of raw trie nodes can establish. */
module Proof {
  import opened Base
  import opened HexPrefix
  import Rlp

  datatype WalkError =
    BadRlp | HashMismatch | PathMismatch | EmptyChild | Exhausted | ExtraNodes | KeyLeftover

  /** `Ok(None)` is a verified exclusion. */
  datatype Walk = Ok(value: Option<Bytes>) | Err(error: WalkError)

  function NodeRef(keccak: Hasher, raw: Bytes): Bytes {
    if |raw| < 32 then raw else keccak(raw)
  }

  function VerifyTrieProof(keccak: Hasher, root: Digest, hashedKey: Digest, proof: seq<Bytes>): Walk {
    VerifyNibbleProof(keccak, root, BytesToNibbles(hashedKey), proof)
  }

  function VerifyNibbleProof(keccak: Hasher, root: Digest, nibbles: Nibbles, proof: seq<Bytes>): Walk {
    if proof == [] then Err(Exhausted) else ConsumeHashed(keccak, proof, root, nibbles)
  }

  /** Take the next proof node, which must be the one `expected` names. */
  function ConsumeHashed(keccak: Hasher, rest: seq<Bytes>, expected: Bytes, nibbles: Nibbles): Walk
    decreases |rest|, 0, 0
  {
    if rest == [] then Err(Exhausted)
    else if NodeRef(keccak, rest[0]) != expected then Err(HashMismatch)
    else match Rlp.DecodeTop(rest[0], Rlp.NODE_LEVELS)
      case Some(List(items)) => WalkItems(keccak, items, rest[1..], nibbles)
      case _ => Err(BadRlp)
  }

  function WalkItems(keccak: Hasher, items: seq<Rlp.Item>, rest: seq<Bytes>, nibbles: Nibbles): Walk
    decreases |rest|, |Rlp.EncAll(items)|, 1
  {
    if |items| == 17 then
      if nibbles == [] then
        Rlp.EncAllMember(items, 16);
        FollowChild(keccak, items[16], rest, nibbles, true)
      else
        Rlp.EncAllMember(items, nibbles[0]);
        FollowChild(keccak, items[nibbles[0]], rest, nibbles[1..], false)
    else if |items| == 2 then
      if items[0].List? then Err(BadRlp)
      else match HexPrefix.Decode(items[0].bytes)
        case None => Err(PathMismatch)
        case Some((path, isLeaf)) =>
          if !(path <= nibbles) then (if rest == [] then Ok(None) else Err(PathMismatch))
          else if isLeaf then
            if |path| < |nibbles| then Err(KeyLeftover)
            else if rest != [] then Err(ExtraNodes)
            else if items[1].List? then Err(BadRlp)
            else Ok(Some(items[1].bytes))
          else
            Rlp.EncAllMember(items, 1);
            FollowChild(keccak, items[1], rest, nibbles[|path|..], false)
    else Err(BadRlp)
  }

  /** `branchValue` marks the 17th slot of a branch, where a string is the value itself. */
  function FollowChild(keccak: Hasher, item: Rlp.Item, rest: seq<Bytes>, nibbles: Nibbles, branchValue: bool): Walk
    decreases |rest|, |Rlp.Enc(item)|, 0
  {
    match item
    case List(items) => WalkItems(keccak, items, rest, nibbles)
    case Str(b) =>
      if b == [] then (if rest == [] then Ok(None) else Err(EmptyChild))
      else if branchValue then (if rest == [] then Ok(Some(b)) else Err(ExtraNodes))
      else if |b| >= 32 then ConsumeHashed(keccak, rest, b, nibbles)
      else
        WrappedNodeShrinks(b);
        match Rlp.DecodeTop(b, Rlp.NODE_LEVELS)
        case Some(List(items)) => WalkItems(keccak, items, rest, nibbles)
        case _ => Err(BadRlp)
  }

  /** A list spelled inside a string is smaller than the string item: the walk terminates. */
  lemma WrappedNodeShrinks(b: Bytes)
    ensures var d := Rlp.DecodeTop(b, Rlp.NODE_LEVELS);
            d.Some? && d.value.List? ==> |Rlp.EncAll(d.value.items)| < |Rlp.Enc(Rlp.Str(b))|
  {
    var d := Rlp.DecodeTop(b, Rlp.NODE_LEVELS);
    if d.Some? {
      Rlp.DecodeSound(b, Rlp.NODE_LEVELS);
    }
  }

  // ----- accepted proofs are unique -----

  /** Two node lists hold, at one position, different nodes with the same hash. */
  ghost predicate Clash(keccak: Hasher, p: seq<Bytes>, q: seq<Bytes>) {
    exists i :: 0 <= i < |p| && i < |q| && Collide(keccak, p[i], q[i])
  }

  lemma ClashTail(keccak: Hasher, p: seq<Bytes>, q: seq<Bytes>)
    requires p != [] && q != [] && Clash(keccak, p[1..], q[1..])
    ensures Clash(keccak, p, q)
  {
    var i :| 0 <= i < |p[1..]| && i < |q[1..]| && Collide(keccak, p[1..][i], q[1..][i]);
    assert Collide(keccak, p[i + 1], q[i + 1]);
  }

  lemma {:induction false} ConsumeUnique(keccak: Hasher, p: seq<Bytes>, q: seq<Bytes>, expected: Bytes, nibbles: Nibbles)
    requires |expected| >= 32
    requires ConsumeHashed(keccak, p, expected, nibbles).Ok?
    requires ConsumeHashed(keccak, q, expected, nibbles).Ok?
    ensures p == q || Clash(keccak, p, q)
    decreases |p|, 0, 0
  {
    if p[0] != q[0] {
      assert Collide(keccak, p[0], q[0]);
    } else {
      WalkUnique(keccak, Rlp.DecodeTop(p[0], Rlp.NODE_LEVELS).value.items, p[1..], q[1..], nibbles);
      if p[1..] != q[1..] {
        ClashTail(keccak, p, q);
      } else {
        assert p == [p[0]] + p[1..] && q == [q[0]] + q[1..];
      }
    }
  }

  lemma {:induction false} WalkUnique(keccak: Hasher, items: seq<Rlp.Item>, p: seq<Bytes>, q: seq<Bytes>, nibbles: Nibbles)
    requires WalkItems(keccak, items, p, nibbles).Ok?
    requires WalkItems(keccak, items, q, nibbles).Ok?
    ensures p == q || Clash(keccak, p, q)
    decreases |p|, |Rlp.EncAll(items)|, 1
  {
    if |items| == 17 {
      if nibbles == [] {
        Rlp.EncAllMember(items, 16);
        FollowUnique(keccak, items[16], p, q, nibbles, true);
      } else {
        Rlp.EncAllMember(items, nibbles[0]);
        FollowUnique(keccak, items[nibbles[0]], p, q, nibbles[1..], false);
      }
    } else {
      var (path, isLeaf) := HexPrefix.Decode(items[0].bytes).value;
      if path <= nibbles && !isLeaf {
        Rlp.EncAllMember(items, 1);
        FollowUnique(keccak, items[1], p, q, nibbles[|path|..], false);
      }
    }
  }

  lemma {:induction false} FollowUnique(keccak: Hasher, item: Rlp.Item, p: seq<Bytes>, q: seq<Bytes>, nibbles: Nibbles, branchValue: bool)
    requires FollowChild(keccak, item, p, nibbles, branchValue).Ok?
    requires FollowChild(keccak, item, q, nibbles, branchValue).Ok?
    ensures p == q || Clash(keccak, p, q)
    decreases |p|, |Rlp.Enc(item)|, 0
  {
    match item
    case List(items) => WalkUnique(keccak, items, p, q, nibbles);
    case Str(b) =>
      if b != [] && !branchValue {
        if |b| >= 32 {
          ConsumeUnique(keccak, p, q, b, nibbles);
        } else {
          WrappedNodeShrinks(b);
          WalkUnique(keccak, Rlp.DecodeTop(b, Rlp.NODE_LEVELS).value.items, p, q, nibbles);
        }
      }
  }

  /** Two accepted proofs for one root and key are the same node list with the same answer, or
      the two proofs themselves contain a keccak collision. */
  lemma AcceptedProofsUnique(keccak: Hasher, root: Digest, hashedKey: Digest, p: seq<Bytes>, q: seq<Bytes>)
    requires VerifyTrieProof(keccak, root, hashedKey, p).Ok?
    requires VerifyTrieProof(keccak, root, hashedKey, q).Ok?
    ensures (p == q && VerifyTrieProof(keccak, root, hashedKey, p) == VerifyTrieProof(keccak, root, hashedKey, q))
            || Clash(keccak, p, q)
  {
    ConsumeUnique(keccak, p, q, root, BytesToNibbles(hashedKey));
  }
}
