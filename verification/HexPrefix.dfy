/** Nibbles and the hex-prefix code (Appendix C of the Ethereum Yellow Paper). */
module HexPrefix {
  import opened Base

  type Nibble = x: int | 0 <= x < 16
  type Nibbles = seq<Nibble>

  function BytesToNibbles(b: Bytes): (n: Nibbles)
    ensures |n| == 2 * |b|
  {
    if b == [] then [] else [b[0] / 16, b[0] % 16] + BytesToNibbles(b[1..])
  }

  /** Two nibbles, or a flag and a nibble, in one byte. */
  function Join(hi: int, lo: int): (b: Byte)
    requires 0 <= hi < 16 && 0 <= lo < 16
    ensures b / 16 == hi && b % 16 == lo
  {
    16 * hi + lo
  }

  function Pack(n: Nibbles): (b: Bytes)
    requires |n| % 2 == 0
    ensures 2 * |b| == |n|
  {
    if n == [] then [] else [Join(n[0], n[1])] + Pack(n[2..])
  }

  lemma {:induction false} PackUnpack(n: Nibbles)
    requires |n| % 2 == 0
    ensures BytesToNibbles(Pack(n)) == n
  {
    if n != [] {
      PackUnpack(n[2..]);
      assert n == [n[0], n[1]] + n[2..];
    }
  }

  lemma {:induction false} UnpackPack(b: Bytes)
    ensures Pack(BytesToNibbles(b)) == b
  {
    if b != [] {
      UnpackPack(b[1..]);
      assert BytesToNibbles(b)[2..] == BytesToNibbles(b[1..]);
    }
  }

  lemma {:induction false} NibblePrefix(a: Bytes, b: Bytes)
    requires BytesToNibbles(a) <= BytesToNibbles(b)
    ensures a <= b
  {
    if a != [] {
      var na, nb := BytesToNibbles(a), BytesToNibbles(b);
      assert na[0] == nb[0] && na[1] == nb[1];
      assert na[2..] == BytesToNibbles(a[1..]) && nb[2..] == BytesToNibbles(b[1..]);
      assert nb[2..][..|na| - 2] == nb[..|na|][2..] == na[2..];
      NibblePrefix(a[1..], b[1..]);
      assert a[0] == b[0];
      assert b[..|a|] == [b[0]] + b[1..][..|a| - 1];
    }
  }

  /** Oddness is bit 0 of the flag nibble, leaf is bit 1. */
  function Encode(n: Nibbles, leaf: bool): (b: Bytes)
    ensures |b| == |n| / 2 + 1
  {
    var flag := |n| % 2 + if leaf then 2 else 0;
    [Join(flag, if |n| % 2 == 1 then n[0] else 0)] + Pack(n[|n| % 2..])
  }

  function Decode(path: Bytes): Option<(Nibbles, bool)> {
    if path == [] || path[0] / 16 > 3 then None
    else
      var flag := path[0] / 16;
      var nibs := BytesToNibbles(path);
      if flag % 2 == 1 then Some((nibs[1..], flag / 2 == 1))
      else if nibs[1] != 0 then None
      else Some((nibs[2..], flag / 2 == 1))
  }

  lemma DecodeOfEncode(n: Nibbles, leaf: bool)
    ensures Decode(Encode(n, leaf)) == Some((n, leaf))
  {
    var path, packed := Encode(n, leaf), n[|n| % 2..];
    PackUnpack(packed);
    assert path[1..] == Pack(packed);
    var nibs := BytesToNibbles(path);
    assert nibs == [path[0] / 16, path[0] % 16] + packed;
    assert nibs[2..] == packed;
    assert |n| % 2 == 1 ==> nibs[1..] == n;
    assert |n| % 2 == 0 ==> nibs[2..] == n;
  }

  lemma DecodedTail(path: Bytes)
    requires Decode(path).Some?
    ensures var (n, leaf) := Decode(path).value;
            path[0] / 16 == |n| % 2 + (if leaf then 2 else 0) && n[|n| % 2..] == BytesToNibbles(path[1..]) &&
            path[0] % 16 == if |n| % 2 == 1 then n[0] else 0
  {
    var nibs := BytesToNibbles(path);
    var tail := BytesToNibbles(path[1..]);
    assert nibs == [path[0] / 16, path[0] % 16] + tail;
    assert nibs[1..][1..] == tail && nibs[2..] == tail;
  }

  lemma JoinOf(b: Byte)
    ensures Join(b / 16, b % 16) == b
  {
  }

  lemma EncodeIs(n: Nibbles, leaf: bool, first: Byte, tail: Bytes)
    requires first == Join(|n| % 2 + (if leaf then 2 else 0), if |n| % 2 == 1 then n[0] else 0)
    requires n[|n| % 2..] == BytesToNibbles(tail)
    ensures Encode(n, leaf) == [first] + tail
  {
    UnpackPack(tail);
  }

  lemma EncodeOfDecode(path: Bytes)
    requires Decode(path).Some?
    ensures path == Encode(Decode(path).value.0, Decode(path).value.1)
  {
    var (n, leaf) := Decode(path).value;
    DecodedTail(path);
    JoinOf(path[0]);
    EncodeIs(n, leaf, path[0], path[1..]);
  }

  /** Each path has one spelling and each accepted spelling is the canonical one. */
  lemma DecodeIff(path: Bytes, n: Nibbles, leaf: bool)
    ensures Decode(path) == Some((n, leaf)) <==> path == Encode(n, leaf)
  {
    DecodeOfEncode(n, leaf);
    if Decode(path) == Some((n, leaf)) {
      EncodeOfDecode(path);
    }
  }

  lemma {:induction false} NibblesAt(b: Bytes, i: nat)
    requires i < |b|
    ensures BytesToNibbles(b)[2 * i] == b[i] / 16 && BytesToNibbles(b)[2 * i + 1] == b[i] % 16
  {
    if i > 0 {
      NibblesAt(b[1..], i - 1);
      assert BytesToNibbles(b)[2..] == BytesToNibbles(b[1..]);
    }
  }

  lemma {:induction false} PackAt(n: Nibbles, i: nat)
    requires |n| % 2 == 0 && 2 * i < |n|
    ensures var hi: int, lo: int := n[2 * i], n[2 * i + 1]; Pack(n)[i] == 16 * hi + lo
  {
    if i > 0 { PackAt(n[2..], i - 1); }
  }

  /** Every byte of an encoded path: the first holds 0x20 for a leaf and 0x10 plus the first nibble for an odd
      length, the others two nibbles each. */
  lemma EncodeAt(n: Nibbles, leaf: bool, i: nat)
    requires i < |Encode(n, leaf)|
    ensures Encode(n, leaf)[i] ==
            if i > 0 then var hi: int, lo: int := n[2 * i - 2 + |n| % 2], n[2 * i - 1 + |n| % 2]; 16 * hi + lo
            else
              var first: int := if |n| % 2 == 1 then n[0] else 0;
              first + (if leaf then 0x20 else 0) + if |n| % 2 == 1 then 0x10 else 0
  {
    if i > 0 {
      PackAt(n[|n| % 2..], i - 1);
    }
  }

  /** `bytes_to_nibbles`' push loop. */
  method BytesToNibblesLoop(b: Bytes) returns (n: Nibbles)
    ensures n == BytesToNibbles(b)
  {
    n := [];
    for i := 0 to |b|
      invariant n + BytesToNibbles(b[i..]) == BytesToNibbles(b)
    {
      assert b[i..][1..] == b[i + 1..];
      n := n + [b[i] / 16, b[i] % 16];
    }
  }

  /** `hex_prefix_encode`'s loop over two-nibble chunks. */
  method PackLoop(rest: Nibbles) returns (out: Bytes)
    requires |rest| % 2 == 0
    ensures out == Pack(rest)
  {
    out := [];
    var i := 0;
    while i < |rest|
      invariant i <= |rest| && i % 2 == 0
      invariant out + Pack(rest[i..]) == Pack(rest)
    {
      assert rest[i..][2..] == rest[i + 2..];
      out := out + [Join(rest[i], rest[i + 1])];
      i := i + 2;
    }
  }

  method EncodeLoop(n: Nibbles, leaf: bool) returns (out: Bytes)
    ensures out == Encode(n, leaf)
  {
    var odd := |n| % 2;
    var flag := odd + if leaf then 2 else 0;
    var packed := PackLoop(n[odd..]);
    return [Join(flag, if odd == 1 then n[0] else 0)] + packed;
  }
}
