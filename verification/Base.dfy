/** Bytes, digests and big-endian numbers shared by every module. */
module Base {
  datatype Option<+T> = None | Some(value: T)

  type Byte = x: int | 0 <= x < 256
  type Bytes = seq<Byte>

  /** What keccak256 returns: always 32 bytes. */
  type Digest = b: Bytes | |b| == 32 witness seq(32, _ => 0)

  /** A block hash. The wrapper keeps chain reasoning away from byte reasoning. */
  datatype Hash = Hash(bytes: Digest)

  /** keccak256 is foreign code: every theorem holds for an arbitrary function of this type.
      It cannot be injective, so hash results name the two byte strings that would collide. */
  type Hasher = Bytes -> Digest

  ghost predicate Collide(keccak: Hasher, a: Bytes, b: Bytes) {
    a != b && keccak(a) == keccak(b)
  }

  /** One past the largest u64 / usize. */
  const U64: nat := 0x1_0000_0000_0000_0000

  function Pow256(k: nat): (p: nat)
    ensures p > 0
  {
    if k == 0 then 1 else 256 * Pow256(k - 1)
  }

  lemma Pow256Is64Bits()
    ensures Pow256(8) == U64
  {
    assert Pow256(2) == 0x1_0000;
    assert Pow256(4) == 0x1_0000_0000;
    assert Pow256(6) == 0x1_0000_0000_0000;
  }

  /** Minimal big-endian bytes of n; zero is the empty string. */
  function ToBe(n: nat): (b: Bytes)
    ensures n > 0 ==> |b| > 0 && b[0] != 0
    ensures n == 0 ==> b == []
  {
    if n == 0 then [] else ToBe(n / 256) + [n % 256]
  }

  function FromBe(b: Bytes): (n: nat) {
    if b == [] then 0 else FromBe(b[..|b| - 1]) * 256 + b[|b| - 1]
  }

  lemma {:induction false} BeRoundTrip(n: nat)
    ensures FromBe(ToBe(n)) == n
  {
    if n > 0 {
      BeRoundTrip(n / 256);
      assert ToBe(n)[..|ToBe(n)| - 1] == ToBe(n / 256);
    }
  }

  lemma {:induction false} BeLength(n: nat, k: nat)
    requires n < Pow256(k)
    ensures |ToBe(n)| <= k
  {
    if n > 0 {
      assert k > 0;
      BeLength(n / 256, k - 1);
    }
  }

  lemma {:induction false} BeBound(b: Bytes)
    ensures FromBe(b) < Pow256(|b|)
  {
    if b != [] {
      BeBound(b[..|b| - 1]);
    }
  }

  /** Bytes without a leading zero are the minimal form of their value. */
  lemma {:induction false} BeCanonical(b: Bytes)
    requires b == [] || b[0] != 0
    ensures ToBe(FromBe(b)) == b
  {
    if b != [] {
      var init := b[..|b| - 1];
      BeCanonical(init);
      assert b == init + [b[|b| - 1]];
      if init == [] {
        assert FromBe(b) == b[0];
      } else {
        assert FromBe(init) != 0 by {
          assert ToBe(0) == [];
        }
      }
      assert FromBe(b) / 256 == FromBe(init) && FromBe(b) % 256 == b[|b| - 1];
    }
  }
}
